/** What each command, read and turn of the inline editor does to the host's mode and to its sessions. */
module EditorCommands {
  import opened Wrappers
  import Mailbox
  import opened EditorProtocol

  lemma {:induction false} RunStep(evs: seq<Event>, ev: Event)
    ensures Run(evs + [ev]) == Step(Run(evs), ev)
  {
    assert (evs + [ev])[..|evs|] == evs;
  }

  lemma {:induction false} NothingLive(w: World)
    requires w.edit.None?
    ensures ExitMode(w) == w.(mode := None)
  {
  }

  /** The editor can be opened: no opening is under way, no session is live, and the host lets the file be written. */
  predicate Opens(w: World, canWrite: bool, enters: bool) {
    !w.opening && w.edit.None? && canWrite && enters
  }

  /**
   * Ctrl-E, in any run: where the editor can be opened, the mode becomes active on the selected file and one run waits
   * for its document; where not, nothing changes but that one more run has come and gone.
   */
  lemma {:induction false} CommandOpensExactly(evs: seq<Event>, selected: Option<nat>, canWrite: bool, enters: bool)
    ensures var w, w' := Run(evs), Run(evs + [CtrlE(selected, canWrite, enters)]);
            if selected.Some? && Opens(w, canWrite, enters) then
              && w'.opening && w'.mode == selected && w'.openingFile == selected && w'.edit.None?
              && w'.sessions == w.sessions && w'.handlers == w.handlers + [Opening(selected.value)]
            else w' == w.(handlers := w.handlers + [Finished])
  {
    var w := Run(evs);
    RunKeeps(evs);
    RunStep(evs, CtrlE(selected, canWrite, enters));
    if selected.Some? && Opens(w, canWrite, enters) { NothingLive(w.(opening := true, openingFile := selected)); }
  }

  /** A document that could be read opens a session exactly while the mode is still active; else nothing is left open. */
  lemma {:induction false} ReadOpensExactly(evs: seq<Event>, h: nat, readable: bool)
    requires h < |Run(evs).handlers| && Run(evs).handlers[h].Opening?
    ensures var w, w' := Run(evs), Run(evs + [ReadSettles(h, readable)]);
            var file := w.handlers[h].file;
            && !w'.opening && h < |w'.handlers|
            && if readable && w.mode.Some? then
                 && w'.sessions == w.sessions + [Session(file, Mailbox.EMPTY)] && w'.edit == Some(|w.sessions|)
                 && w'.handlers[h] == Ready(|w.sessions|) && w'.mode == Some(file)
               else w'.sessions == w.sessions && w'.edit.None? && w'.mode.None? && w'.handlers[h] == Finished
  {
    var w := Run(evs);
    RunKeeps(evs);
    RunStep(evs, ReadSettles(h, readable));
    ReleaseKeeps(w, h);
    if w.mode.Some? && !readable {
      NothingLive(w.(opening := false, openingFile := None));
    }
  }

  /** A read that throws leaves no session either, and frees the editor. */
  lemma {:induction false} ReadThrowFrees(evs: seq<Event>, h: nat)
    requires h < |Run(evs).handlers| && Run(evs).handlers[h].Opening?
    ensures var w, w' := Run(evs), Run(evs + [ReadThrows(h)]);
            && !w'.opening && w'.edit.None? && w'.sessions == w.sessions && w'.mode == w.mode
            && w'.handlers == w.handlers[h := Finished]
  {
    RunKeeps(evs);
    RunStep(evs, ReadThrows(h));
  }

  /** A run that has been told to save writes exactly when the text has changed, and otherwise asks again. */
  lemma {:induction false} SaveWritesExactlyEdits(evs: seq<Event>, h: nat, dirty: bool)
    requires h < |Run(evs).handlers| && Run(evs).handlers[h].Holding?
    ensures var w, w' := Run(evs), Run(evs + [Continue(h, dirty)]);
            var s, request := w.handlers[h].session, w.handlers[h].request;
            && w'.sessions == w.sessions && w'.edit == w.edit && w'.mode == w.mode
            && (request.End? ==> w'.handlers == w.handlers[h := Finished])
            && (request.Save? && dirty ==> w'.handlers == w.handlers[h := Writing(s)])
            && (request.Save? && !dirty ==> w'.handlers == w.handlers[h := Ready(s)])
  {
    RunStep(evs, Continue(h, dirty));
  }

  /** A run starts a write only so. */
  lemma {:induction false} WritesStartSo(evs: seq<Event>, ev: Event, h: nat, s: nat)
    requires var w' := Run(evs + [ev]); h < |w'.handlers| && w'.handlers[h] == Writing(s)
    requires var w := Run(evs); h >= |w.handlers| || w.handlers[h] != Writing(s)
    ensures ev == Continue(h, true)
    ensures var w := Run(evs); h < |w.handlers| && w.handlers[h] == Holding(s, Mailbox.Save)
  {
    RunStep(evs, ev);
    WriteStarts(Run(evs), ev, h, s);
  }

  lemma {:induction false} WriteStarts(w: World, ev: Event, h: nat, s: nat)
    requires var w' := Step(w, ev); h < |w'.handlers| && w'.handlers[h] == Writing(s)
    requires h >= |w.handlers| || w.handlers[h] != Writing(s)
    ensures ev == Continue(h, true) && h < |w.handlers| && w.handlers[h] == Holding(s, Mailbox.Save)
  {
    match ev
    case CtrlE(selected, _, _) =>
      if selected.Some? { EnterWrites(w.(opening := true, openingFile := selected), selected.value, h); }
    case ReadSettles(k, _) => ExitWrites(w.(opening := false, openingFile := None), h);
    case ModeEnters(file) => EnterWrites(w, file, h);
    case ModeExits => ExitWrites(w, h);
    case SaveKey => if w.edit.Some? && w.edit.value < |w.sessions| { DeliverWrites(w, w.edit.value, Mailbox.Save, h); }
    case Continue(k, dirty) =>
    case _ =>
  }

  lemma {:induction false} DeliverWrites(w: World, s: nat, request: Mailbox.Request, h: nat)
    requires s < |w.sessions|
    ensures |Deliver(w, s, request).handlers| == |w.handlers|
    ensures h < |w.handlers| && Deliver(w, s, request).handlers[h].Writing? ==>
              Deliver(w, s, request).handlers[h] == w.handlers[h]
  {
  }

  lemma {:induction false} ExitWrites(w: World, h: nat)
    ensures |ExitMode(w).handlers| == |w.handlers|
    ensures h < |w.handlers| && ExitMode(w).handlers[h].Writing? ==> ExitMode(w).handlers[h] == w.handlers[h]
  {
    if w.mode.Some? && w.edit.Some? && w.edit.value < |w.sessions| {
      DeliverWrites(w.(mode := None, edit := None), w.edit.value, Mailbox.End, h);
    }
  }

  lemma {:induction false} EnterWrites(w: World, file: nat, h: nat)
    ensures |EnterMode(w, file).handlers| == |w.handlers|
    ensures h < |w.handlers| && EnterMode(w, file).handlers[h].Writing? ==> EnterMode(w, file).handlers[h] == w.handlers[h]
  {
    ExitWrites(w, h);
    ExitWrites(ExitMode(w).(mode := Some(file)), h);
  }

  /** Leaving the mode, in any run, ends the live session and leaves none. */
  lemma {:induction false} ExitEnds(evs: seq<Event>)
    ensures var w, w' := Run(evs), Run(evs + [ModeExits]);
            && w'.mode.None? && w'.edit.None? && |w'.sessions| == |w.sessions|
            && (w.edit.Some? ==> w.edit.value < |w'.sessions| && w'.sessions[w.edit.value].box.ended)
            && forall s | 0 <= s < |w.sessions| :: w'.sessions[s].box.ended
  {
    var w := Run(evs);
    RunKeeps(evs);
    RunStep(evs, ModeExits);
    ExitKeeps(w);
  }
}
