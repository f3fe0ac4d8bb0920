/** How a history cursor ends: closing, aborting and failing, and what a parked read is told. */
module HistoryEndings {
  import opened Wrappers
  import opened Text
  import opened HistoryParser
  import opened HistoryCursor
  import opened HistoryTheorems

  lemma {:induction false} RunNext<C>(p: Provider<C>, evs: seq<Event>, ev: Event)
    ensures Run(p, evs + [ev]) == Next(p, Run(p, evs), ev)
  {
    assert (evs + [ev])[..|evs|] == evs;
  }

  /** The read that waits, and has not been told anything yet. */
  predicate Waiting<C>(c: Cursor<C>) { c.suspended.Some? && c.suspended.value.wait.Pending? }

  /** A parked read has been told: nobody waits, and it is told `told` if it waited. */
  ghost predicate Told<C>(c: Cursor<C>, c': Cursor<C>, told: Wait) {
    && c'.waiters == {} && !Waiting(c')
    && (Waiting(c) ==> c'.suspended == Some(c.suspended.value.(wait := told)))
    && (!Waiting(c) ==> c'.suspended == c.suspended)
  }

  // ---- Closing ----

  /**
   * Closing, in any run of either backend: the cursor is closed, nobody is left waiting, and the read that waited is
   * resolved; nothing is delivered, queued or lost by it.
   */
  lemma {:induction false} CloseSettles<C>(p: Provider<C>, evs: seq<Event>)
    requires !Run(p, evs).down
    ensures var w, w' := Run(p, evs), Run(p, evs + [Close]);
            && w'.c.closed && !w'.down && Told(w.c, w'.c, Resolved)
            && w'.delivered == w.delivered && w'.received == w.received
            && w'.c == w.c.(closed := true, waiters := w'.c.waiters, suspended := w'.c.suspended)
  {
    RunKeeps(p, evs);
    RunNext(p, evs, Close);
    var w := Run(p, evs);
    assert w.received + "" == w.received && w.delivered + [] == w.delivered;
  }

  /** What closes a cursor that is open: `close()`, and for Jujutsu a read that is aborted before, in or after its wait. */
  predicate ClosingEvent<C>(p: Provider<C>, c: Cursor<C>, ev: Event) {
    match ev
    case Close => true
    case ReadBegin(_, aborted) => p.flavour.Jj? && aborted && !c.reading
    case Abort => p.flavour.Jj? && Waiting(c)
    case ReadResume =>
      // Woken, then aborted before it ran on, and about to wait again.
      && p.flavour.Jj? && c.suspended.Some? && c.suspended.value.wait.Resolved? && c.suspended.value.aborted
      && |c.queue| < c.suspended.value.target && !c.completed
    case _ => false
  }

  /** Such an event occurred in the run. */
  ghost predicate WasClosed<C>(p: Provider<C>, evs: seq<Event>) {
    evs != [] &&
    var init, ev := evs[..|evs| - 1], evs[|evs| - 1];
    WasClosed(p, init) || (Enabled(Run(p, init), ev) && ClosingEvent(p, Run(p, init).c, ev))
  }

  lemma {:induction false} ConsumeKeepsClosed<C>(p: Provider<C>, c: Cursor<C>, text: string)
    ensures Consume(p, c, text).0.closed == c.closed
  {
  }

  lemma {:induction false} AdvanceCloses<C>(p: Provider<C>, c: Cursor<C>, target: int, aborted: bool)
    ensures Advance(p, c, target, aborted).0.closed
            <==> c.closed || (p.flavour.Jj? && aborted && |c.queue| < target && !c.completed)
  {
  }

  lemma {:induction false} ReadCloses<C>(p: Provider<C>, c: Cursor<C>, ev: Event)
    requires ev.ReadBegin? || (ev.ReadResume? && c.suspended.Some? && !c.suspended.value.wait.Pending?)
    ensures Step(p, c, ev).0.closed <==> c.closed || ClosingEvent(p, c, ev)
  {
    match ev
    case ReadBegin(limit, aborted) => AdvanceCloses(p, c.(reading := true), Target(p, limit), aborted);
    case ReadResume => AdvanceCloses(p, c.(suspended := None), c.suspended.value.target, c.suspended.value.aborted);
    case _ =>
  }

  lemma {:induction false} SettleKeepsClosed<C>(c: Cursor<C>, success: bool)
    ensures Settle(c, success).closed == c.closed
  {
  }

  lemma {:induction false} DataCloses<C>(p: Provider<C>, c: Cursor<C>, text: string)
    ensures OnData(p, c, text).0.closed == c.closed
  {
    ConsumeKeepsClosed(p, c, text);
    var consumed := Consume(p, c, text);
  }

  lemma {:induction false} ProcessCloses<C>(p: Provider<C>, c: Cursor<C>, tail: string, success: bool)
    ensures OnClose(p, c, tail, success).0.closed == c.closed
  {
    ConsumeKeepsClosed(p, c, tail);
    var (c1, error) := Consume(p, c, tail);
    SettleKeepsClosed(c, success);
    SettleKeepsClosed(c1, success);
    if error.Some? { SettleKeepsClosed(c1.(failure := Some(Malformed(error.value))), success); }
  }

  /** One step closes exactly by such an event, and no step opens a closed cursor. */
  lemma {:induction false} StepCloses<C>(p: Provider<C>, w: World<C>, ev: Event)
    requires Enabled(w, ev)
    ensures Step(p, w.c, ev).0.closed <==> w.c.closed || ClosingEvent(p, w.c, ev)
  {
    if ev.Data? {
      DataCloses(p, w.c, ev.text);
    } else if ev.ProcessClose? {
      ProcessCloses(p, w.c, ev.tail, ev.success);
    } else if ev.ReadBegin? || ev.ReadResume? {
      ReadCloses(p, w.c, ev);
    }
  }

  /** A cursor is closed exactly when such an event occurred; so for Git, exactly when `close()` was called. */
  lemma {:induction false} ClosedExactly<C>(p: Provider<C>, evs: seq<Event>)
    ensures Run(p, evs).c.closed <==> WasClosed(p, evs)
  {
    if evs == [] {
    } else {
      var init, ev := evs[..|evs| - 1], evs[|evs| - 1];
      ClosedExactly(p, init);
      if Enabled(Run(p, init), ev) { StepCloses(p, Run(p, init), ev); }
    }
  }

  /** Once closed, always closed. */
  lemma {:induction false} ClosedForGood<C>(p: Provider<C>, evs: seq<Event>, n: nat)
    requires n <= |evs| && Run(p, evs[..n]).c.closed
    ensures Run(p, evs).c.closed
    decreases |evs|
  {
    if |evs| == n {
      assert evs[..n] == evs;
    } else {
      var init, ev := evs[..|evs| - 1], evs[|evs| - 1];
      assert init[..n] == evs[..n];
      ClosedForGood(p, init, n);
      if Enabled(Run(p, init), ev) { StepCloses(p, Run(p, init), ev); }
    }
  }

  /** `close()` was called while the program ran. */
  ghost predicate CloseCalled<C>(p: Provider<C>, evs: seq<Event>) {
    exists i | 0 <= i < |evs| :: evs[i] == Close && !Run(p, evs[..i]).down
  }

  lemma {:induction false} CloseCalledLast<C>(p: Provider<C>, init: seq<Event>, ev: Event, evs: seq<Event>)
    requires evs == init + [ev]
    ensures CloseCalled(p, evs) <==> CloseCalled(p, init) || (ev == Close && !Run(p, init).down)
  {
    var last := |init|;
    assert evs[last] == ev && evs[..last] == init;
    forall i | 0 <= i < last ensures evs[i] == init[i] && evs[..i] == init[..i] {}
  }

  /** Git's cursor is closed exactly when `close()` was called while the program ran. */
  lemma {:induction false} GitClosedExactly<C>(p: Provider<C>, evs: seq<Event>)
    requires p.flavour.Git?
    ensures Run(p, evs).c.closed <==> CloseCalled(p, evs)
  {
    if evs == [] {
    } else {
      var init, ev := evs[..|evs| - 1], evs[|evs| - 1];
      GitClosedExactly(p, init);
      CloseCalledLast(p, init, ev, evs);
      if Enabled(Run(p, init), ev) { StepCloses(p, Run(p, init), ev); }
    }
  }

  // ---- The read that was parked ----

  /** How many commits a page of at most `target` takes. */
  function PageLength(target: int, available: nat): nat {
    if target < 0 then 0 else if target < available then target else available
  }

  /**
   * A read that goes on from a closed cursor without abort or failure returns a page, of its limit or all that is
   * queued, and it is done exactly when that empties the queue.
   */
  lemma {:induction false} ClosedReaderGetsPage<C>(p: Provider<C>, evs: seq<Event>)
    requires var w := Run(p, evs);
             && !w.down && w.c.closed && w.c.failure.None? && w.c.suspended.Some?
             && w.c.suspended.value.wait.Resolved? && !w.c.suspended.value.aborted
    ensures var w, w' := Run(p, evs), Run(p, evs + [ReadResume]);
            var n := PageLength(w.c.suspended.value.target, |w.c.queue|);
            && Step(p, w.c, ReadResume).1 == Page(w.c.queue[..n], n == |w.c.queue|)
            && w'.delivered == w.delivered + w.c.queue[..n] && w'.c.queue == w.c.queue[n..] && !w'.c.reading
  {
    RunNext(p, evs, ReadResume);
  }

  /** So a read parked at the close is answered, done, with everything that was queued. */
  lemma {:induction false} CloseAnswersReader<C>(p: Provider<C>, evs: seq<Event>)
    requires !Run(p, evs).down && Waiting(Run(p, evs).c) && Run(p, evs).c.failure.None?
    ensures var w, w' := Run(p, evs), Run(p, evs + [Close]);
            && Enabled(w', ReadResume)
            && Step(p, w'.c, ReadResume).1 == Page(w.c.queue, true)
  {
    var w, w' := Run(p, evs), Run(p, evs + [Close]);
    RunKeeps(p, evs);
    CloseSettles(p, evs);
    ClosedReaderGetsPage(p, evs + [Close]);
    assert w'.c.queue[..|w'.c.queue|] == w'.c.queue;
  }

  // ---- Spawn failures and aborts ----

  /** A spawn failure completes the cursor with that failure and resolves the read that waited. */
  lemma {:induction false} SpawnFailureSettles<C>(p: Provider<C>, evs: seq<Event>)
    requires !Run(p, evs).down
    ensures var w, w' := Run(p, evs), Run(p, evs + [ProcessError]);
            && w'.c.completed && w'.c.failure == Some(SpawnFailed) && Told(w.c, w'.c, Resolved)
            && w'.c.queue == w.c.queue && w'.delivered == w.delivered
  {
    RunKeeps(p, evs);
    RunNext(p, evs, ProcessError);
    assert Run(p, evs).delivered + [] == Run(p, evs).delivered;
  }

  /** An abort rejects the read that waited; going on, it throws the abort, and the cursor is free again. */
  lemma {:induction false} AbortRejects<C>(p: Provider<C>, evs: seq<Event>)
    requires !Run(p, evs).down && Waiting(Run(p, evs).c)
    ensures var w, w' := Run(p, evs), Run(p, evs + [Abort]);
            && w'.c.waiters == {} && !w'.down && w'.c.queue == w.c.queue
            && w'.c.suspended == Some(w.c.suspended.value.(aborted := true, wait := Rejected))
            && Step(p, w'.c, ReadResume) == (w'.c.(reading := false, suspended := None), Threw(ReadAborted))
  {
    RunKeeps(p, evs);
    RunNext(p, evs, Abort);
  }

  /** A second read while one is under way is refused and changes nothing. */
  lemma {:induction false} ConcurrentReadRefused<C>(p: Provider<C>, c: Cursor<C>, limit: int, aborted: bool)
    requires c.reading
    ensures Step(p, c, ReadBegin(limit, aborted)) == (c, Threw(ConcurrentRead))
  {
  }

  /** A read goes on from the head of its loop: it begins, or its wait was resolved. */
  predicate GoesOn<C>(p: Provider<C>, c: Cursor<C>, ev: Event) {
    match ev
    case ReadBegin(_, aborted) => !c.reading && !(p.flavour.Jj? && aborted)
    case ReadResume => c.suspended.Some? && c.suspended.value.wait.Resolved?
    case _ => false
  }

  predicate Aborted<C>(c: Cursor<C>, ev: Event)
    requires ev.ReadBegin? || (ev.ReadResume? && c.suspended.Some?)
  {
    if ev.ReadBegin? then ev.aborted else c.suspended.value.aborted
  }

  /**
   * A read that goes on once the stream has failed throws that very failure, whatever is queued, unless it was
   * aborted; an aborted read throws the abort; and no other read that goes on throws.
   */
  lemma {:induction false} ReadThrows<C>(p: Provider<C>, evs: seq<Event>, ev: Event)
    requires Enabled(Run(p, evs), ev) && GoesOn(p, Run(p, evs).c, ev)
    ensures var c := Run(p, evs).c;
            var out := Step(p, c, ev).1;
            && (c.failure.Some? ==>
                  out == if Aborted(c, ev) then Threw(ReadAborted) else Threw(StreamFailed(c.failure.value)))
            && (out.Threw? ==> Aborted(c, ev) || (c.failure.Some? && out.reason == StreamFailed(c.failure.value)))
            && (Aborted(c, ev) && !out.Parked? ==> out == Threw(ReadAborted))
  {
    RunKeeps(p, evs);
    var c := Run(p, evs).c;
    match ev
    case ReadBegin(limit, aborted) => LoopThrows(p, c.(reading := true), Target(p, limit), aborted);
    case ReadResume => LoopThrows(p, c.(suspended := None), c.suspended.value.target, c.suspended.value.aborted);
    case _ =>
  }

  lemma {:induction false} LoopThrows<C>(p: Provider<C>, c: Cursor<C>, target: int, aborted: bool)
    requires c.failure.Some? ==> c.completed
    ensures var out := Advance(p, c, target, aborted).1;
            && (c.failure.Some? ==> out == if aborted then Threw(ReadAborted) else Threw(StreamFailed(c.failure.value)))
            && (out.Threw? ==> aborted || (c.failure.Some? && out.reason == StreamFailed(c.failure.value)))
            && (aborted && !out.Parked? ==> out == Threw(ReadAborted))
  {
  }

  // ---- Which error a bad record brings ----

  /** The batch parser's error on more fields is its error on what follows the unfinished record. */
  lemma {:induction false} ErrorConcat<C>(
    p: Provider<C>, a: seq<string>, b: seq<string>, all: seq<string>, from: seq<string>)
    requires Clean(p, a) && all == a + b && from == Remainder(p.arity, a) + b && DecodeAll(p, from).Err?
    ensures DecodeAll(p, all) == DecodeAll(p, from)
    decreases |a|
  {
    if |a| < p.arity {
      assert all == from;
    } else {
      var record, rest := a[..p.arity], a[p.arity..];
      var all' := rest + b;
      assert a == record + rest && all == record + all';
      assert all[..p.arity] == record && all[p.arity..] == all';
      ErrorConcat(p, rest, b, all', from);
    }
  }

  /** The reassembler reports the error that the batch parser gives for the same fields. */
  lemma {:induction false} AbsorbError<C>(
    p: Provider<C>, queue: seq<C>, fields: seq<string>, incoming: seq<string>, all: seq<string>)
    requires |fields| < p.arity && all == fields + incoming && Absorb(p, queue, fields, incoming).error.Some?
    ensures DecodeAll(p, all) == Err(Absorb(p, queue, fields, incoming).error.value)
    decreases |incoming|
  {
    if incoming == [] {
    } else {
      var grown, rest := fields + [incoming[0]], incoming[1..];
      assert all == grown + rest;
      if |grown| != p.arity {
        AbsorbError(p, queue, grown, rest, all);
      } else {
        assert all[..p.arity] == grown && all[p.arity..] == rest;
        if p.decode(grown).Ok? {
          assert rest == [] + rest;
          AbsorbError(p, queue + [p.decode(grown).value], [], rest, rest);
        }
      }
    }
  }

  /** Consuming a text reports the error of the batch parser on all that was received. */
  lemma {:induction false} ConsumeError<C>(p: Provider<C>, w: World<C>, text: string)
    requires Accounted(p, w) && !w.down && Consume(p, w.c, text).1.Some?
    ensures DecodeAll(p, Terminated(w.received + text)) == Err(Consume(p, w.c, text).1.value)
  {
    var closed, incoming := Terminated(w.received), Terminated(w.c.buffered + text);
    ConsumeAccounted(p, w, text);
    TerminatedConcat(w.received, text);
    AbsorbError(p, w.c.queue, w.c.fields, incoming, w.c.fields + incoming);
    ErrorConcat(p, closed, incoming, closed + incoming, w.c.fields + incoming);
  }

  /**
   * Data that completes a record that does not parse: Git lets the batch parser's own error out of the handler;
   * Jujutsu ends its cursor with that error, tells the read that waited, and keeps what was queued.
   */
  lemma {:induction false} BadRecordEnds<C>(p: Provider<C>, evs: seq<Event>, text: string)
    requires Enabled(Run(p, evs), Data(text)) && Clean(p, Terminated(Run(p, evs).received))
    requires !Clean(p, Terminated(Run(p, evs).received + text))
    ensures var w, w' := Run(p, evs), Run(p, evs + [Data(text)]);
            var parsed := DecodeAll(p, Terminated(w.received + text));
            && parsed.Err?
            && (p.flavour.Git? ==> Step(p, w.c, Data(text)).1 == Uncaught(parsed.error))
            && (p.flavour.Jj? ==>
                  w'.c.completed && w'.c.failure == Some(Malformed(parsed.error)) && Told(w.c, w'.c, Resolved))
  {
    var w := Run(p, evs);
    RunKeeps(p, evs);
    RunNext(p, evs, Data(text));
    ConsumeAccounted(p, w, text);
    ConsumeError(p, w, text);
    BadDataIs(p, w.c, text);
  }

  lemma {:induction false} BadDataIs<C>(p: Provider<C>, c: Cursor<C>, text: string)
    requires Consume(p, c, text).1.Some? && NoLostWakeup(c)
    ensures var (c', out) := OnData(p, c, text);
            var error := Consume(p, c, text).1.value;
            && (p.flavour.Git? ==> out == Uncaught(error))
            && (p.flavour.Jj? ==> c'.completed && c'.failure == Some(Malformed(error)) && Told(c, c', Resolved))
  {
  }

  lemma {:induction false} AdvanceKeepsFailure<C>(p: Provider<C>, c: Cursor<C>, target: int, aborted: bool)
    ensures Advance(p, c, target, aborted).0.failure == c.failure
    ensures Advance(p, c, target, aborted).0.completed == c.completed
  {
  }

  lemma {:induction false} ReadKeepsFailure<C>(p: Provider<C>, c: Cursor<C>, ev: Event)
    requires ev.ReadBegin? || (ev.ReadResume? && c.suspended.Some? && !c.suspended.value.wait.Pending?)
    ensures Step(p, c, ev).0.failure == c.failure && Step(p, c, ev).0.completed == c.completed
  {
    match ev
    case ReadBegin(limit, aborted) => AdvanceKeepsFailure(p, c.(reading := true), Target(p, limit), aborted);
    case ReadResume =>
      AdvanceKeepsFailure(p, c.(suspended := None), c.suspended.value.target, c.suspended.value.aborted);
    case _ =>
  }

  /** Nothing but the process and its output ever changes the failure a cursor holds. */
  lemma {:induction false} ReadersNeverFail<C>(p: Provider<C>, evs: seq<Event>, ev: Event)
    requires Enabled(Run(p, evs), ev) && !ev.Data? && !ev.ProcessClose? && !ev.ProcessError?
    ensures var c, c' := Run(p, evs).c, Run(p, evs + [ev]).c;
            c'.failure == c.failure && c'.completed == c.completed
  {
    RunNext(p, evs, ev);
    if ev.ReadBegin? || ev.ReadResume? { ReadKeepsFailure(p, Run(p, evs).c, ev); }
  }

  // ---- When the producer is held back ----

  lemma {:induction false} ConsumeKeepsPaused<C>(p: Provider<C>, c: Cursor<C>, text: string)
    ensures Consume(p, c, text).0.paused == c.paused
  {
  }

  /** Data pauses its producer exactly when 512 commits or more are then queued, unless it brings the first bad record. */
  lemma {:induction false} DataPausesExactly<C>(p: Provider<C>, evs: seq<Event>, text: string)
    requires Enabled(Run(p, evs), Data(text))
    ensures var w, w' := Run(p, evs), Run(p, evs + [Data(text)]);
            var bad := Clean(p, Terminated(w.received)) && !Clean(p, Terminated(w.received + text));
            w'.c.paused <==> w.c.paused || (!bad && |w'.c.queue| >= 512)
  {
    RunKeeps(p, evs);
    RunNext(p, evs, Data(text));
    ConsumeAccounted(p, Run(p, evs), text);
    ConsumeKeepsPaused(p, Run(p, evs).c, text);
    DataPauses(p, Run(p, evs).c, text);
  }

  lemma {:induction false} DataPauses<C>(p: Provider<C>, c: Cursor<C>, text: string)
    ensures var (c1, error) := Consume(p, c, text);
            var c' := OnData(p, c, text).0;
            c'.queue == c1.queue && (c'.paused <==> c1.paused || (error.None? && |c1.queue| >= 512))
  {
    var consumed := Consume(p, c, text);
  }

  /** A page lets the producer flow again exactly when the stream lives and fewer than 256 commits are left. */
  lemma {:induction false} PageResumesExactly<C>(p: Provider<C>, c: Cursor<C>, ev: Event)
    requires GoesOn(p, c, ev)
    ensures var (c', out) := Step(p, c, ev);
            c'.paused <==> c.paused && !(out.Page? && !c.completed && !c.closed && |c'.queue| < 256)
  {
    match ev
    case ReadBegin(limit, aborted) => LoopResumes(p, c.(reading := true), Target(p, limit), aborted);
    case ReadResume => LoopResumes(p, c.(suspended := None), c.suspended.value.target, c.suspended.value.aborted);
    case _ =>
  }

  lemma {:induction false} LoopResumes<C>(p: Provider<C>, c: Cursor<C>, target: int, aborted: bool)
    ensures var (c', out) := Advance(p, c, target, aborted);
            c'.paused <==> c.paused && !(out.Page? && !c.completed && !c.closed && |c'.queue| < 256)
  {
  }
}
