/**
 * Who owns the inline editor: command handlers that open it across an await and then serve a session's mailbox,
 * against key presses, document reads, writes and mode exits in any order.
 */
module EditorProtocol {
  import opened Wrappers
  import opened Mailbox

  datatype Session = Session(file: nat, box: Mailbox)

  /** Where one run of the edit command stands; every phase but the last two awaits something. */
  datatype Handler =
    | Opening(file: nat)
    | Ready(session: nat)
    | Parked(session: nat)
    | Holding(session: nat, request: Request)
    | Writing(session: nat)
    | Crashed(session: nat)
    | Finished
  {
    function Holds(): Option<nat> {
      match this
      case Opening(_) => None
      case Finished => None
      case Ready(s) => Some(s)
      case Parked(s) => Some(s)
      case Holding(s, _) => Some(s)
      case Writing(s) => Some(s)
      case Crashed(s) => Some(s)
    }
  }

  /** The extension's closure state, the host's active mode for the view, and all command runs so far. */
  datatype World = World(
    opening: bool, openingFile: Option<nat>, edit: Option<nat>,
    sessions: seq<Session>, mode: Option<nat>, handlers: seq<Handler>)

  datatype Event =
    | CtrlE(selected: Option<nat>, canWrite: bool, enters: bool)
    | ReadSettles(handler: nat, readable: bool)
    | ReadThrows(handler: nat)
    | ModeEnters(file: nat)
    | ModeExits
    | SaveKey
    | Continue(handler: nat, dirty: bool)
    | WriteSettles(handler: nat)
    | WriteThrows(handler: nat)

  function Start(): World { World(false, None, None, [], None, []) }

  function Hand(handler: Handler, s: nat, request: Request): Handler {
    if handler == Parked(s) then Holding(s, request) else handler
  }

  /** Post to a session's mailbox; a handler parked on it is handed the request. */
  function Deliver(w: World, s: nat, request: Request): World
    requires s < |w.sessions|
  {
    var (box, handed) := Post(w.sessions[s].box, request);
    var handlers :=
      if handed.None? then w.handlers
      else seq(|w.handlers|, i requires 0 <= i < |w.handlers| => Hand(w.handlers[i], s, handed.value));
    w.(sessions := w.sessions[s := w.sessions[s].(box := box)], handlers := handlers)
  }

  /** `onExit`, as the host runs it whenever an active mode ends. */
  function ExitMode(w: World): World {
    if w.mode.None? then w
    else
      var ending := w.edit;
      var w1 := w.(mode := None, edit := None);
      if ending.Some? && ending.value < |w.sessions| then Deliver(w1, ending.value, End) else w1
  }

  /** The host activates the mode; `onEnter` leaves at once unless the file claimed the opening slot. */
  function EnterMode(w: World, file: nat): World {
    var entered := ExitMode(w).(mode := Some(file));
    if w.openingFile != Some(file) then ExitMode(entered) else entered
  }

  /** The command up to its first await. */
  function Command(w: World, selected: Option<nat>, canWrite: bool, enters: bool): World {
    if selected.None? || w.opening || w.edit.Some? then w.(handlers := w.handlers + [Finished])
    else
      var file := selected.value;
      if !canWrite || !enters then w.(handlers := w.handlers + [Finished])
      else
        var claimed := w.(opening := true, openingFile := Some(file));
        var entered := EnterMode(claimed, file);
        entered.(handlers := entered.handlers + [Opening(file)])
  }

  /** `beginEditSession` after its read, up to the handler's own continuation. */
  function Opened(w: World, h: nat, readable: bool): World
    requires h < |w.handlers| && w.handlers[h].Opening?
  {
    var released := w.(opening := false, openingFile := None);
    if w.mode.None? then released.(handlers := w.handlers[h := Finished])
    else if !readable then
      var exited := ExitMode(released);
      if h < |exited.handlers| then exited.(handlers := exited.handlers[h := Finished]) else exited
    else
      var s := |w.sessions|;
      released.(sessions := w.sessions + [Session(w.handlers[h].file, EMPTY)], edit := Some(s),
                handlers := w.handlers[h := Ready(s)])
  }

  /** Asking the session's mailbox, a run parks or takes a request. */
  function Asked(w: World, h: nat, s: nat): World
    requires h < |w.handlers| && s < |w.sessions|
  {
    var (box, answer) := Next(w.sessions[s].box);
    w.(sessions := w.sessions[s := w.sessions[s].(box := box)],
       handlers := w.handlers[h := if answer.None? then Parked(s) else Holding(s, answer.value)])
  }

  /** One turn of the request loop. */
  function Turn(w: World, h: nat, dirty: bool): World
    requires h < |w.handlers|
  {
    match w.handlers[h]
    case Ready(s) =>
      if s >= |w.sessions| then w
      else Asked(w, h, s)
    case Holding(s, request) =>
      w.(handlers := w.handlers[h := if request.End? then Finished else if dirty then Writing(s) else Ready(s)])
    case _ => w
  }

  function Step(w: World, ev: Event): World {
    match ev
    case CtrlE(selected, canWrite, enters) => Command(w, selected, canWrite, enters)
    case ReadSettles(h, readable) =>
      if h < |w.handlers| && w.handlers[h].Opening? then Opened(w, h, readable) else w
    case ReadThrows(h) =>
      if h < |w.handlers| && w.handlers[h].Opening?
      then w.(opening := false, openingFile := None, handlers := w.handlers[h := Finished]) else w
    case ModeEnters(file) => EnterMode(w, file)
    case ModeExits => ExitMode(w)
    case SaveKey =>
      // The mode is told its own file; the session answers only for the file it edits.
      if w.mode.Some? && w.edit.Some? && w.edit.value < |w.sessions| && w.sessions[w.edit.value].file == w.mode.value
      then Deliver(w, w.edit.value, Save) else w
    case Continue(h, dirty) => if h < |w.handlers| then Turn(w, h, dirty) else w
    case WriteSettles(h) =>
      if h < |w.handlers| && w.handlers[h].Writing? then w.(handlers := w.handlers[h := Ready(w.handlers[h].session)]) else w
    case WriteThrows(h) =>
      if h < |w.handlers| && w.handlers[h].Writing? then w.(handlers := w.handlers[h := Crashed(w.handlers[h].session)]) else w
  }

  function Run(evs: seq<Event>): World {
    if evs == [] then Start() else Step(Run(evs[..|evs| - 1]), evs[|evs| - 1])
  }

  // ---- Invariants ----

  /** The opening slot has one owner, and no session is live while it is held. */
  ghost predicate Slot(w: World) {
    && (forall h, k | 0 <= h < |w.handlers| && 0 <= k < |w.handlers| && w.handlers[h].Opening? && w.handlers[k].Opening? ::
          h == k)
    && (forall h | 0 <= h < |w.handlers| && w.handlers[h].Opening? ::
          w.opening && w.openingFile == Some(w.handlers[h].file) && w.edit.None?)
    && (w.opening <==> w.openingFile.Some?)
    && (w.opening ==> exists h | 0 <= h < |w.handlers| :: w.handlers[h].Opening?)
    && (w.opening && w.mode.Some? ==> w.mode == w.openingFile)
  }

  /** The live session is the one session that has not ended, and the mode is active on its file. */
  ghost predicate Live(w: World) {
    && (w.edit.Some? ==> w.edit.value < |w.sessions| && w.mode == Some(w.sessions[w.edit.value].file))
    && (forall s | 0 <= s < |w.sessions| :: !w.sessions[s].box.ended <==> w.edit == Some(s))
    && (forall s | 0 <= s < |w.sessions| :: Settled(w.sessions[s].box))
  }

  /** A handler is parked exactly when its mailbox says so, and is told to end only once the session has. */
  ghost predicate Fits(sessions: seq<Session>, handler: Handler) {
    handler.Holds().Some? ==>
      var s := handler.Holds().value;
      && s < |sessions|
      && (handler.Parked? <==> sessions[s].box.pending)
      && (handler == Holding(s, End) ==> sessions[s].box.ended)
  }

  /** No session has two handlers. */
  ghost predicate Distinct(handlers: seq<Handler>) {
    forall h, k | 0 <= h < k < |handlers| && handlers[h].Holds().Some? :: handlers[h].Holds() != handlers[k].Holds()
  }

  /** The live session has a handler. */
  ghost predicate Served(w: World) {
    w.edit.Some? ==> exists h | 0 <= h < |w.handlers| :: w.handlers[h].Holds() == w.edit
  }

  ghost predicate Held(w: World) {
    (forall h | 0 <= h < |w.handlers| :: Fits(w.sessions, w.handlers[h])) && Distinct(w.handlers) && Served(w)
  }

  ghost predicate Inv(w: World) { Slot(w) && Live(w) && Held(w) }

  /** Handlers that hold what they held are still one to a session, and the live one still has its own. */
  lemma {:induction false} SameHolds(w: World, w': World)
    requires Held(w) && |w.handlers| <= |w'.handlers| && w'.edit == w.edit
    requires forall h | 0 <= h < |w.handlers| :: w'.handlers[h].Holds() == w.handlers[h].Holds()
    requires forall h | |w.handlers| <= h < |w'.handlers| :: w'.handlers[h].Holds().None?
    ensures Distinct(w'.handlers) && Served(w')
  {
  }

  /** The opening slot does not notice changes to other runs. */
  lemma {:induction false} SameOpeners(w: World, w': World)
    requires Slot(w) && |w.handlers| <= |w'.handlers|
    requires w'.opening == w.opening && w'.openingFile == w.openingFile && w'.edit == w.edit
    requires w'.mode == w.mode || w'.mode.None?
    requires forall h | 0 <= h < |w.handlers| ::
               (w'.handlers[h].Opening? <==> w.handlers[h].Opening?) && (w.handlers[h].Opening? ==> w'.handlers[h] == w.handlers[h])
    requires forall h | |w.handlers| <= h < |w'.handlers| :: !w'.handlers[h].Opening?
    ensures Slot(w')
  {
  }

  lemma {:induction false} DeliverFits(w: World, s: nat, request: Request, h: nat)
    requires s < |w.sessions| && Held(w) && Settled(w.sessions[s].box) && h < |w.handlers|
    ensures |Deliver(w, s, request).handlers| == |w.handlers|
    ensures Fits(Deliver(w, s, request).sessions, Deliver(w, s, request).handlers[h])
    ensures Deliver(w, s, request).handlers[h] in {w.handlers[h], Hand(w.handlers[h], s, request)}
  {
  }

  lemma {:induction false} DeliverKeeps(w: World, s: nat, request: Request)
    requires Slot(w) && Held(w) && s < |w.sessions| && Settled(w.sessions[s].box)
    ensures var w' := Deliver(w, s, request);
            Slot(w') && Held(w') && |w'.handlers| == |w.handlers|
  {
    var w' := Deliver(w, s, request);
    forall h | 0 <= h < |w.handlers| ensures
        && Fits(w'.sessions, w'.handlers[h]) && w'.handlers[h].Holds() == w.handlers[h].Holds()
        && (w'.handlers[h].Opening? <==> w.handlers[h].Opening?)
        && (w.handlers[h].Opening? ==> w'.handlers[h] == w.handlers[h])
    {
      DeliverFits(w, s, request, h);
    }
    SameHolds(w, w');
    SameOpeners(w, w');
  }

  lemma {:induction false} ExitKeeps(w: World)
    requires Inv(w)
    ensures Inv(ExitMode(w)) && ExitMode(w).mode.None? && ExitMode(w).edit.None?
    ensures ExitMode(w).opening == w.opening && ExitMode(w).openingFile == w.openingFile
    ensures |ExitMode(w).handlers| == |w.handlers|
    ensures w.edit.None? ==> ExitMode(w) == w.(mode := None)
  {
    var w1 := w.(mode := None, edit := None);
    if w.mode.Some? && w.edit.Some? {
      assert Slot(w1) && Held(w1);
      DeliverKeeps(w1, w.edit.value, End);
    }
  }

  lemma {:induction false} EnterKeeps(w: World, file: nat)
    requires Inv(w)
    ensures Inv(EnterMode(w, file))
  {
    ExitKeeps(w);
    var exited := ExitMode(w);
    if w.openingFile == Some(file) {
      assert Held(exited.(mode := Some(file)));
    } else {
      assert EnterMode(w, file) == exited;
    }
  }

  /** One run moves on, keeping its session or letting it go once it is over. */
  lemma {:induction false} MoveKeeps(w: World, h: nat, next: Handler)
    requires Inv(w) && h < |w.handlers| && !w.handlers[h].Opening? && !next.Opening? && Fits(w.sessions, next)
    requires next.Holds() == w.handlers[h].Holds() || (next.Holds().None? && w.handlers[h].Holds() != w.edit)
    ensures Inv(w.(handlers := w.handlers[h := next]))
  {
    var w' := w.(handlers := w.handlers[h := next]);
    SameOpeners(w, w');
    if w.edit.Some? {
      var k :| 0 <= k < |w.handlers| && w.handlers[k].Holds() == w.edit;
      assert w'.handlers[k].Holds() == w'.edit;
    }
  }

  lemma {:induction false} ReleaseKeeps(w: World, h: nat)
    requires Inv(w) && h < |w.handlers| && w.handlers[h].Opening?
    ensures Inv(w.(opening := false, openingFile := None, handlers := w.handlers[h := Finished]))
  {
  }

  lemma {:induction false} CommandKeeps(w: World, selected: Option<nat>, canWrite: bool, enters: bool)
    requires Inv(w)
    ensures Inv(Command(w, selected, canWrite, enters))
  {
    var w' := Command(w, selected, canWrite, enters);
    if selected.None? || w.opening || w.edit.Some? || !canWrite || !enters {
      SameHolds(w, w');
      SameOpeners(w, w');
    } else {
      ClaimKeeps(w, selected.value);
      assert w' == Claimed(w, selected.value);
    }
  }

  /** The world in which a command has claimed the slot and entered the mode. */
  function Claimed(w: World, file: nat): World {
    World(true, Some(file), None, w.sessions, Some(file), w.handlers + [Opening(file)])
  }

  lemma {:induction false} ClaimKeeps(w: World, file: nat)
    requires Inv(w) && !w.opening && w.edit.None?
    ensures Inv(Claimed(w, file))
  {
    var w' := Claimed(w, file);
    SameHolds(w, w');
    assert w'.handlers[|w.handlers|].Opening?;
    assert Slot(w');
  }

  lemma {:induction false} OpenedKeeps(w: World, h: nat, readable: bool)
    requires Inv(w) && h < |w.handlers| && w.handlers[h].Opening?
    ensures Inv(Opened(w, h, readable))
  {
    ReleaseKeeps(w, h);
    var w' := Opened(w, h, readable);
    var released := w.(opening := false, openingFile := None, handlers := w.handlers[h := Finished]);
    if w.mode.Some? && readable {
      BindKeeps(w, released, h);
    } else if w.mode.Some? {
      ExitKeeps(released);
      assert w' == released.(mode := None);
    }
  }

  /** A handler whose read arrived in time takes the new session. */
  lemma {:induction false} BindKeeps(w: World, released: World, h: nat)
    requires Inv(w) && h < |w.handlers| && w.handlers[h].Opening? && w.mode.Some? && Inv(released)
    requires released == w.(opening := false, openingFile := None, handlers := w.handlers[h := Finished])
    ensures Inv(Opened(w, h, true))
  {
    var w' := Opened(w, h, true);
    var s := |w.sessions|;
    assert w'.handlers[h].Holds() == w'.edit;
    forall k | 0 <= k < |w'.handlers| ensures Fits(w'.sessions, w'.handlers[k]) {
      assert Fits(released.sessions, released.handlers[k]);
    }
    forall k, l | 0 <= k < l < |w'.handlers| && w'.handlers[k].Holds().Some?
      ensures w'.handlers[k].Holds() != w'.handlers[l].Holds()
    {
      assert Fits(released.sessions, released.handlers[k]) && Fits(released.sessions, released.handlers[l]);
      assert released.handlers[k].Holds().Some? ==> released.handlers[k].Holds() != released.handlers[l].Holds();
    }
    assert Live(w');
  }

  lemma {:induction false} TurnKeeps(w: World, h: nat, dirty: bool)
    requires Inv(w) && h < |w.handlers|
    ensures Inv(Turn(w, h, dirty))
  {
    assert Fits(w.sessions, w.handlers[h]);
    match w.handlers[h]
    case Ready(s) => NextKeeps(w, h, s);
    case Holding(s, request) =>
      MoveKeeps(w, h, if request.End? then Finished else if dirty then Writing(s) else Ready(s));
    case _ =>
  }

  lemma {:induction false} AskedFits(w: World, h: nat, s: nat, k: nat)
    requires Held(w) && Live(w) && h < |w.handlers| && w.handlers[h] == Ready(s) && s < |w.sessions|
    requires k < |w.handlers|
    ensures Fits(Asked(w, h, s).sessions, Asked(w, h, s).handlers[k])
  {
    assert Fits(w.sessions, w.handlers[k]) && Fits(w.sessions, w.handlers[h]);
    assert k != h ==> w.handlers[k].Holds() != Some(s);
  }

  lemma {:induction false} NextKeeps(w: World, h: nat, s: nat)
    requires Inv(w) && h < |w.handlers| && w.handlers[h] == Ready(s)
    ensures Inv(Turn(w, h, false)) && Turn(w, h, true) == Turn(w, h, false)
  {
    assert Fits(w.sessions, w.handlers[h]);
    var w' := Asked(w, h, s);
    forall k | 0 <= k < |w'.handlers| ensures Fits(w'.sessions, w'.handlers[k]) { AskedFits(w, h, s, k); }
    SameHolds(w, w');
    SameOpeners(w, w');
  }

  lemma {:induction false} SaveKeeps(w: World, s: nat)
    requires Inv(w) && s < |w.sessions|
    ensures Inv(Deliver(w, s, Save))
  {
    DeliverKeeps(w, s, Save);
  }

  lemma {:induction false} WriteKeeps(w: World, h: nat, next: Handler)
    requires Inv(w) && h < |w.handlers| && w.handlers[h].Writing?
    requires next == Ready(w.handlers[h].session) || next == Crashed(w.handlers[h].session)
    ensures Inv(w.(handlers := w.handlers[h := next]))
  {
    assert Fits(w.sessions, w.handlers[h]);
    MoveKeeps(w, h, next);
  }

  lemma {:induction false} StepKeeps(w: World, ev: Event)
    requires Inv(w)
    ensures Inv(Step(w, ev))
  {
    match ev
    case CtrlE(selected, canWrite, enters) => CommandKeeps(w, selected, canWrite, enters);
    case ReadSettles(h, readable) =>
      if h < |w.handlers| && w.handlers[h].Opening? { OpenedKeeps(w, h, readable); }
    case ReadThrows(h) =>
      if h < |w.handlers| && w.handlers[h].Opening? { ReleaseKeeps(w, h); }
    case ModeEnters(file) => EnterKeeps(w, file);
    case ModeExits => ExitKeeps(w);
    case SaveKey =>
      if w.edit.Some? { SaveKeeps(w, w.edit.value); }
    case Continue(h, dirty) =>
      if h < |w.handlers| { TurnKeeps(w, h, dirty); }
    case WriteSettles(h) =>
      if h < |w.handlers| && w.handlers[h].Writing? { WriteKeeps(w, h, Ready(w.handlers[h].session)); }
    case WriteThrows(h) =>
      if h < |w.handlers| && w.handlers[h].Writing? { WriteKeeps(w, h, Crashed(w.handlers[h].session)); }
  }

  lemma {:induction false} RunKeeps(evs: seq<Event>)
    ensures Inv(Run(evs))
  {
    if evs == [] {
    } else {
      RunKeeps(evs[..|evs| - 1]);
      StepKeeps(Run(evs[..|evs| - 1]), evs[|evs| - 1]);
    }
  }

  // ---- What every interleaving keeps ----

  /** The session a run holds has not ended. */
  predicate HoldsOpen(w: World, handler: Handler) {
    handler.Holds().Some? && handler.Holds().value < |w.sessions| && !w.sessions[handler.Holds().value].box.ended
  }

  /**
   * At most one command run holds a session that has not ended, and that is the live session; a run parked on a
   * mailbox always holds it, with the mode active on its file, so its keys still reach it.
   */
  lemma {:induction false} NoHandlerIsOrphaned(evs: seq<Event>)
    ensures var w := Run(evs);
            && (forall h, k | 0 <= h < k < |w.handlers| :: !(HoldsOpen(w, w.handlers[h]) && HoldsOpen(w, w.handlers[k])))
            && (forall h | 0 <= h < |w.handlers| :: HoldsOpen(w, w.handlers[h]) <==> w.edit.Some? && w.handlers[h].Holds() == w.edit)
            && (forall h | 0 <= h < |w.handlers| && w.handlers[h].Parked? ::
                  HoldsOpen(w, w.handlers[h]) && w.mode == Some(w.sessions[w.handlers[h].session].file))
  {
    var w := Run(evs);
    RunKeeps(evs);
    forall h | 0 <= h < |w.handlers|
      ensures HoldsOpen(w, w.handlers[h]) <==> w.edit.Some? && w.handlers[h].Holds() == w.edit
      ensures w.handlers[h].Parked? ==> HoldsOpen(w, w.handlers[h]) && w.mode == Some(w.sessions[w.handlers[h].session].file)
    {
      assert Fits(w.sessions, w.handlers[h]);
    }
  }

  /** A new session appears only when the one opening run's read arrives with the mode still active on its file. */
  lemma {:induction false} OneOpener(evs: seq<Event>, ev: Event)
    ensures var w, w' := Run(evs), Step(Run(evs), ev);
            && (w.opening ==> w.edit.None?)
            && (|w'.sessions| != |w.sessions| ==>
                  ev.ReadSettles? && w.opening && w.mode == w.openingFile && w'.edit == Some(|w.sessions|))
            && (w'.edit.Some? && w'.edit != w.edit ==> w.edit.None?)
  {
    var w := Run(evs);
    RunKeeps(evs);
    if ev.CtrlE? || ev.ModeEnters? || ev.ModeExits? || ev.ReadSettles? { ExitKeeps(w); }
  }

  /** How many of its own turns a run holding an ended session still needs. */
  function TurnsLeft(handler: Handler): nat {
    match handler
    case Holding(_, Save) => 4
    case Writing(_) => 3
    case Ready(_) => 2
    case Holding(_, End) => 1
    case _ => 0
  }

  /** The events that are a run's own turns. */
  predicate OwnTurn(w: World, h: nat, ev: Event)
    requires h < |w.handlers|
  {
    match w.handlers[h]
    case Writing(_) => ev == WriteSettles(h) || ev == WriteThrows(h)
    case Ready(_) => ev.Continue? && ev.handler == h
    case Holding(_, _) => ev.Continue? && ev.handler == h
    case _ => false
  }

  /** The run has let its session go, or still holds one that has ended. */
  ghost predicate Draining(w: World, h: nat) {
    h < |w.handlers| &&
    (w.handlers[h].Finished? || (w.handlers[h].Holds().Some? && !HoldsOpen(w, w.handlers[h])))
  }

  /** A session that has ended stays so. */
  lemma {:induction false} EndStays(w: World, ev: Event, s: nat)
    requires s < |w.sessions| && w.sessions[s].box.ended
    ensures s < |Step(w, ev).sessions| && Step(w, ev).sessions[s].box.ended
  {
  }

  /** Its own turns bring a draining run nearer its end, and nothing else moves it. */
  lemma {:induction false} DrainStep(w: World, h: nat, ev: Event)
    requires Inv(w) && Draining(w, h)
    ensures Draining(Step(w, ev), h)
    ensures TurnsLeft(Step(w, ev).handlers[h]) + (if OwnTurn(w, h, ev) then 1 else 0) <= TurnsLeft(w.handlers[h])
  {
    assert Fits(w.sessions, w.handlers[h]);
    if w.handlers[h].Finished? {
      FinishedStays(w, h, ev);
    } else {
      var s := w.handlers[h].Holds().value;
      EndStays(w, ev, s);
      if OwnTurn(w, h, ev) {
        OwnTurnDrains(w, h, ev);
      } else {
        OthersLeave(w, h, ev);
      }
    }
  }

  /** How many of the events after a run's first `n` are turns of its own. */
  function OwnTurns(evs: seq<Event>, n: nat, h: nat): nat
    requires n <= |evs|
  {
    if |evs| == n then 0
    else
      var init, ev := evs[..|evs| - 1], evs[|evs| - 1];
      OwnTurns(init, n, h) + (if h < |Run(init).handlers| && OwnTurn(Run(init), h, ev) then 1 else 0)
  }

  /**
   * Once its session has ended, a command run takes at most four more turns of its own, whatever else happens; after
   * four it has finished, unless a write threw.
   */
  lemma {:induction false} EndedHandlerDrains(evs: seq<Event>, n: nat, h: nat)
    requires n <= |evs| && Draining(Run(evs[..n]), h)
    ensures Draining(Run(evs), h)
    ensures OwnTurns(evs, n, h) + TurnsLeft(Run(evs).handlers[h]) <= TurnsLeft(Run(evs[..n]).handlers[h]) <= 4
    ensures OwnTurns(evs, n, h) >= 4 ==> Run(evs).handlers[h].Finished? || Run(evs).handlers[h].Crashed?
    decreases |evs|
  {
    var w := Run(evs);
    if |evs| == n {
      assert evs[..n] == evs;
    } else {
      var init, ev := evs[..|evs| - 1], evs[|evs| - 1];
      assert init[..n] == evs[..n];
      EndedHandlerDrains(init, n, h);
      RunKeeps(init);
      DrainStep(Run(init), h, ev);
    }
    RunKeeps(evs);
    NoneLeft(w, h);
  }

  lemma {:induction false} NoneLeft(w: World, h: nat)
    requires Inv(w) && Draining(w, h)
    ensures TurnsLeft(w.handlers[h]) == 0 <==> w.handlers[h].Finished? || w.handlers[h].Crashed?
  {
    assert Fits(w.sessions, w.handlers[h]);
  }

  lemma {:induction false} OwnTurnDrains(w: World, h: nat, ev: Event)
    requires Inv(w) && Draining(w, h) && OwnTurn(w, h, ev)
    ensures h < |Step(w, ev).handlers| && TurnsLeft(Step(w, ev).handlers[h]) < TurnsLeft(w.handlers[h])
    ensures Step(w, ev).handlers[h].Finished? || Step(w, ev).handlers[h].Holds() == w.handlers[h].Holds()
  {
    assert Fits(w.sessions, w.handlers[h]);
  }

  lemma {:induction false} FinishedStays(w: World, h: nat, ev: Event)
    requires h < |w.handlers| && w.handlers[h].Finished?
    ensures h < |Step(w, ev).handlers| && Step(w, ev).handlers[h].Finished?
  {
    OthersLeave(w, h, ev);
  }

  lemma {:induction false} DeliverLeaves(w: World, s: nat, request: Request, h: nat)
    requires s < |w.sessions| && h < |w.handlers| && !w.handlers[h].Parked?
    ensures |Deliver(w, s, request).handlers| == |w.handlers| && Deliver(w, s, request).handlers[h] == w.handlers[h]
  {
  }

  lemma {:induction false} TurnLeaves(w: World, k: nat, dirty: bool, h: nat)
    requires k < |w.handlers| && h < |w.handlers| && k != h
    ensures h < |Turn(w, k, dirty).handlers| && Turn(w, k, dirty).handlers[h] == w.handlers[h]
  {
  }

  /** A run that is past opening and not parked moves only in its own turns. */
  lemma {:induction false} OthersLeave(w: World, h: nat, ev: Event)
    requires h < |w.handlers| && !OwnTurn(w, h, ev)
    requires !w.handlers[h].Opening? && !w.handlers[h].Parked?
    ensures h < |Step(w, ev).handlers| && Step(w, ev).handlers[h] == w.handlers[h]
  {
    match ev
    case CtrlE(selected, _, _) =>
      if selected.Some? { EnterLeaves(w.(opening := true, openingFile := selected), selected.value, h); }
    case ModeEnters(file) => EnterLeaves(w, file, h);
    case ModeExits => ExitLeaves(w, h);
    case ReadSettles(k, _) =>
      if k < |w.handlers| && w.handlers[k].Opening? { ExitLeaves(w.(opening := false, openingFile := None), h); }
    case SaveKey => if w.edit.Some? && w.edit.value < |w.sessions| { DeliverLeaves(w, w.edit.value, Save, h); }
    case Continue(k, dirty) => if k < |w.handlers| && k != h { TurnLeaves(w, k, dirty, h); }
    case _ =>
  }

  /** Leaving the mode does not touch a run that is not parked. */
  lemma {:induction false} ExitLeaves(w: World, h: nat)
    requires h < |w.handlers| && !w.handlers[h].Parked?
    ensures |ExitMode(w).handlers| == |w.handlers| && ExitMode(w).handlers[h] == w.handlers[h]
  {
  }

  lemma {:induction false} EnterLeaves(w: World, file: nat, h: nat)
    requires h < |w.handlers| && !w.handlers[h].Parked?
    ensures |EnterMode(w, file).handlers| == |w.handlers| && EnterMode(w, file).handlers[h] == w.handlers[h]
  {
    ExitLeaves(w, h);
    ExitLeaves(ExitMode(w).(mode := Some(file)), h);
  }

  // ---- Sessions whose write threw ----

  /** At some point of the run the write of the session threw. */
  ghost predicate WriteThrew(evs: seq<Event>, s: nat) {
    evs != [] &&
    var init, ev := evs[..|evs| - 1], evs[|evs| - 1];
    WriteThrew(init, s) ||
    (ev.WriteThrows? && ev.handler < |Run(init).handlers| && Run(init).handlers[ev.handler] == Writing(s))
  }

  lemma {:induction false} ExitSize(w: World)
    ensures |ExitMode(w).handlers| == |w.handlers|
  {
  }

  lemma {:induction false} EnterSize(w: World, file: nat)
    ensures |EnterMode(w, file).handlers| == |w.handlers|
  {
    ExitSize(w);
    ExitSize(ExitMode(w).(mode := Some(file)));
  }

  /** Leaving or entering the mode only hands requests to parked runs. */
  lemma {:induction false} ExitMoves(w: World, h: nat)
    requires h < |w.handlers|
    ensures |ExitMode(w).handlers| == |w.handlers|
    ensures ExitMode(w).handlers[h] == w.handlers[h] || !ExitMode(w).handlers[h].Crashed?
  {
  }

  lemma {:induction false} EnterMoves(w: World, file: nat, h: nat)
    requires h < |w.handlers|
    ensures |EnterMode(w, file).handlers| == |w.handlers|
    ensures EnterMode(w, file).handlers[h] == w.handlers[h] || !EnterMode(w, file).handlers[h].Crashed?
  {
    ExitMoves(w, h);
    ExitMoves(ExitMode(w).(mode := Some(file)), h);
  }

  lemma {:induction false} DeliverMoves(w: World, s: nat, request: Request, h: nat)
    requires s < |w.sessions| && h < |w.handlers|
    ensures |Deliver(w, s, request).handlers| == |w.handlers|
    ensures Deliver(w, s, request).handlers[h] == w.handlers[h] || !Deliver(w, s, request).handlers[h].Crashed?
  {
  }

  /** No command, opening or key leaves a crashed run that was not one before. */
  lemma {:induction false} OpeningCrashesNone(w: World, h: nat, ev: Event)
    requires ev.CtrlE? || ev.ReadSettles? || ev.SaveKey?
    requires h < |Step(w, ev).handlers| && Step(w, ev).handlers[h].Crashed?
    ensures h < |w.handlers| && Step(w, ev).handlers[h] == w.handlers[h]
  {
    if h < |w.handlers| {
      match ev
      case CtrlE(selected, _, _) =>
        if selected.Some? { EnterMoves(w.(opening := true, openingFile := selected), selected.value, h); }
      case ReadSettles(_, _) => ExitMoves(w.(opening := false, openingFile := None), h);
      case SaveKey => if w.edit.Some? && w.edit.value < |w.sessions| { DeliverMoves(w, w.edit.value, Save, h); }
    }
  }

  lemma {:induction false} TurnCrashesNone(w: World, k: nat, dirty: bool, h: nat)
    requires k < |w.handlers| && h < |Turn(w, k, dirty).handlers| && Turn(w, k, dirty).handlers[h].Crashed?
    ensures h < |w.handlers| && Turn(w, k, dirty).handlers[h] == w.handlers[h]
  {
  }

  /** A run crashes only when its own write throws. */
  lemma {:induction false} CrashComes(w: World, h: nat, ev: Event)
    requires h < |Step(w, ev).handlers| && Step(w, ev).handlers[h].Crashed?
    ensures h < |w.handlers|
    ensures Step(w, ev).handlers[h] == w.handlers[h]
            || (ev == WriteThrows(h) && w.handlers[h] == Writing(Step(w, ev).handlers[h].session))
  {
    match ev
    case CtrlE(_, _, _) => OpeningCrashesNone(w, h, ev);
    case ReadSettles(_, _) => OpeningCrashesNone(w, h, ev);
    case SaveKey => OpeningCrashesNone(w, h, ev);
    case Continue(k, dirty) => if k < |w.handlers| { TurnCrashesNone(w, k, dirty, h); }
    case ModeEnters(file) => if h < |w.handlers| { EnterMoves(w, file, h); } else { EnterSize(w, file); }
    case ModeExits => if h < |w.handlers| { ExitMoves(w, h); } else { ExitSize(w); }
    case _ =>
  }

  ghost predicate HasCrashed(w: World, s: nat) {
    exists h | 0 <= h < |w.handlers| :: w.handlers[h] == Crashed(s)
  }

  /** A session has a crashed run exactly when its write threw. */
  lemma {:induction false} CrashedExactly(evs: seq<Event>, s: nat)
    ensures HasCrashed(Run(evs), s) <==> WriteThrew(evs, s)
  {
    if evs == [] {
    } else {
      var init, ev := evs[..|evs| - 1], evs[|evs| - 1];
      var w, w' := Run(init), Run(evs);
      CrashedExactly(init, s);
      RunKeeps(init);
      if h :| 0 <= h < |w.handlers| && w.handlers[h] == Crashed(s) {
        OthersLeave(w, h, ev);
        assert w'.handlers[h] == Crashed(s);
      }
      if h :| 0 <= h < |w'.handlers| && w'.handlers[h] == Crashed(s) { CrashComes(w, h, ev); }
      if ev.WriteThrows? && ev.handler < |w.handlers| && w.handlers[ev.handler] == Writing(s) {
        assert w'.handlers[ev.handler] == Crashed(s);
      }
    }
  }

  /** The run is at work on the session: it asks for a request, waits for one, has one, or writes. */
  predicate Serves(handler: Handler, s: nat) { handler.Holds() == Some(s) && !handler.Crashed? }

  /** The live session has a run at work on it exactly when its own write has not thrown. */
  lemma {:induction false} LiveIsServedExactly(evs: seq<Event>)
    ensures var w := Run(evs);
            w.edit.Some? ==>
              ((exists h | 0 <= h < |w.handlers| :: Serves(w.handlers[h], w.edit.value))
               <==> !WriteThrew(evs, w.edit.value))
  {
    var w := Run(evs);
    RunKeeps(evs);
    if w.edit.Some? {
      CrashedExactly(evs, w.edit.value);
      var h :| 0 <= h < |w.handlers| && w.handlers[h].Holds() == w.edit;
      forall k | 0 <= k < |w.handlers| && w.handlers[k].Holds() == w.edit ensures k == h {
        OneHolder(w, h, k);
      }
      assert w.handlers[h] == Crashed(w.edit.value) || Serves(w.handlers[h], w.edit.value);
    }
  }

  lemma {:induction false} OneHolder(w: World, h: nat, k: nat)
    requires Distinct(w.handlers) && h < |w.handlers| && k < |w.handlers|
    requires w.handlers[h].Holds().Some? && w.handlers[h].Holds() == w.handlers[k].Holds()
    ensures h == k
  {
  }

  /** While no write throws, a live session always has a run at work on it. */
  lemma {:induction false} LiveIsServed(evs: seq<Event>)
    requires forall ev <- evs :: !ev.WriteThrows?
    ensures var w := Run(evs);
            w.edit.Some? ==> exists h | 0 <= h < |w.handlers| :: Serves(w.handlers[h], w.edit.value)
  {
    LiveIsServedExactly(evs);
    var w := Run(evs);
    if w.edit.Some? { NoneThrew(evs, w.edit.value); }
  }

  lemma {:induction false} NoneThrew(evs: seq<Event>, s: nat)
    requires forall ev <- evs :: !ev.WriteThrows?
    ensures !WriteThrew(evs, s)
  {
    if evs == [] {
    } else {
      assert evs[|evs| - 1] in evs && forall ev <- evs[..|evs| - 1] :: ev in evs;
      NoneThrew(evs[..|evs| - 1], s);
    }
  }

  /** One session open on its file, and the one run that serves it. */
  function Editing(file: nat, box: Mailbox, handler: Handler): World {
    World(false, None, Some(0), [Session(file, box)], Some(file), [handler])
  }

  lemma {:induction false} RunNext(evs: seq<Event>, ev: Event, w: World)
    requires Step(Run(evs), ev) == w
    ensures Run(evs + [ev]) == w
  {
    assert (evs + [ev])[..|evs|] == evs;
  }

  lemma {:induction false} OpenedRun(file: nat)
    ensures Run([CtrlE(Some(file), true, true), ReadSettles(0, true)]) == Editing(file, EMPTY, Ready(0))
  {
    var open := CtrlE(Some(file), true, true);
    RunNext([], open, World(true, Some(file), None, [], Some(file), [Opening(file)]));
    assert [] + [open] == [open] && [open] + [ReadSettles(0, true)] == [open, ReadSettles(0, true)];
    RunNext([open], ReadSettles(0, true), Editing(file, EMPTY, Ready(0)));
  }

  /** A run that is asking comes to its write when the save key is pressed on edited text. */
  lemma {:induction false} SavingRun(evs: seq<Event>, file: nat)
    requires Run(evs) == Editing(file, EMPTY, Ready(0))
    ensures Run(evs + [Continue(0, false)] + [SaveKey] + [Continue(0, true)]) == Editing(file, EMPTY, Writing(0))
  {
    RunNext(evs, Continue(0, false), Editing(file, Next(EMPTY).0, Parked(0)));
    RunNext(evs + [Continue(0, false)], SaveKey, Editing(file, EMPTY, Holding(0, Save)));
    RunNext(evs + [Continue(0, false)] + [SaveKey], Continue(0, true), Editing(file, EMPTY, Writing(0)));
  }

  /** Were a write to throw, which the host's contract rules out, the session would stay live with no run at work. */
  lemma {:induction false} ThrownWriteStrands(file: nat)
    ensures var w := Run([CtrlE(Some(file), true, true), ReadSettles(0, true), Continue(0, false), SaveKey,
                          Continue(0, true), WriteThrows(0)]);
            w.edit == Some(0) && forall h | 0 <= h < |w.handlers| :: !Serves(w.handlers[h], 0)
  {
    var begun := [CtrlE(Some(file), true, true), ReadSettles(0, true)];
    var writing := begun + [Continue(0, false)] + [SaveKey] + [Continue(0, true)];
    OpenedRun(file);
    SavingRun(begun, file);
    RunNext(writing, WriteThrows(0), Editing(file, EMPTY, Crashed(0)));
    assert writing + [WriteThrows(0)] == [CtrlE(Some(file), true, true), ReadSettles(0, true), Continue(0, false),
                                          SaveKey, Continue(0, true), WriteThrows(0)];
  }
}
