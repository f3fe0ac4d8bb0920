/**
 * The streaming history cursor as a state machine. Each event is one atomic stretch of JavaScript: an event
 * handler, or the part of `read` between two awaits.
 */
module HistoryCursor {
  import opened Wrappers
  import opened Text
  import opened HistoryParser

  datatype Failure = Malformed(error: Error) | TruncatedStream | ProcessFailed | SpawnFailed

  /** What has happened to the promise a suspended `read` awaits. */
  datatype Wait = Pending | Resolved | Rejected

  /** A `read` suspended in `waitForData`: its clamped limit, its signal, and its place in `waiters`. */
  datatype Suspension = Suspension(target: int, aborted: bool, ticket: nat, wait: Wait)

  datatype Cursor<+C> = Cursor(
    queue: seq<C>, fields: seq<string>, buffered: string,
    completed: bool, closed: bool, failure: Option<Failure>, reading: bool, waiters: set<nat>,
    paused: bool, suspended: Option<Suspension>, nextTicket: nat)

  datatype Event =
    | Data(text: string)
    | ProcessError
    | ProcessClose(tail: string, success: bool)
    | ReadBegin(limit: int, aborted: bool)
    | ReadResume
    | Abort
    | Close

  datatype Reason = ConcurrentRead | ReadAborted | StreamFailed(failure: Failure)

  /** What one stretch reports: nothing, a parked read, a page, a rejected read, or an exception nobody catches. */
  datatype Outcome<+C> = Silent | Parked | Page(commits: seq<C>, done: bool) | Threw(reason: Reason) | Uncaught(error: Error)

  function Start<C>(): Cursor<C> {
    Cursor([], [], "", false, false, None, false, {}, false, None, 0)
  }

  /** The result of feeding closed fields to the reassembler; `rest` is left over when a record is bad. */
  datatype Absorbed<+C> = Absorbed(queue: seq<C>, fields: seq<string>, rest: seq<string>, error: Option<Error>)

  function Absorb<C>(p: Provider<C>, queue: seq<C>, fields: seq<string>, incoming: seq<string>): Absorbed<C>
    decreases |incoming|
  {
    if incoming == [] then Absorbed(queue, fields, [], None)
    else
      var grown, rest := fields + [incoming[0]], incoming[1..];
      if |grown| != p.arity then Absorb(p, queue, grown, rest)
      else match p.decode(grown)
        case Err(e) => Absorbed(queue, grown, rest, Some(e))
        case Ok(commit) => Absorb(p, queue + [commit], [], rest)
  }

  /** Resolve every registered waiter and forget them. */
  function Wake<C>(c: Cursor<C>): Cursor<C> {
    c.(waiters := {},
       suspended :=
         if c.suspended.Some? && c.suspended.value.wait.Pending? && c.suspended.value.ticket in c.waiters
         then Some(c.suspended.value.(wait := Resolved)) else c.suspended)
  }

  function Consume<C>(p: Provider<C>, c: Cursor<C>, text: string): (Cursor<C>, Option<Error>) {
    var buffered := c.buffered + text;
    var a := Absorb(p, c.queue, c.fields, Terminated(buffered));
    var c1 := c.(queue := a.queue, fields := a.fields, buffered := Join(a.rest + [Tail(buffered)], [NUL]));
    (if a.error.None? then Wake(c1) else c1, a.error)
  }

  function OnData<C>(p: Provider<C>, c: Cursor<C>, text: string): (Cursor<C>, Outcome<C>) {
    var (c1, error) := Consume(p, c, text);
    match error
    case None => (if |c1.queue| >= 512 then c1.(paused := true) else c1, Silent)
    case Some(e) =>
      if p.flavour.Jj? then (Wake(c1.(failure := Some(Malformed(e)), completed := true)), Silent)
      else (c1, Uncaught(e))
  }

  function OnError<C>(c: Cursor<C>): Cursor<C> {
    Wake(c.(failure := Some(SpawnFailed), completed := true))
  }

  /** The verdict on a stream whose process has closed. */
  function Settle<C>(c: Cursor<C>, success: bool): Cursor<C> {
    var failure :=
      if c.failure.Some? then c.failure
      else if |c.fields| > 0 || |c.buffered| > 0 then Some(TruncatedStream)
      else if !success && !c.closed then Some(ProcessFailed)
      else None;
    Wake(c.(failure := failure, completed := true))
  }

  function OnClose<C>(p: Provider<C>, c: Cursor<C>, tail: string, success: bool): (Cursor<C>, Outcome<C>) {
    if p.flavour.Jj? && c.failure.Some? then (Settle(c, success), Silent)
    else
      var (c1, error) := Consume(p, c, tail);
      match error
      case None => (Settle(c1, success), Silent)
      case Some(e) =>
        if p.flavour.Jj? then (Settle(c1.(failure := Some(Malformed(e))), success), Silent)
        else (c1, Uncaught(e))
  }

  function Stop<C>(c: Cursor<C>): Cursor<C> {
    if c.closed then c else Wake(c.(closed := true))
  }

  function Target<C>(p: Provider<C>, limit: int): int {
    var wanted := if p.flavour.Jj? && limit < 1 then 1 else limit;
    if wanted < 256 then wanted else 256
  }

  /** `waitForData`: register a waiter, or reject at once when the signal has already fired. */
  function WaitForData<C>(p: Provider<C>, c: Cursor<C>, target: int, aborted: bool): Cursor<C> {
    if aborted then
      (if p.flavour.Jj? then Stop(c) else c)
      .(suspended := Some(Suspension(target, true, c.nextTicket, Rejected)), nextTicket := c.nextTicket + 1)
    else
      c.(suspended := Some(Suspension(target, false, c.nextTicket, Pending)),
         waiters := c.waiters + {c.nextTicket}, nextTicket := c.nextTicket + 1)
  }

  /** `queue.splice(0, target)` removes nothing for a target below one. */
  function Taken(target: int, available: nat): nat {
    if target < 0 then 0 else if target < available then target else available
  }

  /** From the head of the wait loop: park again, or leave the loop and finish the read. */
  function Advance<C>(p: Provider<C>, c: Cursor<C>, target: int, aborted: bool): (Cursor<C>, Outcome<C>) {
    if |c.queue| < target && !c.completed && !c.closed then (WaitForData(p, c, target, aborted), Parked)
    else
      var c1 := c.(reading := false, suspended := None);
      if aborted then (c1, Threw(ReadAborted))
      else if c.failure.Some? then (c1, Threw(StreamFailed(c.failure.value)))
      else
        var n := Taken(target, |c.queue|);
        var queue := c.queue[n..];
        var resume := !c.completed && !c.closed && |queue| < 256;
        (c1.(queue := queue, paused := c.paused && !resume),
         Page(c.queue[..n], (c.completed || c.closed) && |queue| == 0))
  }

  function OnReadBegin<C>(p: Provider<C>, c: Cursor<C>, limit: int, aborted: bool): (Cursor<C>, Outcome<C>) {
    if c.reading then (c, Threw(ConcurrentRead))
    else if p.flavour.Jj? && aborted then (Stop(c), Threw(ReadAborted))
    else Advance(p, c.(reading := true), Target(p, limit), aborted)
  }

  function OnReadResume<C>(p: Provider<C>, c: Cursor<C>): (Cursor<C>, Outcome<C>)
    requires c.suspended.Some? && !c.suspended.value.wait.Pending?
  {
    var s := c.suspended.value;
    if s.wait.Rejected? then (c.(reading := false, suspended := None), Threw(ReadAborted))
    else Advance(p, c.(suspended := None), s.target, s.aborted)
  }

  /** The signal of the suspended read fires; only a read still waiting is listening. */
  function OnAbort<C>(p: Provider<C>, c: Cursor<C>): Cursor<C>
    requires c.suspended.Some?
  {
    var s := c.suspended.value;
    if s.wait.Pending? then
      var c1 := c.(waiters := c.waiters - {s.ticket});
      (if p.flavour.Jj? then Stop(c1) else c1).(suspended := Some(s.(aborted := true, wait := Rejected)))
    else c.(suspended := Some(s.(aborted := true)))
  }

  /** The cursor together with the history of its run. */
  datatype World<+C> = World(c: Cursor<C>, received: string, delivered: seq<C>, exited: bool, down: bool)

  /**
   * Output and the close event come only from a process that has not closed; a read continues only once its
   * promise has settled; and an uncaught exception ends the program.
   */
  predicate Enabled<C>(w: World<C>, ev: Event) {
    !w.down &&
    match ev
    case Data(_) => !w.exited
    case ProcessClose(_, _) => !w.exited
    case ReadResume => w.c.suspended.Some? && !w.c.suspended.value.wait.Pending?
    case Abort => w.c.suspended.Some?
    case ProcessError | ReadBegin(_, _) | Close => true
  }

  function Step<C>(p: Provider<C>, c: Cursor<C>, ev: Event): (Cursor<C>, Outcome<C>)
    requires ev.ReadResume? ==> c.suspended.Some? && !c.suspended.value.wait.Pending?
    requires ev.Abort? ==> c.suspended.Some?
  {
    match ev
    case Data(text) => OnData(p, c, text)
    case ProcessError => (OnError(c), Silent)
    case ProcessClose(tail, success) => OnClose(p, c, tail, success)
    case ReadBegin(limit, aborted) => OnReadBegin(p, c, limit, aborted)
    case ReadResume => OnReadResume(p, c)
    case Abort => (OnAbort(p, c), Silent)
    case Close => (Stop(c), Silent)
  }

  /** The text an event hands to `consume`. */
  function Fed<C>(p: Provider<C>, c: Cursor<C>, ev: Event): string {
    match ev
    case Data(text) => text
    case ProcessClose(tail, _) => if p.flavour.Jj? && c.failure.Some? then "" else tail
    case _ => ""
  }

  function Next<C>(p: Provider<C>, w: World<C>, ev: Event): World<C> {
    if !Enabled(w, ev) then w
    else
      var (c, out) := Step(p, w.c, ev);
      World(c, w.received + Fed(p, w.c, ev), w.delivered + (if out.Page? then out.commits else []),
            w.exited || ev.ProcessClose?, out.Uncaught?)
  }

  function Begin<C>(): World<C> { World(Start(), "", [], false, false) }

  /** Any run: output in any chunks, interleaved with any reads, aborts and closes. */
  function Run<C>(p: Provider<C>, evs: seq<Event>): World<C> {
    if evs == [] then Begin() else Next(p, Run(p, evs[..|evs| - 1]), evs[|evs| - 1])
  }
}
