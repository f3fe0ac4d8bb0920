/** The one-slot mailbox between an edit mode's keystrokes and the command handler that serves them. */
module Mailbox {
  import opened Wrappers

  datatype Request = Save | End

  /** `pending` is a parked reader; `queued` a request nobody has read yet. */
  datatype Mailbox = Mailbox(pending: bool, queued: Option<Request>, ended: bool)

  const EMPTY := Mailbox(false, None, false)

  /** `post`: hand the request to a parked reader, or hold it. The second part is what the reader was handed. */
  function Post(m: Mailbox, request: Request): (Mailbox, Option<Request>) {
    if m.ended then (m, None)
    else
      var ended := m.ended || request.End?;
      if m.pending then (Mailbox(false, m.queued, ended), Some(request))
      else (Mailbox(false, if request.End? then Some(End) else Some(m.queued.GetOr(Save)), ended), None)
  }

  /** `next`: answer at once, or park the reader. */
  function Next(m: Mailbox): (Mailbox, Option<Request>) {
    if m.queued.Some? then (m.(queued := None), m.queued)
    else if m.ended then (m, Some(End))
    else (m.(pending := true), None)
  }

  datatype Event = Posted(request: Request) | Asked

  /** The mailbox with every request its reader has received; the one reader asks again only once answered. */
  datatype Log = Log(box: Mailbox, received: seq<Request>)

  function Step(log: Log, ev: Event): Log {
    if ev.Asked? && log.box.pending then log
    else
      var (box, handed) := if ev.Asked? then Next(log.box) else Post(log.box, ev.request);
      Log(box, log.received + (if handed.Some? then [handed.value] else []))
  }

  function Run(evs: seq<Event>): Log {
    if evs == [] then Log(EMPTY, []) else Step(Run(evs[..|evs| - 1]), evs[|evs| - 1])
  }

  /** A parked reader and a held request never coexist, and the end supersedes both. */
  ghost predicate Settled(m: Mailbox) {
    && !(m.pending && m.queued.Some?)
    && (m.ended ==> !m.pending && m.queued != Some(Save))
    && (m.queued == Some(End) ==> m.ended)
  }

  ghost predicate SavesThenEnds(received: seq<Request>) {
    forall i, j | 0 <= i < j < |received| && received[i].End? :: received[j].End?
  }

  function Saves(received: seq<Request>): nat {
    if received == [] then 0 else Saves(received[..|received| - 1]) + (if received[|received| - 1].Save? then 1 else 0)
  }

  function SavesPosted(evs: seq<Event>): nat {
    if evs == [] then 0
    else SavesPosted(evs[..|evs| - 1]) + (if evs[|evs| - 1] == Posted(Save) then 1 else 0)
  }

  lemma {:induction false} StepKeeps(log: Log, ev: Event)
    requires Settled(log.box) && SavesThenEnds(log.received) && (End in log.received ==> log.box.ended)
    ensures var log' := Step(log, ev);
            Settled(log'.box) && SavesThenEnds(log'.received) && (End in log'.received ==> log'.box.ended)
  {
  }

  /**
   * Whatever is posted and asked, the reader receives saves and then only ends; once the session has ended no
   * reader is parked; and no more saves are handed over or held than were posted.
   */
  lemma {:induction false} MailboxRuns(evs: seq<Event>)
    ensures var log := Run(evs);
            && Settled(log.box) && SavesThenEnds(log.received) && (End in log.received ==> log.box.ended)
            && Saves(log.received) + (if log.box.queued == Some(Save) then 1 else 0) <= SavesPosted(evs)
  {
    if evs == [] {
    } else {
      var init, ev := evs[..|evs| - 1], evs[|evs| - 1];
      var log, log' := Run(init), Run(evs);
      MailboxRuns(init);
      StepKeeps(log, ev);
      if log'.received != log.received {
        assert log'.received[..|log'.received| - 1] == log.received;
      }
    }
  }

  /** After the end is posted, every later answer is an end, and every question is answered at once. */
  lemma {:induction false} EndIsForever(evs: seq<Event>, ev: Event)
    requires Run(evs).box.ended
    ensures var log, log' := Run(evs), Step(Run(evs), ev);
            && log'.box.ended && !log'.box.pending
            && log'.received == log.received + (if ev.Asked? then [End] else [])
  {
    MailboxRuns(evs);
    var log := Run(evs);
    assert log.received + [] == log.received;
    if ev.Asked? {
      assert log.box.queued.Some? ==> log.box.queued.value.End?;
    }
  }

  function Posts(request: Request, n: nat): seq<Event> {
    if n == 0 then [] else Posts(request, n - 1) + [Posted(request)]
  }

  lemma {:induction false} RunNext(evs: seq<Event>, ev: Event)
    ensures Run(evs + [ev]) == Step(Run(evs), ev)
  {
    assert (evs + [ev])[..|evs|] == evs;
  }

  lemma {:induction false} SaveHeld(log: Log)
    requires Settled(log.box) && !log.box.ended && !log.box.pending
    ensures Step(log, Posted(Save)) == Log(Mailbox(false, Some(Save), false), log.received)
  {
    assert log.received + [] == log.received;
    assert log.box.queued.Some? ==> log.box.queued.value.Save?;
  }

  lemma {:induction false} SavesHeld(evs: seq<Event>, n: nat)
    requires n > 0 && !Run(evs).box.ended && !Run(evs).box.pending
    ensures Run(evs + Posts(Save, n)) == Log(Mailbox(false, Some(Save), false), Run(evs).received)
  {
    var before := evs + Posts(Save, n - 1);
    if n == 1 {
      assert before == evs;
      MailboxRuns(evs);
    } else {
      SavesHeld(evs, n - 1);
    }
    assert evs + Posts(Save, n) == before + [Posted(Save)];
    SaveHeld(Run(before));
    RunNext(before, Posted(Save));
  }

  /** However many saves are posted between two answers, the reader's next question receives one save. */
  lemma {:induction false} SavesReachReader(evs: seq<Event>, n: nat)
    requires n > 0 && !Run(evs).box.ended && !Run(evs).box.pending
    ensures Run(evs + Posts(Save, n) + [Asked]).received == Run(evs).received + [Save]
    ensures Run(evs + Posts(Save, n) + [Asked]).box.queued.None?
  {
    var held := evs + Posts(Save, n);
    MailboxRuns(held);
    SavesHeld(evs, n);
    RunNext(held, Asked);
  }

  /** A parked reader is handed what is posted at once. */
  lemma {:induction false} ParkedReaderIsHanded(evs: seq<Event>, request: Request)
    requires Run(evs).box.pending
    ensures Run(evs + [Posted(request)]).received == Run(evs).received + [request]
    ensures !Run(evs + [Posted(request)]).box.pending
  {
    MailboxRuns(evs);
    RunNext(evs, Posted(request));
  }

  /** The end supersedes saves nobody has read: the reader's next question receives it. */
  lemma {:induction false} EndReachesReader(evs: seq<Event>)
    requires !Run(evs).box.pending
    ensures Run(evs + [Posted(End)] + [Asked]).received == Run(evs).received + [End]
  {
    var ended := evs + [Posted(End)];
    MailboxRuns(evs);
    RunNext(evs, Posted(End));
    assert Run(evs).received + [] == Run(evs).received;
    EndIsForever(ended, Asked);
    RunNext(ended, Asked);
  }

  /** With nothing to answer, a question parks its reader. */
  lemma {:induction false} QuestionParks(evs: seq<Event>)
    requires !Run(evs).box.ended && Run(evs).box.queued.None?
    ensures Run(evs + [Asked]).box.pending && Run(evs + [Asked]).received == Run(evs).received
  {
    RunNext(evs, Asked);
    assert Run(evs).received + [] == Run(evs).received;
  }
}
