/** The worker pool that inspects sibling worktrees: workers claim indices and fill one result array. */
module SiblingPool {
  import opened Wrappers

  const SIBLING_CONCURRENCY := 4

  /** One worker: about to claim, awaiting a status read for an index, returned, or rejected by an abort. */
  datatype Worker = Claiming | Reading(index: nat) | Returned | Rejected

  /**
   * `next` is shared and `results` is the sparse array. `claims` records, in order, every index a worker took, and
   * `answers` what the read for each index came back with.
   */
  datatype Pool<+R, +O, +S> = Pool(
    selected: seq<R>, workers: seq<Worker>, next: nat, results: map<nat, S>, claims: seq<nat>, answers: map<nat, O>)

  /** What a record becomes: at once (bare or prunable), or from the outcome of its awaited read. */
  datatype Summaries<!R, !O, !S> = Summaries(immediate: R -> Option<S>, afterRead: (R, O) -> S)

  datatype Event<+O> = Turn(worker: nat, aborted: bool) | ReadDone(worker: nat, outcome: O, aborted: bool)

  function Min(a: nat, b: nat): nat { if a < b then a else b }

  function Start<R, O, S>(selected: seq<R>): Pool<R, O, S> {
    Pool(selected, seq(Min(SIBLING_CONCURRENCY, |selected|), _ => Claiming), 0, map[], [], map[])
  }

  /** One atomic stretch of one worker. */
  function Step<R, O, S>(m: Summaries<R, O, S>, p: Pool<R, O, S>, ev: Event<O>): Pool<R, O, S> {
    match ev
    case Turn(w, aborted) =>
      if w >= |p.workers| || !p.workers[w].Claiming? then p
      else if aborted then p.(workers := p.workers[w := Rejected])
      else
        var index := p.next;
        var claimed := p.(next := p.next + 1);
        if index >= |p.selected| then claimed.(workers := p.workers[w := Returned])
        else
          var now := m.immediate(p.selected[index]);
          if now.Some? then claimed.(results := p.results[index := now.value], claims := p.claims + [index])
          else claimed.(workers := p.workers[w := Reading(index)], claims := p.claims + [index])
    case ReadDone(w, outcome, aborted) =>
      if w >= |p.workers| || !p.workers[w].Reading? || p.workers[w].index >= |p.selected| then p
      else if aborted then p.(workers := p.workers[w := Rejected])
      else
        var index := p.workers[w].index;
        p.(results := p.results[index := m.afterRead(p.selected[index], outcome)], answers := p.answers[index := outcome],
            workers := p.workers[w := Claiming])
  }

  function Run<R, O, S>(m: Summaries<R, O, S>, selected: seq<R>, evs: seq<Event<O>>): Pool<R, O, S> {
    if evs == [] then Start(selected) else Step(m, Run(m, selected, evs[..|evs| - 1]), evs[|evs| - 1])
  }

  /** The result at `i` is the summary of record `i`, from record `i`'s own read where one was needed. */
  ghost predicate Describes<R, O, S>(m: Summaries<R, O, S>, p: Pool<R, O, S>, i: nat) {
    && i < |p.selected| && i in p.results
    && if m.immediate(p.selected[i]).Some? then p.results[i] == m.immediate(p.selected[i]).value
       else i in p.answers && p.results[i] == m.afterRead(p.selected[i], p.answers[i])
  }

  /** No worker has been rejected. */
  predicate Unaborted<R, O, S>(p: Pool<R, O, S>) {
    forall w | 0 <= w < |p.workers| :: !p.workers[w].Rejected?
  }

  ghost predicate Busy<R, O, S>(p: Pool<R, O, S>, index: nat) {
    exists w | 0 <= w < |p.workers| :: p.workers[w] == Reading(index)
  }

  /** Indices are claimed once each, in order. */
  ghost predicate Claimed<R, O, S>(p: Pool<R, O, S>) {
    && |p.workers| == Min(SIBLING_CONCURRENCY, |p.selected|)
    && |p.claims| == Min(p.next, |p.selected|)
    && (forall i | 0 <= i < |p.claims| :: p.claims[i] == i)
    && ((exists w | 0 <= w < |p.workers| :: p.workers[w].Returned?) ==> p.next > |p.selected|)
  }

  /** No two workers read for the same index, and none for one that has its result. */
  ghost predicate Apart<R, O, S>(m: Summaries<R, O, S>, p: Pool<R, O, S>) {
    && (forall w | 0 <= w < |p.workers| && p.workers[w].Reading? ::
          p.workers[w].index < |p.claims| <= |p.selected| && p.workers[w].index !in p.results
          && m.immediate(p.selected[p.workers[w].index]).None?)
    && (forall w, v | 0 <= w < v < |p.workers| && p.workers[w].Reading? :: p.workers[w] != p.workers[v])
    && (forall i | i in p.results :: i < |p.claims| && Describes(m, p, i))
  }

  /** Short of an abort, a claimed index has its result or a worker reading for it. */
  ghost predicate Accounted<R, O, S>(p: Pool<R, O, S>) {
    Unaborted(p) ==> forall i | 0 <= i < |p.claims| :: i in p.results || Busy(p, i)
  }

  ghost predicate Inv<R, O, S>(m: Summaries<R, O, S>, selected: seq<R>, p: Pool<R, O, S>) {
    p.selected == selected && Claimed(p) && Apart(m, p) && Accounted(p)
  }

  lemma {:induction false} StepClaims<R, O, S>(m: Summaries<R, O, S>, p: Pool<R, O, S>, ev: Event<O>)
    requires Claimed(p)
    ensures Claimed(Step(m, p, ev))
  {
  }

  lemma {:induction false} TurnDescribes<R, O, S>(m: Summaries<R, O, S>, p: Pool<R, O, S>, w: nat, aborted: bool, i: nat)
    requires Claimed(p) && Apart(m, p) && i in Step(m, p, Turn(w, aborted)).results
    ensures var p' := Step(m, p, Turn(w, aborted)); i < |p'.claims| && Describes(m, p', i)
  {
    if i in p.results { assert Describes(m, p, i); }
  }

  lemma {:induction false} TurnApart<R, O, S>(m: Summaries<R, O, S>, p: Pool<R, O, S>, w: nat, aborted: bool)
    requires Claimed(p) && Apart(m, p)
    ensures Apart(m, Step(m, p, Turn(w, aborted)))
  {
    var p' := Step(m, p, Turn(w, aborted));
    forall i | i in p'.results ensures i < |p'.claims| && Describes(m, p', i) { TurnDescribes(m, p, w, aborted, i); }
  }

  lemma {:induction false} DoneApart<R, O, S>(
      m: Summaries<R, O, S>, p: Pool<R, O, S>, w: nat, outcome: O, aborted: bool)
    requires Claimed(p) && Apart(m, p)
    ensures Apart(m, Step(m, p, ReadDone(w, outcome, aborted)))
  {
  }

  /** A step of one worker leaves the others alone. */
  lemma {:induction false} OthersStay<R, O, S>(m: Summaries<R, O, S>, p: Pool<R, O, S>, ev: Event<O>)
    ensures var p' := Step(m, p, ev);
            |p'.workers| == |p.workers|
            && forall v | 0 <= v < |p.workers| && v != ev.worker :: p'.workers[v] == p.workers[v]
    ensures Unaborted(Step(m, p, ev)) ==> Unaborted(p)
  {
  }

  lemma {:induction false} StepAccounted<R, O, S>(m: Summaries<R, O, S>, p: Pool<R, O, S>, ev: Event<O>)
    requires Claimed(p) && Apart(m, p) && Accounted(p)
    ensures Accounted(Step(m, p, ev))
  {
    var p' := Step(m, p, ev);
    OthersStay(m, p, ev);
    if Unaborted(p') {
      forall i | 0 <= i < |p'.claims| ensures i in p'.results || Busy(p', i) { IndexAccounted(m, p, ev, i); }
    }
  }

  lemma {:induction false} IndexAccounted<R, O, S>(m: Summaries<R, O, S>, p: Pool<R, O, S>, ev: Event<O>, i: nat)
    requires Claimed(p) && Apart(m, p) && Accounted(p)
    requires Unaborted(Step(m, p, ev)) && i < |Step(m, p, ev).claims|
    ensures i in Step(m, p, ev).results || Busy(Step(m, p, ev), i)
  {
    var p' := Step(m, p, ev);
    OthersStay(m, p, ev);
    if i >= |p.claims| {
      assert i in p'.results || p'.workers[ev.worker] == Reading(i);
    } else if i !in p.results {
      var v :| 0 <= v < |p.workers| && p.workers[v] == Reading(i);
      assert i in p'.results || p'.workers[v] == Reading(i) by { assert !p'.workers[v].Rejected?; }
    }
  }

  lemma {:induction false} RunKeeps<R, O, S>(m: Summaries<R, O, S>, selected: seq<R>, evs: seq<Event<O>>)
    ensures Inv(m, selected, Run(m, selected, evs))
  {
    if evs == [] {
    } else {
      RunKeeps(m, selected, evs[..|evs| - 1]);
      var p, ev := Run(m, selected, evs[..|evs| - 1]), evs[|evs| - 1];
      StepClaims(m, p, ev);
      StepAccounted(m, p, ev);
      match ev
      case Turn(w, aborted) => TurnApart(m, p, w, aborted);
      case ReadDone(w, outcome, aborted) => DoneApart(m, p, w, outcome, aborted);
    }
  }

  /** How many reads are in flight. */
  function InFlight(workers: seq<Worker>): nat {
    if workers == [] then 0 else (if workers[0].Reading? then 1 else 0) + InFlight(workers[1..])
  }

  lemma {:induction false} InFlightBound(workers: seq<Worker>)
    ensures InFlight(workers) <= |workers|
  {
    if workers == [] {
    } else {
      InFlightBound(workers[1..]);
    }
  }

  /**
   * Under every schedule: indices are claimed once each and in order, at most four reads are in flight, and when
   * every worker has returned, every index has been claimed and the results are dense, each describing the record at
   * its own index.
   */
  lemma {:induction false} PoolIsExact<R, O, S>(m: Summaries<R, O, S>, selected: seq<R>, evs: seq<Event<O>>)
    ensures var p := Run(m, selected, evs);
            && (forall i | 0 <= i < |p.claims| :: p.claims[i] == i) && |p.claims| <= |selected|
            && |p.workers| == Min(4, |selected|) && InFlight(p.workers) <= 4
            && ((forall w | 0 <= w < |p.workers| :: p.workers[w].Returned?) ==>
                  && |p.claims| == |selected|
                  && (forall i: nat :: i in p.results <==> i < |selected|)
                  && (forall i | 0 <= i < |selected| :: Describes(m, p, i)))
  {
    RunKeeps(m, selected, evs);
    var p := Run(m, selected, evs);
    InFlightBound(p.workers);
    if forall w | 0 <= w < |p.workers| :: p.workers[w].Returned? {
      if |selected| > 0 {
        assert p.workers[0].Returned?;
        assert |p.claims| == |selected|;
      }
      forall i | 0 <= i < |selected| ensures i in p.results { assert !Busy(p, i); }
    }
  }

  lemma {:induction false} RunNext<R, O, S>(m: Summaries<R, O, S>, selected: seq<R>, evs: seq<Event<O>>, ev: Event<O>)
    ensures Run(m, selected, evs + [ev]) == Step(m, Run(m, selected, evs), ev)
  {
    assert (evs + [ev])[..|evs|] == evs;
  }

  /** Once aborted, a worker at work rejects: it claims no more, and a read that was under way brings no result. */
  lemma {:induction false} AbortRejects<R, O, S>(
      m: Summaries<R, O, S>, selected: seq<R>, evs: seq<Event<O>>, w: nat, outcome: O)
    requires var p := Run(m, selected, evs); w < |p.workers| && (p.workers[w].Claiming? || p.workers[w].Reading?)
    ensures var p := Run(m, selected, evs);
            var ev := if p.workers[w].Claiming? then Turn(w, true) else ReadDone(w, outcome, true);
            Run(m, selected, evs + [ev]) == p.(workers := p.workers[w := Rejected])
  {
    var p := Run(m, selected, evs);
    RunKeeps(m, selected, evs);
    RunNext(m, selected, evs, if p.workers[w].Claiming? then Turn(w, true) else ReadDone(w, outcome, true));
  }

  /** A worker that has returned or rejected does nothing more. */
  lemma {:induction false} EndedWorkerRests<R, O, S>(m: Summaries<R, O, S>, p: Pool<R, O, S>, ev: Event<O>)
    requires ev.worker < |p.workers| && (p.workers[ev.worker].Returned? || p.workers[ev.worker].Rejected?)
    ensures Step(m, p, ev) == p
  {
  }
}
