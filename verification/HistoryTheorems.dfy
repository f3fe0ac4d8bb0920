/** What every run of the streaming cursor keeps, measured against the batch parser. */
module HistoryTheorems {
  import opened Wrappers
  import opened Text
  import opened HistoryParser
  import opened HistoryCursor

  /** The commits of the whole records of `fields`, up to the first record that does not decode. */
  function Accepted<C>(p: Provider<C>, fields: seq<string>): seq<C>
    decreases |fields|
  {
    if |fields| < p.arity then []
    else match p.decode(fields[..p.arity])
      case Err(_) => []
      case Ok(commit) => [commit] + Accepted(p, fields[p.arity..])
  }

  /** Every whole record of `fields` decodes. */
  predicate Clean<C>(p: Provider<C>, fields: seq<string>)
    decreases |fields|
  {
    |fields| < p.arity || (p.decode(fields[..p.arity]).Ok? && Clean(p, fields[p.arity..]))
  }

  /** The fields after the last whole record. */
  function Remainder(n: Arity, fields: seq<string>): (r: seq<string>)
    ensures |r| < n
    decreases |fields|
  {
    if |fields| < n then fields else Remainder(n, fields[n..])
  }

  /** The fields of the whole records. */
  function WholeFields(n: Arity, fields: seq<string>): seq<string>
    decreases |fields|
  {
    if |fields| < n then [] else fields[..n] + WholeFields(n, fields[n..])
  }

  lemma {:induction false} WholeAndRemainder(n: Arity, fields: seq<string>)
    ensures fields == WholeFields(n, fields) + Remainder(n, fields)
    decreases |fields|
  {
    if |fields| < n {
    } else {
      WholeAndRemainder(n, fields[n..]);
      Associate(fields[..n], WholeFields(n, fields[n..]), Remainder(n, fields[n..]));
    }
  }

  /** The longest prefix of `s` that ends with a whole record. */
  function WholeRecords(n: Arity, s: string): string { Terminate(WholeFields(n, Terminated(s))) }

  /** The first record, and what the rest adds to it. */
  lemma {:induction false} Peel<C>(p: Provider<C>, record: seq<string>, rest: seq<string>, all: seq<string>)
    requires |record| == p.arity && all == record + rest
    ensures Remainder(p.arity, all) == Remainder(p.arity, rest)
    ensures Clean(p, all) <==> p.decode(record).Ok? && Clean(p, rest)
    ensures Accepted(p, all) == if p.decode(record).Ok? then [p.decode(record).value] + Accepted(p, rest) else []
  {
  }

  // ---- Batch parsing, field by field ----

  lemma {:induction false} RemainderIsMod(n: Arity, fields: seq<string>)
    ensures |Remainder(n, fields)| == |fields| % n
    decreases |fields|
  {
    if |fields| < n {
      ModUnique(|fields|, n, 0, |fields|);
    } else {
      RemainderIsMod(n, fields[n..]);
      ModStep(|fields|, n);
    }
  }

  lemma {:induction false} DecodesIffClean<C>(p: Provider<C>, fields: seq<string>)
    ensures Clean(p, fields) ==> DecodeAll(p, fields) == Ok(Accepted(p, fields))
    ensures !Clean(p, fields) ==> DecodeAll(p, fields).Err?
    decreases |fields|
  {
    if |fields| >= p.arity && p.decode(fields[..p.arity]).Ok? {
      DecodesIffClean(p, fields[p.arity..]);
    }
  }

  /** On closed whole records the batch parser decodes each record. */
  lemma {:induction false} ParseTerminated<C>(p: Provider<C>, fields: seq<string>)
    requires forall f <- fields :: NUL !in f
    requires Remainder(p.arity, fields) == []
    ensures ParseHistory(p, Terminate(fields)) == DecodeAll(p, fields)
  {
    if fields != [] {
      SplitTerminate(fields);
      WholeMod(p.arity, fields);
      var text := Terminate(fields);
      assert |text| > 0;
      ParseOfSplit(p, text, fields);
    }
  }

  lemma {:induction false} WholeMod(n: Arity, fields: seq<string>)
    requires Remainder(n, fields) == []
    ensures |fields| % n == 0 && (|fields| + 1) % n == 1
  {
    RemainderIsMod(n, fields);
    NextMod(|fields|, n);
  }

  lemma {:induction false} ParseOfSplit<C>(p: Provider<C>, text: string, fields: seq<string>)
    requires text != "" && Split(text, NUL) == fields + [""]
    requires |fields| % p.arity == 0 && (|fields| + 1) % p.arity == 1
    ensures ParseHistory(p, text) == DecodeAll(p, fields)
  {
  }

  lemma {:induction false} NextMod(x: nat, n: int)
    requires 2 <= n
    ensures x % n == n - 1 ==> (x + 1) % n == 0
    ensures x % n < n - 1 ==> (x + 1) % n == x % n + 1
  {
    var q, r := x / n, x % n;
    assert x == n * q + r;
    if r == n - 1 {
      assert x + 1 == n * (q + 1) + 0 by { assert n * (q + 1) == n * q + n; }
      ModUnique(x + 1, n, q + 1, 0);
    } else {
      ModUnique(x + 1, n, q, r + 1);
    }
  }

  /** `WholeRecords` cuts the stream just before the fields of an unfinished record. */
  lemma {:induction false} WholeRecordsCut(n: Arity, s: string)
    ensures s == WholeRecords(n, s) + Terminate(Remainder(n, Terminated(s))) + Tail(s)
  {
    StreamLayout(s);
    WholeAndRemainder(n, Terminated(s));
    TerminateConcat(WholeFields(n, Terminated(s)), Remainder(n, Terminated(s)), Terminated(s));
  }

  /** The unfinished record takes no part in parsing. */
  lemma {:induction false} DropRemainder<C>(p: Provider<C>, fields: seq<string>, whole: seq<string>)
    requires whole == WholeFields(p.arity, fields)
    ensures Remainder(p.arity, whole) == []
    ensures Accepted(p, whole) == Accepted(p, fields) && (Clean(p, whole) <==> Clean(p, fields))
    decreases |fields|
  {
    var n := p.arity;
    if |fields| >= n {
      var record, rest := fields[..n], fields[n..];
      var more := WholeFields(n, rest);
      DropRemainder(p, rest, more);
      Peel(p, record, more, whole);
      Peel(p, record, rest, fields);
    }
  }

  /** The batch parser, given the whole records of a stream. */
  lemma {:induction false} ParseWholeRecords<C>(p: Provider<C>, s: string)
    ensures Clean(p, Terminated(s)) ==> ParseHistory(p, WholeRecords(p.arity, s)) == Ok(Accepted(p, Terminated(s)))
    ensures !Clean(p, Terminated(s)) ==> ParseHistory(p, WholeRecords(p.arity, s)).Err?
  {
    var fields := Terminated(s);
    var whole := WholeFields(p.arity, fields);
    WholeAndRemainder(p.arity, fields);
    DropRemainder(p, fields, whole);
    PiecesNulFree(s);
    forall f <- whole ensures NUL !in f { assert f in fields; }
    ParseTerminated(p, whole);
    DecodesIffClean(p, whole);
  }

  // ---- Reassembly agrees with batch parsing ----

  /** The reassembler's result is what parsing all the fields would accept after `queue`. */
  ghost predicate Agrees<C>(p: Provider<C>, queue: seq<C>, all: seq<string>, a: Absorbed<C>) {
    && a.queue == queue + Accepted(p, all)
    && (Clean(p, all) <==> a.error.None?)
    && (a.error.None? ==> a.fields == Remainder(p.arity, all) && a.rest == [])
    && (a.error.Some? ==> |a.fields| == p.arity)
  }

  lemma {:induction false} AbsorbAgrees<C>(
    p: Provider<C>, queue: seq<C>, fields: seq<string>, incoming: seq<string>, all: seq<string>)
    requires |fields| < p.arity && all == fields + incoming
    ensures Agrees(p, queue, all, Absorb(p, queue, fields, incoming))
    decreases |incoming|
  {
    if incoming == [] {
      assert all == fields && queue + [] == queue;
    } else {
      var grown, rest := fields + [incoming[0]], incoming[1..];
      assert all == grown + rest;
      if |grown| != p.arity {
        AbsorbAgrees(p, queue, grown, rest, all);
      } else if p.decode(grown).Ok? {
        var commit := p.decode(grown).value;
        assert rest == [] + rest;
        AbsorbAgrees(p, queue + [commit], [], rest, rest);
        RecordAgrees(p, queue, grown, rest, all, Absorb(p, queue + [commit], [], rest));
      } else {
        Peel(p, grown, rest, all);
        assert queue + [] == queue;
      }
    }
  }

  lemma {:induction false} RecordAgrees<C>(
    p: Provider<C>, queue: seq<C>, record: seq<string>, rest: seq<string>, all: seq<string>, a: Absorbed<C>)
    requires |record| == p.arity && p.decode(record).Ok? && all == record + rest
    requires Agrees(p, queue + [p.decode(record).value], rest, a)
    ensures Agrees(p, queue, all, a)
  {
    Peel(p, record, rest, all);
    Associate(queue, [p.decode(record).value], Accepted(p, rest));
  }

  /** Once a bad record has jammed the reassembler, nothing more is queued. */
  lemma {:induction false} AbsorbJammed<C>(p: Provider<C>, queue: seq<C>, fields: seq<string>, incoming: seq<string>)
    requires |fields| >= p.arity
    ensures Absorb(p, queue, fields, incoming) == Absorbed(queue, fields + incoming, [], None)
    decreases |incoming|
  {
    if incoming == [] {
      assert fields + incoming == fields;
    } else {
      AbsorbJammed(p, queue, fields + [incoming[0]], incoming[1..]);
      assert fields + [incoming[0]] + incoming[1..] == fields + incoming;
    }
  }

  /** After clean fields, parsing goes on from their unfinished record. */
  lemma {:induction false} CleanConcat<C>(
    p: Provider<C>, a: seq<string>, b: seq<string>, all: seq<string>, from: seq<string>)
    requires Clean(p, a) && all == a + b && from == Remainder(p.arity, a) + b
    ensures Accepted(p, all) == Accepted(p, a) + Accepted(p, from)
    ensures (Clean(p, all) <==> Clean(p, from)) && Remainder(p.arity, all) == Remainder(p.arity, from)
    decreases |a|
  {
    if |a| < p.arity {
      assert all == from && Accepted(p, a) == [];
    } else {
      var record, rest := a[..p.arity], a[p.arity..];
      var all' := rest + b;
      assert a == record + rest && all == record + all';
      Peel(p, record, rest, a);
      CleanConcat(p, rest, b, all', from);
      ConcatStep(p, record, rest, a, all', all, from);
    }
  }

  lemma {:induction false} ConcatStep<C>(
    p: Provider<C>, record: seq<string>, rest: seq<string>, a: seq<string>, all': seq<string>, all: seq<string>,
    from: seq<string>)
    requires |record| == p.arity && a == record + rest && all == record + all' && p.decode(record).Ok?
    requires Accepted(p, all') == Accepted(p, rest) + Accepted(p, from)
    requires (Clean(p, all') <==> Clean(p, from)) && Remainder(p.arity, all') == Remainder(p.arity, from)
    ensures Accepted(p, all) == Accepted(p, a) + Accepted(p, from)
    ensures (Clean(p, all) <==> Clean(p, from)) && Remainder(p.arity, all) == Remainder(p.arity, from)
  {
  }

  lemma {:induction false} Associate<T>(a: seq<T>, b: seq<T>, c: seq<T>)
    ensures a + (b + c) == a + b + c
  {
  }

  /** After a bad record, nothing is accepted. */
  lemma {:induction false} DirtyConcat<C>(p: Provider<C>, a: seq<string>, b: seq<string>, all: seq<string>)
    requires !Clean(p, a) && all == a + b
    ensures Accepted(p, all) == Accepted(p, a) && !Clean(p, all)
    decreases |a|
  {
    var record, rest, all' := a[..p.arity], a[p.arity..], a[p.arity..] + b;
    Peel(p, record, rest, a);
    Peel(p, record, all', all);
    if p.decode(record).Ok? {
      DirtyConcat(p, rest, b, all');
    }
  }

  // ---- The invariant ----

  ghost predicate Intact<C>(p: Provider<C>, c: Cursor<C>) { |c.fields| < p.arity }

  /** Everything consumed is accounted for: delivered, queued, or in the unfinished record. */
  ghost predicate Accounted<C>(p: Provider<C>, w: World<C>) {
    var closed := Terminated(w.received);
    && w.delivered + w.c.queue == Accepted(p, closed)
    && (Intact(p, w.c) <==> Clean(p, closed))
    && (Intact(p, w.c) ==> w.c.fields == Remainder(p.arity, closed) && w.c.buffered == Tail(w.received))
    && (!Intact(p, w.c) ==> if p.flavour.Jj? then w.c.failure.Some? else w.down)
  }

  /** The one registered waiter is the suspended read's, until its promise settles. */
  ghost predicate Registered<C>(c: Cursor<C>) {
    && (c.reading <==> c.suspended.Some?)
    && c.waiters == (if c.suspended.Some? && c.suspended.value.wait.Pending? then {c.suspended.value.ticket} else {})
    && (c.suspended.Some? ==> c.suspended.value.target <= 256)
  }

  /** A registered waiter's wait condition still holds. */
  ghost predicate NoLostWakeup<C>(c: Cursor<C>) {
    && Registered(c)
    && (c.suspended.Some? && c.suspended.value.wait.Pending? ==>
          && |c.queue| < c.suspended.value.target
          && !c.completed && !c.closed && !c.suspended.value.aborted)
  }

  /** The producer is held back only while there is plenty to read. */
  ghost predicate Flow<C>(p: Provider<C>, w: World<C>) {
    && (w.c.paused ==> |w.c.queue| >= 256 || w.c.completed || w.c.closed)
    && (!w.c.paused && !w.exited && Intact(p, w.c) ==> |w.c.queue| < 512)
  }

  ghost predicate Finished<C>(w: World<C>) {
    && (w.c.failure.Some? ==> w.c.completed)
    && (w.c.completed && w.c.failure.None? ==> w.exited && w.c.fields == [] && w.c.buffered == "")
  }

  ghost predicate Inv<C>(p: Provider<C>, w: World<C>) {
    Accounted(p, w) && (!w.down ==> NoLostWakeup(w.c) && Flow(p, w) && Finished(w))
  }

  /** Consuming one chunk keeps the account. */
  lemma {:induction false} ConsumeAccounted<C>(p: Provider<C>, w: World<C>, text: string)
    requires Accounted(p, w) && !w.down
    ensures var (c, error) := Consume(p, w.c, text);
            var closed := Terminated(w.received + text);
            && w.delivered + c.queue == Accepted(p, closed)
            && (Intact(p, c) <==> Clean(p, closed))
            && (Intact(p, c) ==> c.fields == Remainder(p.arity, closed) && c.buffered == Tail(w.received + text))
            && (error.Some? <==> Intact(p, w.c) && !Intact(p, c))
            && |w.c.queue| <= |c.queue| <= |w.c.queue| + |Accepted(p, w.c.fields + Terminated(w.c.buffered + text))|
  {
    var c := w.c;
    var closed := Terminated(w.received);
    var incoming := Terminated(c.buffered + text);
    TerminatedConcat(w.received, text);
    if Intact(p, c) {
      AbsorbAgrees(p, c.queue, c.fields, incoming, c.fields + incoming);
      CleanConcat(p, closed, incoming, closed + incoming, c.fields + incoming);
      Associate(w.delivered, c.queue, Accepted(p, c.fields + incoming));
      TailAlone(Absorb(p, c.queue, c.fields, incoming).rest, Tail(c.buffered + text));
    } else {
      AbsorbJammed(p, c.queue, c.fields, incoming);
      var more := Terminated(Tail(w.received) + text);
      DirtyConcat(p, closed, more, closed + more);
    }
  }

  lemma {:induction false} TailAlone(rest: seq<string>, tail: string)
    ensures rest == [] ==> Join(rest + [tail], [NUL]) == tail
  {
  }

  lemma {:induction false} DataKeeps<C>(p: Provider<C>, w: World<C>, text: string)
    requires Inv(p, w) && Enabled(w, Data(text))
    ensures Inv(p, Next(p, w, Data(text)))
  {
    ConsumeAccounted(p, w, text);
  }

  /** Settling a stream whose account is kept. */
  lemma {:induction false} SettleKeeps<C>(p: Provider<C>, w: World<C>, c: Cursor<C>, success: bool)
    requires Accounted(p, w) && Registered(c) && !w.down && w.exited && w.c == Settle(c, success)
    ensures Inv(p, w)
  {
  }

  lemma {:induction false} CloseKeeps<C>(p: Provider<C>, w: World<C>, tail: string, success: bool)
    requires Inv(p, w) && Enabled(w, ProcessClose(tail, success))
    ensures Inv(p, Next(p, w, ProcessClose(tail, success)))
  {
    var w' := Next(p, w, ProcessClose(tail, success));
    assert w.delivered + [] == w.delivered;
    if p.flavour.Jj? && w.c.failure.Some? {
      assert w.received + "" == w.received;
      SettleKeeps(p, w', w.c, success);
    } else {
      ConsumeAccounted(p, w, tail);
      var (c, error) := Consume(p, w.c, tail);
      if !w'.down {
        SettleKeeps(p, w', if error.Some? then c.(failure := Some(Malformed(error.value))) else c, success);
      }
    }
  }

  /** Parking again keeps everything: nothing is delivered, and the wait condition holds as the waiter registers. */
  lemma {:induction false} ParkKeeps<C>(p: Provider<C>, w: World<C>, c: Cursor<C>, target: int, aborted: bool)
    requires Accounted(p, w) && !w.down && Flow(p, w) && Finished(w)
    requires c == w.c.(reading := true, suspended := None) && c.waiters == {} && target <= 256
    requires |c.queue| < target && !c.completed && !c.closed
    ensures Inv(p, w.(c := WaitForData(p, c, target, aborted)))
  {
  }

  /** Leaving the loop with a page keeps everything: the page moves from the queue to what is delivered. */
  lemma {:induction false} PageKeeps<C>(p: Provider<C>, w: World<C>, n: nat, paused: bool)
    requires Accounted(p, w) && !w.down && Flow(p, w) && Finished(w) && w.c.waiters == {} && n <= |w.c.queue|
    requires paused == (w.c.paused && (w.c.completed || w.c.closed || |w.c.queue| - n >= 256))
    ensures Inv(p, w.(c := w.c.(reading := false, suspended := None, queue := w.c.queue[n..], paused := paused),
                      delivered := w.delivered + w.c.queue[..n]))
  {
    assert w.c.queue[..n] + w.c.queue[n..] == w.c.queue;
    Associate(w.delivered, w.c.queue[..n], w.c.queue[n..]);
  }

  lemma {:induction false} AdvanceKeeps<C>(p: Provider<C>, w: World<C>, c: Cursor<C>, target: int, aborted: bool)
    requires Accounted(p, w) && !w.down && Flow(p, w) && Finished(w)
    requires c == w.c.(reading := true, suspended := None) && c.waiters == {} && target <= 256
    ensures var (c', out) := Advance(p, c, target, aborted);
            Inv(p, World(c', w.received, w.delivered + (if out.Page? then out.commits else []), w.exited, false))
  {
    assert w.delivered + [] == w.delivered;
    if |c.queue| < target && !c.completed && !c.closed {
      ParkKeeps(p, w, c, target, aborted);
    } else if !aborted && c.failure.None? {
      var n := Taken(target, |c.queue|);
      PageKeeps(p, w, n, c.paused && (c.completed || c.closed || |c.queue| - n >= 256));
    }
  }

  lemma {:induction false} QuietKeeps<C>(p: Provider<C>, w: World<C>, ev: Event)
    requires Inv(p, w) && Enabled(w, ev) && (ev.ProcessError? || ev.Abort? || ev.Close?)
    ensures Inv(p, Next(p, w, ev))
  {
    assert w.received + "" == w.received;
    assert w.delivered + [] == w.delivered;
  }

  /** A read that Jujutsu refuses for a fired signal stops the stream. */
  lemma {:induction false} StopKeeps<C>(p: Provider<C>, w: World<C>)
    requires Inv(p, w) && !w.down && !w.c.reading
    ensures Inv(p, w.(c := Stop(w.c)))
  {
  }

  lemma {:induction false} BeginIs<C>(p: Provider<C>, w: World<C>, limit: int, aborted: bool)
    requires !w.down
    ensures var next := Next(p, w, ReadBegin(limit, aborted));
            if w.c.reading then next == w
            else if p.flavour.Jj? && aborted then next == w.(c := Stop(w.c))
            else
              var (c, out) := Advance(p, w.c.(reading := true), Target(p, limit), aborted);
              next == World(c, w.received, w.delivered + (if out.Page? then out.commits else []), w.exited, false)
  {
    assert w.received + "" == w.received && w.delivered + [] == w.delivered;
  }

  lemma {:induction false} BeginKeeps<C>(p: Provider<C>, w: World<C>, limit: int, aborted: bool)
    requires Inv(p, w) && !w.down
    ensures Inv(p, Next(p, w, ReadBegin(limit, aborted)))
  {
    BeginIs(p, w, limit, aborted);
    if w.c.reading {
    } else if p.flavour.Jj? && aborted {
      StopKeeps(p, w);
    } else {
      AdvanceKeeps(p, w, w.c.(reading := true), Target(p, limit), aborted);
    }
  }

  lemma {:induction false} ResumeKeeps<C>(p: Provider<C>, w: World<C>)
    requires Inv(p, w) && Enabled(w, ReadResume)
    ensures Inv(p, Next(p, w, ReadResume))
  {
    var s := w.c.suspended.value;
    assert w.received + "" == w.received;
    assert w.delivered + [] == w.delivered;
    if s.wait.Resolved? {
      AdvanceKeeps(p, w, w.c.(suspended := None), s.target, s.aborted);
    }
  }

  lemma {:induction false} NextKeeps<C>(p: Provider<C>, w: World<C>, ev: Event)
    requires Inv(p, w)
    ensures Inv(p, Next(p, w, ev))
  {
    if Enabled(w, ev) {
      match ev
      case Data(text) => DataKeeps(p, w, text);
      case ProcessClose(tail, success) => CloseKeeps(p, w, tail, success);
      case ReadBegin(limit, aborted) => BeginKeeps(p, w, limit, aborted);
      case ReadResume => ResumeKeeps(p, w);
      case _ => QuietKeeps(p, w, ev);
    }
  }

  lemma {:induction false} RunKeeps<C>(p: Provider<C>, evs: seq<Event>)
    ensures Inv(p, Run(p, evs))
  {
    if evs == [] {
      assert Terminated("") == [] && Tail("") == "";
    } else {
      RunKeeps(p, evs[..|evs| - 1]);
      NextKeeps(p, Run(p, evs[..|evs| - 1]), evs[|evs| - 1]);
    }
  }

  // ---- What every run delivers ----

  /**
   * However output is cut into chunks and reads interleave with it, the commits delivered and then the queue
   * are the batch parse of the whole records received, until a failure or an uncaught exception.
   */
  lemma {:induction false} DeliveredIsBatchParse<C>(p: Provider<C>, evs: seq<Event>)
    ensures var w := Run(p, evs);
            && w.delivered + w.c.queue == Accepted(p, Terminated(w.received))
            && (w.c.failure.None? && !w.down ==>
                  ParseHistory(p, WholeRecords(p.arity, w.received)) == Ok(w.delivered + w.c.queue))
  {
    RunKeeps(p, evs);
    ParseWholeRecords(p, Run(p, evs).received);
  }

  /** Two runs that received the same text have accounted for the same commits, whatever their chunks and reads. */
  lemma {:induction false} ChunkingIsInvisible<C>(p: Provider<C>, evs: seq<Event>, evs': seq<Event>)
    requires Run(p, evs).received == Run(p, evs').received
    ensures Run(p, evs).delivered + Run(p, evs).c.queue == Run(p, evs').delivered + Run(p, evs').c.queue
  {
    RunKeeps(p, evs);
    RunKeeps(p, evs');
  }

  /** A page marked done, when nobody closed the cursor, completes the batch parse of the whole stream. */
  lemma {:induction false} DoneIsTheWholeStream<C>(p: Provider<C>, evs: seq<Event>, ev: Event)
    requires var w := Run(p, evs); Enabled(w, ev) && !w.c.closed
    requires var out := Step(p, Run(p, evs).c, ev).1; out.Page? && out.done
    ensures var w := Next(p, Run(p, evs), ev);
            w.exited && ParseHistory(p, w.received) == Ok(w.delivered)
  {
    RunKeeps(p, evs);
    DoneStep(p, Run(p, evs), ev);
    NextKeeps(p, Run(p, evs), ev);
    CompleteStream(p, Next(p, Run(p, evs), ev));
  }

  lemma {:induction false} DoneStep<C>(p: Provider<C>, w: World<C>, ev: Event)
    requires Inv(p, w) && Enabled(w, ev) && !w.c.closed
    requires var out := Step(p, w.c, ev).1; out.Page? && out.done
    ensures var w' := Next(p, w, ev);
            w'.c.completed && w'.c.failure.None? && w'.c.queue == [] && !w'.down
  {
    assert ev.ReadBegin? || ev.ReadResume?;
  }

  lemma {:induction false} CompleteStream<C>(p: Provider<C>, w: World<C>)
    requires Inv(p, w) && w.c.completed && w.c.failure.None? && w.c.queue == [] && !w.down
    ensures w.exited && ParseHistory(p, w.received) == Ok(w.delivered)
  {
    assert w.delivered + w.c.queue == w.delivered;
    WholeRecordsCut(p.arity, w.received);
    assert Remainder(p.arity, Terminated(w.received)) == [] && Tail(w.received) == "";
    assert w.received == WholeRecords(p.arity, w.received);
    ParseWholeRecords(p, w.received);
  }

  /** A parked reader's wait condition holds and its producer is flowing; there is at most one waiter. */
  lemma {:induction false} ParkedReaderIsServed<C>(p: Provider<C>, evs: seq<Event>)
    requires !Run(p, evs).down
    ensures var c := Run(p, evs).c;
            && |c.waiters| <= 1
            && (c.waiters != {} <==> c.suspended.Some? && c.suspended.value.wait.Pending?)
            && (c.waiters != {} ==>
                  |c.queue| < c.suspended.value.target && !c.completed && !c.closed && !c.paused)
  {
    RunKeeps(p, evs);
  }

  /** What a read may return: its limit, at most 256, and for Jujutsu at least 1. */
  function Wanted<C>(p: Provider<C>, limit: int): int {
    if limit > 256 then 256 else if p.flavour.Jj? && limit < 1 then 1 else limit
  }

  /** What leaving or staying in the wait loop may report, for a read that wants `target` commits. */
  ghost predicate Answers<C>(c: Cursor<C>, out: Outcome<C>, target: int) {
    && (out.Parked? ==> c.suspended.Some? && c.suspended.value.target == target)
    && (out.Page? ==>
          var over := c.completed || c.closed;
          && (|out.commits| == target || (target < 0 && out.commits == [])
              || (over && |out.commits| < target && c.queue == []))
          && (out.done <==> over && c.queue == [])
          && (!over && |c.queue| < 256 ==> !c.paused))
  }

  lemma {:induction false} AdvanceAnswers<C>(p: Provider<C>, c: Cursor<C>, target: int, aborted: bool)
    ensures Answers(Advance(p, c, target, aborted).0, Advance(p, c, target, aborted).1, target)
  {
  }

  /**
   * A read that parks keeps its target. A page is as long as its target, or else the stream is over and the page
   * empties the queue; it is done exactly when the stream is over and nothing is left; and while the stream lives,
   * a page that leaves fewer than 256 commits leaves the producer flowing.
   */
  lemma {:induction false} PageIsFull<C>(p: Provider<C>, c: Cursor<C>, ev: Event)
    requires (ev.ReadBegin? && !c.reading) || (ev.ReadResume? && c.suspended.Some? && !c.suspended.value.wait.Pending?)
    ensures Answers(Step(p, c, ev).0, Step(p, c, ev).1,
                    if ev.ReadBegin? then Wanted(p, ev.limit) else c.suspended.value.target)
  {
    if ev.ReadBegin? {
      AdvanceAnswers(p, c.(reading := true), Target(p, ev.limit), ev.aborted);
    } else {
      AdvanceAnswers(p, c.(suspended := None), c.suspended.value.target, c.suspended.value.aborted);
    }
  }

  // ---- How long the queue can get ----

  /** The whole records among `count` fields. */
  function Records(n: Arity, count: nat): nat {
    if count < n then 0 else 1 + Records(n, count - n)
  }

  /** How many records a text completes, given what came before it. */
  function Closes(n: Arity, received: string, text: string): int {
    Records(n, |Terminated(received + text)|) - Records(n, |Terminated(received)|)
  }

  lemma {:induction false} AcceptedCount<C>(p: Provider<C>, fields: seq<string>)
    ensures |Accepted(p, fields)| <= Records(p.arity, |fields|)
    ensures Clean(p, fields) ==> |Accepted(p, fields)| == Records(p.arity, |fields|)
    decreases |fields|
  {
    var n := p.arity;
    if |fields| < n {
    } else if p.decode(fields[..n]).Ok? {
      AcceptedCount(p, fields[n..]);
    }
  }

  /** A text lengthens the queue by no more than the records it completes, and not at all after a bad record. */
  lemma {:induction false} ConsumeGrowth<C>(p: Provider<C>, w: World<C>, text: string)
    requires Accounted(p, w) && !w.down
    ensures var grown := |Consume(p, w.c, text).0.queue| - |w.c.queue|;
            if Intact(p, w.c) then grown <= Closes(p.arity, w.received, text) else grown == 0
  {
    var before, more := Terminated(w.received), Terminated(Tail(w.received) + text);
    ConsumeAccounted(p, w, text);
    TerminatedConcat(w.received, text);
    if Intact(p, w.c) {
      AcceptedCount(p, before);
      AcceptedCount(p, Terminated(w.received + text));
    } else {
      DirtyConcat(p, before, more, before + more);
    }
  }

  /** A text without a NUL completes nothing. */
  lemma {:induction false} NulFreeCloses(n: Arity, received: string, text: string)
    requires NUL !in text
    ensures Closes(n, received, text) == 0
  {
    TerminatedConcat(received, text);
    PiecesNulFree(received);
    SplitNone(Tail(received) + text, NUL);
  }

  /**
   * A step of a run in which the pause is respected: no data arrives while the producer is paused, and what the
   * decoder still held when the process closes, which is never a NUL, completes nothing; no text completes more
   * than `k` records.
   */
  ghost predicate Paced<C>(p: Provider<C>, w: World<C>, ev: Event, k: nat) {
    match ev
    case Data(text) => !w.c.paused && Closes(p.arity, w.received, text) <= k
    case ProcessClose(tail, _) => (w.c.paused ==> NUL !in tail) && Closes(p.arity, w.received, tail) <= k
    case _ => true
  }

  ghost predicate PacedRun<C>(p: Provider<C>, evs: seq<Event>, k: nat) {
    evs == [] || (PacedRun(p, evs[..|evs| - 1], k)
                  && (Enabled(Run(p, evs[..|evs| - 1]), evs[|evs| - 1]) ==>
                        Paced(p, Run(p, evs[..|evs| - 1]), evs[|evs| - 1], k)))
  }

  lemma {:induction false} PacedConsume<C>(p: Provider<C>, w: World<C>, text: string, k: nat)
    requires Inv(p, w) && !w.down && !w.exited && |w.c.queue| <= 511 + k
    requires Closes(p.arity, w.received, text) <= k && (w.c.paused ==> NUL !in text)
    ensures |Consume(p, w.c, text).0.queue| <= 511 + k
  {
    ConsumeGrowth(p, w, text);
    if w.c.paused { NulFreeCloses(p.arity, w.received, text); }
  }

  lemma {:induction false} AdvanceShortens<C>(p: Provider<C>, c: Cursor<C>, target: int, aborted: bool)
    ensures |Advance(p, c, target, aborted).0.queue| <= |c.queue|
  {
  }

  /** Nothing but text lengthens the queue. */
  lemma {:induction false} OthersShorten<C>(p: Provider<C>, c: Cursor<C>, ev: Event)
    requires !ev.Data? && !ev.ProcessClose? && (ev.Abort? ==> c.suspended.Some?)
    requires ev.ReadResume? ==> c.suspended.Some? && !c.suspended.value.wait.Pending?
    ensures |Step(p, c, ev).0.queue| <= |c.queue|
  {
    match ev
    case ReadBegin(limit, aborted) => AdvanceShortens(p, c.(reading := true), Target(p, limit), aborted);
    case ReadResume => AdvanceShortens(p, c.(suspended := None), c.suspended.value.target, c.suspended.value.aborted);
    case _ =>
  }

  lemma {:induction false} DataQueue<C>(p: Provider<C>, c: Cursor<C>, text: string)
    ensures OnData(p, c, text).0.queue == Consume(p, c, text).0.queue
  {
    var consumed := Consume(p, c, text);
  }

  lemma {:induction false} CloseQueue<C>(p: Provider<C>, c: Cursor<C>, tail: string, success: bool)
    ensures OnClose(p, c, tail, success).0.queue == c.queue
            || OnClose(p, c, tail, success).0.queue == Consume(p, c, tail).0.queue
  {
    SettleQueue(c, success);
    var (c1, error) := Consume(p, c, tail);
    SettleQueue(c1, success);
    if error.Some? { SettleQueue(c1.(failure := Some(Malformed(error.value))), success); }
  }

  lemma {:induction false} SettleQueue<C>(c: Cursor<C>, success: bool)
    ensures Settle(c, success).queue == c.queue
  {
  }

  lemma {:induction false} PacedStep<C>(p: Provider<C>, w: World<C>, ev: Event, k: nat)
    requires Inv(p, w) && |w.c.queue| <= 511 + k && Enabled(w, ev) && Paced(p, w, ev, k)
    ensures |Step(p, w.c, ev).0.queue| <= 511 + k
  {
    match ev
    case Data(text) =>
      PacedConsume(p, w, text, k);
      DataQueue(p, w.c, text);
    case ProcessClose(tail, success) =>
      PacedConsume(p, w, tail, k);
      CloseQueue(p, w.c, tail, success);
    case _ => OthersShorten(p, w.c, ev);
  }

  /**
   * In every run that respects the pause and in which no text completes more than `k` records, the queue never
   * holds more than 511 commits and those of one text, failures and the closing text included.
   */
  lemma {:induction false} QueueIsBounded<C>(p: Provider<C>, evs: seq<Event>, k: nat)
    requires PacedRun(p, evs, k)
    ensures |Run(p, evs).c.queue| <= 511 + k
  {
    if evs == [] {
    } else {
      var init := evs[..|evs| - 1];
      QueueIsBounded(p, init, k);
      RunKeeps(p, init);
      if Enabled(Run(p, init), evs[|evs| - 1]) { PacedStep(p, Run(p, init), evs[|evs| - 1], k); }
    }
  }

  /**
   * A Git data event escapes its handler exactly when it completes a record that does not parse; that is also
   * exactly when a parked reader is left registered although the event brought news. Jujutsu always wakes it.
   */
  lemma {:induction false} UncaughtExactlyOnBadRecord<C>(p: Provider<C>, evs: seq<Event>, text: string)
    requires Enabled(Run(p, evs), Data(text))
    ensures var w, w' := Run(p, evs), Next(p, Run(p, evs), Data(text));
            && (w'.down <==> p.flavour.Git? && !Clean(p, Terminated(w'.received)))
            && (w.c.waiters != {} ==> (w'.c.waiters != {} <==> w'.down))
  {
    RunKeeps(p, evs);
    ConsumeAccounted(p, Run(p, evs), text);
  }

  /**
   * When the process succeeds, the cursor accepts its output exactly when the batch parser would and the last
   * field of the last record is closed: only an unterminated final field separates the two.
   */
  lemma {:induction false} StreamIsStricterExactlyOnOpenField<C>(p: Provider<C>, evs: seq<Event>, tail: string)
    requires var w := Run(p, evs); Enabled(w, ProcessClose(tail, true)) && w.c.failure.None?
    ensures var w := Next(p, Run(p, evs), ProcessClose(tail, true));
            (w.c.failure.None? && !w.down) <==>
            ParseHistory(p, w.received).Ok? && |Terminated(w.received)| % p.arity != p.arity - 1
  {
    var w, w' := Run(p, evs), Next(p, Run(p, evs), ProcessClose(tail, true));
    RunKeeps(p, evs);
    ConsumeAccounted(p, w, tail);
    BatchAccepts(p, w'.received);
    RemainderIsMod(p.arity, Terminated(w'.received));
  }

  lemma {:induction false} WholeExactly(n: Arity, s: string)
    ensures WholeRecords(n, s) == s <==> Remainder(n, Terminated(s)) == [] && Tail(s) == ""
  {
    WholeRecordsCut(n, s);
    var whole, rest, tail := WholeRecords(n, s), Remainder(n, Terminated(s)), Tail(s);
    assert rest != [] ==> |Terminate(rest)| > 0;
    assert |s| == |whole| + |Terminate(rest)| + |tail|;
    if rest == [] && tail == "" {
      assert whole + "" + "" == whole;
    }
  }

  /**
   * The verdict when the process closes on a stream with no failure yet: a bad record is malformed, or escapes for
   * Git; otherwise output that does not end with a whole record is truncated, whatever the exit status; otherwise
   * an unsuccessful exit fails unless the cursor was closed first.
   */
  lemma {:induction false} CloseVerdict<C>(p: Provider<C>, evs: seq<Event>, tail: string, success: bool)
    requires Enabled(Run(p, evs), ProcessClose(tail, success)) && Run(p, evs).c.failure.None?
    ensures var w, w' := Run(p, evs), Next(p, Run(p, evs), ProcessClose(tail, success));
            && w'.received == w.received + tail
            && if !Clean(p, Terminated(w'.received)) then
                 if p.flavour.Git? then w'.down else w'.c.failure.Some? && w'.c.failure.value.Malformed?
               else
                 w'.c.failure ==
                   if WholeRecords(p.arity, w'.received) != w'.received then Some(TruncatedStream)
                   else if !success && !w.c.closed then Some(ProcessFailed)
                   else None
  {
    var w := Run(p, evs);
    RunKeeps(p, evs);
    ConsumeAccounted(p, w, tail);
    WholeExactly(p.arity, w.received + tail);
  }

  /** Exactly which texts the batch parser accepts. */
  lemma {:induction false} BatchAccepts<C>(p: Provider<C>, s: string)
    ensures var fields, open := Terminated(s), Tail(s);
            ParseHistory(p, s).Ok? <==>
            (|fields| % p.arity == 0 && open == "" && Clean(p, fields))
            || (|fields| % p.arity == p.arity - 1 && Clean(p, fields + [open]))
  {
    if s == "" {
      BatchOfNothing(p);
    } else {
      var fields, open := Terminated(s), Tail(s);
      assert Split(s, NUL) == fields + [open];
      NextMod(|fields|, p.arity);
      BatchOfSplit(p, s, fields, open, fields + [open]);
    }
  }

  lemma {:induction false} BatchOfNothing<C>(p: Provider<C>)
    ensures Terminated("") == [] && Tail("") == "" && ParseHistory(p, "").Ok? && Clean(p, []) && 0 % p.arity == 0
  {
    ModUnique(0, p.arity, 0, 0);
  }

  lemma {:induction false} BatchOfSplit<C>(
    p: Provider<C>, s: string, fields: seq<string>, open: string, split: seq<string>)
    requires s != "" && split == fields + [open] && Split(s, NUL) == split
    requires |split| % p.arity == if |fields| % p.arity == p.arity - 1 then 0 else |fields| % p.arity + 1
    ensures ParseHistory(p, s).Ok? <==>
            (|fields| % p.arity == 0 && open == "" && Clean(p, fields))
            || (|fields| % p.arity == p.arity - 1 && Clean(p, split))
  {
    assert split[..|split| - 1] == fields && split[|split| - 1] == open;
    if |split| % p.arity == 1 && open == "" {
      DecodesIffClean(p, fields);
    } else {
      DecodesIffClean(p, split);
    }
  }
}
