/** The cursor object behind `openGitHistory` and `openJjHistory`: its fields, handlers and reads. */
module HistorySource {
  import opened Wrappers
  import opened Text
  import opened HistoryParser
  import Model = HistoryCursor
  import Theorems = HistoryTheorems
  import Records = HistoryRecords

  class HistorySource<C> {
    const p: Provider<C>
    var queue: seq<C>
    var fields: seq<string>
    var buffered: string
    var completed: bool
    var closed: bool
    var failure: Option<Model.Failure>
    var reading: bool
    var waiters: set<nat>
    // The stream's flow and the one `read` the JavaScript runtime may be holding suspended.
    var paused: bool
    var suspended: Option<Model.Suspension>
    var nextTicket: nat

    ghost function State(): Model.Cursor<C>
      reads this
    {
      Model.Cursor(queue, fields, buffered, completed, closed, failure, reading, waiters, paused, suspended, nextTicket)
    }

    /** Fields were cut at NULs, so none contains one. */
    ghost predicate Valid()
      reads this
    {
      forall f <- fields :: NUL !in f
    }

    constructor (p: Provider<C>)
      ensures this.p == p && Valid() && State() == Model.Start()
    {
      this.p := p;
      queue, fields, buffered := [], [], "";
      completed, closed, failure, reading := false, false, None, false;
      waiters, paused, suspended, nextTicket := {}, false, None, 0;
    }

    method Wake()
      requires Valid()
      modifies this`waiters, this`suspended
      ensures Valid() && State() == Model.Wake(old(State()))
    {
      var rest := waiters;
      while rest != {}
        invariant rest <= waiters
        invariant waiters == old(waiters)
        invariant suspended == Model.Wake(old(State()).(waiters := waiters - rest)).suspended
        decreases rest
      {
        var waiter :| waiter in rest;
        if suspended.Some? && suspended.value.wait.Pending? && suspended.value.ticket == waiter {
          suspended := Some(suspended.value.(wait := Model.Resolved));
        }
        rest := rest - {waiter};
      }
      waiters := {};
    }

    /** Parse the record held in `fields` once it has all its fields. */
    method CompleteRecord() returns (error: Option<Error>)
      requires Valid() && |fields| == p.arity
      modifies this`queue, this`fields
      ensures Valid()
      ensures match p.decode(old(fields))
              case Err(e) => error == Some(e) && queue == old(queue) && fields == old(fields)
              case Ok(commit) => error == None && queue == old(queue) + [commit] && fields == []
    {
      JoinedRecord(fields);
      var parsed := ParseBatch(p, Join(fields, [NUL]) + [NUL]);
      match parsed {
        case Err(e) =>
          error := Some(e);
        case Ok(commits) =>
          queue := queue + commits;
          fields := [];
          error := None;
      }
    }

    /** The loop of `consume`: cut fields off the buffer and complete records with them. */
    method Drain() returns (error: Option<Error>)
      requires Valid()
      modifies this`queue, this`fields, this`buffered
      ensures Valid()
      ensures var a := Model.Absorb(p, old(queue), old(fields), Terminated(old(buffered)));
              && queue == a.queue && fields == a.fields && error == a.error
              && buffered == Join(a.rest + [Tail(old(buffered))], [NUL])
    {
      while true
        invariant Valid()
        invariant Model.Absorb(p, queue, fields, Terminated(buffered))
               == Model.Absorb(p, old(queue), old(fields), Terminated(old(buffered)))
        invariant Tail(buffered) == Tail(old(buffered))
        decreases |buffered|
      {
        var delimiter := IndexOf(buffered, NUL);
        if delimiter < 0 {
          SplitNone(buffered, NUL);
          assert Terminated(buffered) == [] && Tail(buffered) == buffered;
          assert [] + [buffered] == [buffered];
          return None;
        }
        AbsorbField(queue, fields, buffered, delimiter);
        fields := fields + [buffered[..delimiter]];
        buffered := buffered[delimiter + 1..];
        if |fields| == p.arity {
          var bad := CompleteRecord();
          if bad.Some? {
            Layout(buffered);
            return bad;
          }
        }
      }
    }

    method Consume(text: string) returns (error: Option<Error>)
      requires Valid()
      modifies this
      ensures Valid() && (State(), error) == Model.Consume(p, old(State()), text)
    {
      buffered := buffered + text;
      error := Drain();
      if error.None? { Wake(); }
    }

    lemma {:induction false} Layout(s: string)
      ensures Join(Terminated(s) + [Tail(s)], [NUL]) == s
    {
      StreamLayout(s);
      JoinLayout(Terminated(s), Tail(s));
    }

    /** Cutting at the first NUL closes exactly one field, and the reassembler takes it next. */
    lemma {:induction false} AbsorbField(queue: seq<C>, fields: seq<string>, s: string, delimiter: nat)
      requires delimiter < |s| && s[delimiter] == NUL && NUL !in s[..delimiter]
      ensures var grown, rest := fields + [s[..delimiter]], s[delimiter + 1..];
              && Tail(s) == Tail(rest)
              && Model.Absorb(p, queue, fields, Terminated(s))
                 == if |grown| != p.arity then Model.Absorb(p, queue, grown, Terminated(rest))
                    else if p.decode(grown).Ok? then Model.Absorb(p, queue + [p.decode(grown).value], [], Terminated(rest))
                    else Model.Absorbed(queue, grown, Terminated(rest), Some(p.decode(grown).error))
    {
      var rest := s[delimiter + 1..];
      assert s == s[..delimiter] + [NUL] + rest;
      SplitFirst(s[..delimiter], NUL, rest);
      assert Terminated(s) == [s[..delimiter]] + Terminated(rest);
      assert Terminated(s)[1..] == Terminated(rest);
    }

    /** One record handed to the batch parser decodes to that record. */
    lemma {:induction false} JoinedRecord(record: seq<string>)
      requires |record| == p.arity && forall f <- record :: NUL !in f
      ensures ParseHistory(p, Join(record, [NUL]) + [NUL])
              == match p.decode(record) case Err(e) => Err(e) case Ok(commit) => Ok([commit])
    {
      JoinClosed(record);
      OneRecord(record);
      Theorems.ParseTerminated(p, record);
    }

    lemma {:induction false} JoinClosed(record: seq<string>)
      requires record != []
      ensures Join(record, [NUL]) + [NUL] == Terminate(record)
    {
      var last := |record| - 1;
      JoinLayout(record[..last], record[last]);
      TerminateConcat(record[..last], [record[last]], record[..last] + [record[last]]);
      assert record[..last] + [record[last]] == record;
      assert Terminate([record[last]]) == record[last] + [NUL];
    }

    lemma {:induction false} OneRecord(record: seq<string>)
      requires |record| == p.arity
      ensures Theorems.Remainder(p.arity, record) == []
      ensures DecodeAll(p, record)
              == match p.decode(record) case Err(e) => Err(e) case Ok(commit) => Ok([commit])
    {
      assert record[p.arity..] == [] && record[..p.arity] == record;
      var r := p.decode(record);
      assert r.Ok? ==> [r.value] + [] == [r.value];
    }

    method OnData(text: string) returns (out: Model.Outcome<C>)
      requires Valid()
      modifies this
      ensures Valid() && (State(), out) == Model.OnData(p, old(State()), text)
    {
      var error := Consume(text);
      match error {
        case None =>
          if |queue| >= 512 { paused := true; }
          out := Model.Silent;
        case Some(e) =>
          if p.flavour.Jj? {
            failure := Some(Model.Malformed(e));
            completed := true;
            Wake();
            out := Model.Silent;
          } else {
            out := Model.Uncaught(e);
          }
      }
    }

    method OnError()
      requires Valid()
      modifies this
      ensures Valid() && State() == Model.OnError(old(State()))
    {
      failure := Some(Model.SpawnFailed);
      completed := true;
      Wake();
    }

    method OnClose(tail: string, success: bool) returns (out: Model.Outcome<C>)
      requires Valid()
      modifies this
      ensures Valid() && (State(), out) == Model.OnClose(p, old(State()), tail, success)
    {
      if !(p.flavour.Jj? && failure.Some?) {
        var error := Consume(tail);
        if error.Some? {
          if p.flavour.Git? { return Model.Uncaught(error.value); }
          failure := Some(Model.Malformed(error.value));
        }
      }
      if failure.None? && (|fields| > 0 || |buffered| > 0) {
        failure := Some(Model.TruncatedStream);
      } else if failure.None? && !success && !closed {
        failure := Some(Model.ProcessFailed);
      }
      completed := true;
      Wake();
      out := Model.Silent;
    }

    method Close()
      requires Valid()
      modifies this
      ensures Valid() && State() == Model.Stop(old(State()))
    {
      if closed { return; }
      closed := true;
      Wake();
    }

    method WaitForData(target: int, aborted: bool)
      requires Valid() && suspended.None?
      modifies this
      ensures Valid() && State() == Model.WaitForData(p, old(State()), target, aborted)
    {
      if aborted {
        if p.flavour.Jj? { Close(); }
        suspended := Some(Model.Suspension(target, true, nextTicket, Model.Rejected));
      } else {
        suspended := Some(Model.Suspension(target, false, nextTicket, Model.Pending));
        waiters := waiters + {nextTicket};
      }
      nextTicket := nextTicket + 1;
    }

    /** The body of `read` from the head of its wait loop. */
    method Advance(target: int, aborted: bool) returns (out: Model.Outcome<C>)
      requires Valid() && suspended.None?
      modifies this
      ensures Valid() && (State(), out) == Model.Advance(p, old(State()), target, aborted)
    {
      if |queue| < target && !completed && !closed {
        WaitForData(target, aborted);
        return Model.Parked;
      }
      reading := false;
      if aborted { return Model.Threw(Model.ReadAborted); }
      if failure.Some? { return Model.Threw(Model.StreamFailed(failure.value)); }
      var n := Model.Taken(target, |queue|);
      var commits := queue[..n];
      queue := queue[n..];
      if !completed && !closed && |queue| < 256 { paused := false; }
      out := Model.Page(commits, (completed || closed) && |queue| == 0);
    }

    method ReadBegin(limit: int, aborted: bool) returns (out: Model.Outcome<C>)
      requires Valid() && (!reading ==> suspended.None?)
      modifies this
      ensures Valid() && (State(), out) == Model.OnReadBegin(p, old(State()), limit, aborted)
    {
      if reading { return Model.Threw(Model.ConcurrentRead); }
      if p.flavour.Jj? && aborted {
        Close();
        return Model.Threw(Model.ReadAborted);
      }
      reading := true;
      out := Advance(Model.Target(p, limit), aborted);
    }

    /** The continuation of a suspended `read`, once its promise has settled. */
    method ReadResume() returns (out: Model.Outcome<C>)
      requires Valid() && suspended.Some? && !suspended.value.wait.Pending?
      modifies this
      ensures Valid() && (State(), out) == Model.OnReadResume(p, old(State()))
    {
      var s := suspended.value;
      suspended := None;
      if s.wait.Rejected? {
        reading := false;
        return Model.Threw(Model.ReadAborted);
      }
      out := Advance(s.target, s.aborted);
    }

    method Abort()
      requires Valid() && suspended.Some?
      modifies this
      ensures Valid() && State() == Model.OnAbort(p, old(State()))
    {
      var s := suspended.value;
      if s.wait.Pending? {
        waiters := waiters - {s.ticket};
        if p.flavour.Jj? { Close(); }
        suspended := Some(s.(aborted := true, wait := Model.Rejected));
      } else {
        suspended := Some(s.(aborted := true));
      }
    }
  }

  function GitProvider(labels: map<string, seq<Records.Decoration>>, firstParent: bool, omitGraph: bool)
    : Provider<Records.Commit>
  {
    Provider(Git, 8, fields => Records.DecodeGit(labels, firstParent, omitGraph, fields))
  }

  function JjProvider(firstParent: bool, omitGraph: bool): Provider<Records.Commit> {
    Provider(Jj, 13, fields => Records.DecodeJj(firstParent, omitGraph, fields))
  }

  /** A text in a two-byte encoding, as it reads one byte at a time: each character and then a NUL. */
  function Widened(text: string): string {
    if text == "" then "" else [text[0], NUL] + Widened(text[1..])
  }

  function Singly(text: string): seq<string> { seq(|text|, i requires 0 <= i < |text| => [text[i]]) }

  lemma {:induction false} WidenedSingly(text: string)
    ensures Widened(text) == Terminate(Singly(text))
  {
    if text == "" {
    } else {
      WidenedSingly(text[1..]);
      assert Singly(text)[1..] == Singly(text[1..]);
      assert [text[0]] + [NUL] == [text[0], NUL];
    }
  }

  /** Every character of a commit id comes off as a field of its own. */
  lemma {:induction false} WidenedFields(id: string, more: string)
    requires Records.FullId(id)
    ensures var fields := Terminated(Widened(id) + more); |fields| >= 40 && fields[0] == [id[0]]
  {
    var fields := Singly(id);
    forall f <- fields ensures NUL !in f {
      var i :| 0 <= i < |id| && f == [id[i]];
      assert id[i] in id && Records.Hex(id[i]);
    }
    WidenedSingly(id);
    SplitTerminate(fields);
    assert (fields + [""])[..|fields|] == fields;
    TerminatedConcat(Widened(id), more);
  }

  /**
   * `i18n.logOutputEncoding` may be a two-byte encoding, and then the output that starts with a commit's id strands a
   * reader parked on Git's history: the exception is not caught, and the reader is left registered.
   */
  lemma {:induction false} WideLogStrandsReader(
    labels: map<string, seq<Records.Decoration>>, firstParent: bool, omitGraph: bool, id: string, more: string)
    requires Records.FullId(id)
    ensures var w := Model.Run(GitProvider(labels, firstParent, omitGraph),
                               [Model.ReadBegin(1, false), Model.Data(Widened(id) + more)]);
            w.down && w.c.waiters != {}
  {
    var p := GitProvider(labels, firstParent, omitGraph);
    var parked, text := [Model.ReadBegin(1, false)], Widened(id) + more;
    var evs := parked + [Model.Data(text)];
    assert parked[..0] == [] && evs[..1] == parked;
    var w := Model.Run(p, parked);
    assert w == Model.Next(p, Model.Begin(), parked[0]);
    Theorems.UncaughtExactlyOnBadRecord(p, parked, text);
    assert w.received + text == text;
    WidenedFields(id, more);
    ShortIdRejected(labels, firstParent, omitGraph, Terminated(text)[..8]);
  }

  /** However such output is cut and read, it brings no commit, and ends in the exception. */
  lemma {:induction false} WideLogBringsNothing(
    labels: map<string, seq<Records.Decoration>>, firstParent: bool, omitGraph: bool, id: string, more: string,
    evs: seq<Model.Event>)
    requires Records.FullId(id)
    requires Model.Run(GitProvider(labels, firstParent, omitGraph), evs).received == Widened(id) + more
    ensures var w := Model.Run(GitProvider(labels, firstParent, omitGraph), evs);
            w.down && w.delivered == [] && w.c.queue == []
  {
    Theorems.RunKeeps(GitProvider(labels, firstParent, omitGraph), evs);
    WidenedFields(id, more);
    ShortIdRejected(labels, firstParent, omitGraph, Terminated(Widened(id) + more)[..8]);
  }

  lemma {:induction false} ShortIdRejected(
    labels: map<string, seq<Records.Decoration>>, firstParent: bool, omitGraph: bool, record: seq<string>)
    requires |record| == 8 && |record[0]| == 1
    ensures Records.DecodeGit(labels, firstParent, omitGraph, record).Err?
  {
  }

  /** The fields of a whole log, record after record. */
  function LogFields(records: seq<seq<string>>): seq<string> {
    if records == [] then [] else records[0] + LogFields(records[1..])
  }

  ghost predicate Decodes<C>(p: Provider<C>, records: seq<seq<string>>, commits: seq<C>) {
    |records| == |commits| && forall i | 0 <= i < |records| :: |records[i]| == p.arity && p.decode(records[i]) == Ok(commits[i])
  }

  /** Whenever a run has received a log, in whatever chunks, it has delivered and queued what its records decode to. */
  lemma {:induction false} LogDelivered<C>(
    p: Provider<C>, records: seq<seq<string>>, commits: seq<C>, evs: seq<Model.Event>, log: seq<string>)
    requires Decodes(p, records, commits) && log == LogFields(records) && forall f <- log :: NUL !in f
    requires Model.Run(p, evs).received == Terminate(log)
    ensures Model.Run(p, evs).delivered + Model.Run(p, evs).c.queue == commits
  {
    Theorems.RunKeeps(p, evs);
    SplitTerminate(log);
    assert Terminated(Terminate(log)) == log;
    LogAccepted(p, records, commits, log);
  }

  lemma {:induction false} LogAccepted<C>(p: Provider<C>, records: seq<seq<string>>, commits: seq<C>, log: seq<string>)
    requires Decodes(p, records, commits) && log == LogFields(records)
    ensures Theorems.Accepted(p, log) == commits
  {
    if records == [] {
    } else {
      var rest := LogFields(records[1..]);
      LogAccepted(p, records[1..], commits[1..], rest);
      Theorems.Peel(p, records[0], rest, log);
      assert [commits[0]] + commits[1..] == commits;
    }
  }

  /**
   * End to end for Git: whenever a run has received the log printed for `entries`, in whatever chunks, the commits
   * delivered and then queued are those that stand for them.
   */
  lemma {:induction false} GitLogRoundTrip(
    labels: map<string, seq<Records.Decoration>>, firstParent: bool, omitGraph: bool,
    entries: seq<Records.GitEntry>, evs: seq<Model.Event>)
    requires forall e <- entries :: Records.GitPrints(e)
    requires var log := LogFields(seq(|entries|, i requires 0 <= i < |entries| => Records.GitFields(entries[i])));
             (forall f <- log :: NUL !in f)
             && Model.Run(GitProvider(labels, firstParent, omitGraph), evs).received == Terminate(log)
    ensures var w := Model.Run(GitProvider(labels, firstParent, omitGraph), evs);
            w.delivered + w.c.queue
            == seq(|entries|, i requires 0 <= i < |entries| =>
                 Records.GitShownAs(entries[i], labels, firstParent, omitGraph))
  {
    var p := GitProvider(labels, firstParent, omitGraph);
    var records := seq(|entries|, i requires 0 <= i < |entries| => Records.GitFields(entries[i]));
    var commits := seq(|entries|, i requires 0 <= i < |entries| =>
      Records.GitShownAs(entries[i], labels, firstParent, omitGraph));
    forall i | 0 <= i < |records| ensures |records[i]| == p.arity && p.decode(records[i]) == Ok(commits[i]) {
      assert entries[i] in entries;
      Records.GitRecordRoundTrip(entries[i], labels, firstParent, omitGraph);
    }
    LogDelivered(p, records, commits, evs, LogFields(records));
  }

  /** End to end for Jujutsu: the log printed for `revisions` delivers and queues the commits that stand for them. */
  lemma {:induction false} JjLogRoundTrip(
    firstParent: bool, omitGraph: bool, revisions: seq<Records.Revision>, evs: seq<Model.Event>)
    requires forall r <- revisions :: Records.JjRevision(r)
    requires var log := LogFields(seq(|revisions|, i requires 0 <= i < |revisions| => Records.JjFields(revisions[i])));
             (forall f <- log :: NUL !in f)
             && Model.Run(JjProvider(firstParent, omitGraph), evs).received == Terminate(log)
    ensures var w := Model.Run(JjProvider(firstParent, omitGraph), evs);
            w.delivered + w.c.queue
            == seq(|revisions|, i requires 0 <= i < |revisions| => Records.ShownAs(revisions[i], firstParent, omitGraph))
  {
    var p := JjProvider(firstParent, omitGraph);
    var records := seq(|revisions|, i requires 0 <= i < |revisions| => Records.JjFields(revisions[i]));
    var commits := seq(|revisions|, i requires 0 <= i < |revisions| =>
      Records.ShownAs(revisions[i], firstParent, omitGraph));
    forall i | 0 <= i < |records| ensures |records[i]| == p.arity && p.decode(records[i]) == Ok(commits[i]) {
      assert revisions[i] in revisions;
      Records.JjRecordRoundTrip(revisions[i], firstParent, omitGraph);
    }
    LogDelivered(p, records, commits, evs, LogFields(records));
  }
}
