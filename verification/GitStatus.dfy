/** Parsing `git status --porcelain=v2 -z`, where a rename record consumes the record after it. */
module GitStatus {
  import opened Wrappers
  import opened Text

  const MAX_PATHS := 20_000

  datatype Error =
    | TruncatedOutput | UnsupportedRecord | IncompleteRecord | EmptyPath | IncompleteHeader | DuplicatePath
    | TooManyPaths | InvalidStates | IncompleteRename | IncompleteIdentity

  datatype PathState =
    | Unchanged | Modified | Added | Deleted | Renamed | Copied | TypeChanged | Unmerged | Untracked

  datatype Submodule = Submodule(commitChanged: bool, trackedChanges: bool, untrackedChanges: bool)

  datatype PathEntry = PathEntry(
    path: string, previousPath: Option<string>, index: PathState, worktree: PathState, conflict: bool,
    submodule: Option<Submodule>)

  datatype Head = Unborn(name: string) | Detached(revisionId: string) | Branch(name: string, revisionId: string)

  datatype Status = Status(paths: seq<PathEntry>, head: Head, upstream: Option<string>, divergence: Option<string>)

  function StateOf(c: char): Option<PathState> {
    match c
    case '.' => Some(Unchanged)
    case 'M' => Some(Modified)
    case 'A' => Some(Added)
    case 'D' => Some(Deleted)
    case 'R' => Some(Renamed)
    case 'C' => Some(Copied)
    case 'T' => Some(TypeChanged)
    case 'U' => Some(Unmerged)
    case '?' => Some(Untracked)
    case _ => None
  }

  /** The letter Git prints for a state. */
  function LetterOf(state: PathState): (c: char)
    ensures StateOf(c) == Some(state) && c != ' ' && c != NUL
  {
    match state
    case Unchanged => '.'
    case Modified => 'M'
    case Added => 'A'
    case Deleted => 'D'
    case Renamed => 'R'
    case Copied => 'C'
    case TypeChanged => 'T'
    case Unmerged => 'U'
    case Untracked => '?'
  }

  /** `^(N\.\.\.|S[.C][.M][.U])$`, read as what it says of the submodule. */
  function SubmoduleOf(sub: string): Option<Option<Submodule>> {
    if sub == "N..." then Some(None)
    else if |sub| == 4 && sub[0] == 'S' && sub[1] in ".C" && sub[2] in ".M" && sub[3] in ".U" then
      Some(Some(Submodule(sub[1] == 'C', sub[2] == 'M', sub[3] == 'U')))
    else None
  }

  datatype Cut = Cut(fields: seq<string>, path: string)

  function Prefixed(fields: seq<string>, r: Result<Cut, Error>): Result<Cut, Error> {
    match r
    case Err(e) => Err(e)
    case Ok(cut) => Ok(Cut(fields + cut.fields, cut.path))
  }

  lemma {:induction false} PrefixMore(fields: seq<string>, field: string, r: Result<Cut, Error>)
    ensures Prefixed(fields, Prefixed([field], r)) == Prefixed(fields + [field], r)
    ensures Prefixed([], r) == r
  {
    if r.Ok? {
      assert fields + ([field] + r.value.fields) == fields + [field] + r.value.fields;
      assert [] + r.value.fields == r.value.fields;
    }
  }

  /** The first `count` space-ended fields, and the rest as the path. */
  function FieldsAndPath(record: string, count: nat): Result<Cut, Error>
    decreases count
  {
    if count == 0 then if record == "" then Err(EmptyPath) else Ok(Cut([], record))
    else
      var end := IndexOf(record, ' ');
      if end < 0 then Err(IncompleteRecord)
      else Prefixed([record[..end]], FieldsAndPath(record[end + 1..], count - 1))
  }

  /** `tail` is what cutting `count` more fields from `offset` gives. */
  ghost predicate Remains(record: string, offset: nat, count: nat, tail: Result<Cut, Error>) {
    offset <= |record| && tail == FieldsAndPath(record[offset..], count)
  }

  lemma {:induction false} CutNext(
      record: string, offset: nat, count: nat, end: int, fields: seq<string>, tail: Result<Cut, Error>)
    returns (next: Result<Cut, Error>)
    requires Remains(record, offset, count, tail) && count > 0 && end == IndexFrom(record, ' ', offset)
    ensures end < 0 ==> Prefixed(fields, tail) == Err(IncompleteRecord)
    ensures end >= 0 ==> offset <= end < |record| && Remains(record, end + 1, count - 1, next)
                         && Prefixed(fields, tail) == Prefixed(fields + [record[offset..end]], next)
  {
    next := tail;
    if end >= 0 {
      var rest, field := record[offset..], record[offset..end];
      next := FieldsAndPath(record[end + 1..], count - 1);
      assert rest[end - offset + 1..] == record[end + 1..] && rest[..end - offset] == field;
      PrefixMore(fields, field, next);
    }
  }

  lemma {:induction false} CutDone(record: string, offset: nat, fields: seq<string>, tail: Result<Cut, Error>)
    requires Remains(record, offset, 0, tail)
    ensures Prefixed(fields, tail)
            == if record[offset..] == "" then Err(EmptyPath) else Ok(Cut(fields, record[offset..]))
  {
    assert fields + [] == fields;
  }

  lemma {:induction false} CutStart(record: string, count: nat) returns (tail: Result<Cut, Error>)
    ensures Remains(record, 0, count, tail) && tail == FieldsAndPath(record, count) && Prefixed([], tail) == tail
  {
    tail := FieldsAndPath(record, count);
    assert record[0..] == record;
    PrefixMore([], "", tail);
  }

  /** The loop of `fieldsAndPath`. */
  method CutFields(record: string, count: nat) returns (r: Result<Cut, Error>)
    ensures r == FieldsAndPath(record, count)
  {
    var fields: seq<string> := [];
    var offset := 0;
    ghost var whole := CutStart(record, count);
    ghost var tail := whole;
    for i := 0 to count
      invariant Remains(record, offset, count - i, tail) && whole == Prefixed(fields, tail)
    {
      var end := IndexFrom(record, ' ', offset);
      tail := CutNext(record, offset, count - i, end, fields, tail);
      if end < 0 { return Err(IncompleteRecord); }
      fields := fields + [record[offset..end]];
      offset := end + 1;
    }
    var path := record[offset..];
    CutDone(record, offset, fields, tail);
    if path == "" { return Err(EmptyPath); }
    r := Ok(Cut(fields, path));
  }

  /** What has been read so far: headers, entries, and the paths already seen. */
  datatype Progress = Progress(headers: map<string, string>, paths: seq<PathEntry>, seen: set<string>)

  /** Fields before the path, by record kind. */
  function FieldCount(kind: char): Option<nat> {
    match kind
    case '1' => Some(8)
    case '2' => Some(9)
    case 'u' => Some(10)
    case '?' => Some(1)
    case _ => None
  }

  /** `# name value`. */
  function ParseHeader(record: string): Option<(string, string)>
    requires StartsWith(record, "# ")
  {
    var end := IndexOf(record[2..], ' ');
    if end < 0 then None else Some((record[2..end + 2], record[end + 3..]))
  }

  /** The entry a changed record describes, once its path and any rename source are known. */
  function Describe(kind: char, fields: seq<string>, path: string, previous: Option<string>): Option<PathEntry>
    requires |fields| >= 3
  {
    var xy, sub := fields[1], SubmoduleOf(fields[2]);
    if |xy| != 2 || StateOf(xy[0]).None? || StateOf(xy[1]).None? || sub.None? then None
    else Some(PathEntry(path, previous, StateOf(xy[0]).value, StateOf(xy[1]).value, kind == 'u', sub.value))
  }

  /** Where one record leaves the reader, and whether it took the next record as its rename source. */
  datatype Reading = Reading(so: Progress, tookNext: bool)

  /** What the fields and path of a record of one kind add. */
  function ReadCut(kind: char, cut: Cut, next: Option<string>, so: Progress): Result<Reading, Error> {
    var fields, path := cut.fields, cut.path;
    if path in so.seen then Err(DuplicatePath)
    else if |so.paths| >= MAX_PATHS then Err(TooManyPaths)
    else if kind == '?' then Ok(Reading(Note(so, PathEntry(path, None, Unchanged, Untracked, false, None)), false))
    else if |fields| < 3 || Describe(kind, fields, path, None).None? then Err(InvalidStates)
    else if kind == '2' && next.GetOr("") == "" then Err(IncompleteRename)
    else
      var previous := if kind == '2' then next else None;
      Ok(Reading(Note(so, Describe(kind, fields, path, previous).value), kind == '2'))
  }

  function ReadRecord(record: string, next: Option<string>, so: Progress): Result<Reading, Error> {
    if StartsWith(record, "# ") then
      match ParseHeader(record)
      case None => Err(IncompleteHeader)
      case Some((name, value)) => Ok(Reading(so.(headers := so.headers[name := value]), false))
    else if record == "" || FieldCount(record[0]).None? then Err(UnsupportedRecord)
    else
      match FieldsAndPath(record, FieldCount(record[0]).value)
      case Err(e) => Err(e)
      case Ok(cut) => ReadCut(record[0], cut, next, so)
  }

  /** The record loop: each record alone, except that a rename takes the next record as its source. */
  function ParseRecords(records: seq<string>, so: Progress): Result<Progress, Error>
    decreases |records|
  {
    if records == [] then Ok(so)
    else
      match ReadRecord(records[0], if |records| > 1 then Some(records[1]) else None, so)
      case Err(e) => Err(e)
      case Ok(Reading(so', tookNext)) =>
        ParseRecords(if tookNext && |records| > 1 then records[2..] else records[1..], so')
  }

  function Note(so: Progress, entry: PathEntry): Progress {
    so.(paths := so.paths + [entry], seen := so.seen + {entry.path})
  }

  function Lookup(headers: map<string, string>, name: string): Option<string> {
    if name in headers then Some(headers[name]) else None
  }

  predicate HexId(s: string) {
    (|s| == 40 || |s| == 64) && forall c <- s :: '0' <= c <= '9' || 'a' <= c <= 'f'
  }

  /** The identity headers, checked once every record is read. */
  function Finish(so: Progress): Result<Status, Error> {
    var oid, branch := Lookup(so.headers, "branch.oid").GetOr(""), Lookup(so.headers, "branch.head").GetOr("");
    if oid == "" || branch == "" || (oid != "(initial)" && !HexId(oid)) then Err(IncompleteIdentity)
    else
      var head :=
        if oid == "(initial)" then Unborn(branch)
        else if branch == "(detached)" then Detached(oid)
        else Branch(branch, oid);
      Ok(Status(so.paths, head, Lookup(so.headers, "branch.upstream"), Lookup(so.headers, "branch.ab")))
  }

  function ParseStatus(text: string): Result<Status, Error> {
    if text != "" && !EndsWith(text, [NUL]) then Err(TruncatedOutput)
    else
      match ParseRecords(Terminated(text), START)
      case Err(e) => Err(e)
      case Ok(so) => Finish(so)
  }

  /** `whole` is what reading the records from `i` on gives. */
  ghost predicate Left(records: seq<string>, i: nat, so: Progress, whole: Result<Progress, Error>) {
    i <= |records| && whole == ParseRecords(records[i..], so)
  }

  function Following(records: seq<string>, i: nat): Option<string> {
    if i + 1 < |records| then Some(records[i + 1]) else None
  }

  /** One record read: the reading either ends the whole, or moves past one record or two. */
  lemma {:induction false} LeftAfter(
      records: seq<string>, i: nat, so: Progress, whole: Result<Progress, Error>, read: Result<Reading, Error>)
    requires i < |records| && Left(records, i, so, whole)
    requires read == ReadRecord(records[i], Following(records, i), so)
    ensures read.Err? ==> whole == Err(read.error)
    ensures read.Ok? ==> Left(records, i + (if read.value.tookNext then 2 else 1), read.value.so, whole)
  {
  }

  const START := Progress(map[], [], {})

  /** The record loop of `parseGitStatus`, past the cutting of one record: check the entry and note it. */
  method ReadEntry(kind: char, cut: Cut, next: Option<string>, paths: seq<PathEntry>, seen: set<string>)
    returns (r: Result<PathEntry, Error>)
    ensures forall headers ::
              ReadCut(kind, cut, next, Progress(headers, paths, seen))
              == if r.Err? then Err(r.error)
                 else Ok(Reading(Progress(headers, paths + [r.value], seen + {cut.path}), kind == '2'))
    ensures r.Ok? ==> r.value.path == cut.path && (kind == '2' ==> next.Some?)
  {
    var fields, path := cut.fields, cut.path;
    if path in seen { return Err(DuplicatePath); }
    if |paths| >= MAX_PATHS { return Err(TooManyPaths); }
    if kind == '?' { return Ok(PathEntry(path, None, Unchanged, Untracked, false, None)); }
    if |fields| < 3 || Describe(kind, fields, path, None).None? { return Err(InvalidStates); }
    var previousPath: Option<string> := None;
    if kind == '2' {
      if next.GetOr("") == "" { return Err(IncompleteRename); }
      previousPath := next;
    }
    r := Ok(Describe(kind, fields, path, previousPath).value);
  }

  /** The record loop of `parseGitStatus`: an index that a rename advances twice. */
  method ReadRecords(records: seq<string>, ghost whole: Result<Progress, Error>) returns (r: Result<Progress, Error>)
    requires Left(records, 0, START, whole)
    ensures r == whole
  {
    var headers: map<string, string> := map[];
    var paths: seq<PathEntry> := [];
    var seen: set<string> := {};
    var i := 0;
    while i < |records|
      invariant Left(records, i, Progress(headers, paths, seen), whole)
    {
      var record := records[i];
      ghost var so := Progress(headers, paths, seen);
      LeftAfter(records, i, so, whole, ReadRecord(record, Following(records, i), so));
      if StartsWith(record, "# ") {
        var header := ParseHeader(record);
        if header.None? { return Err(IncompleteHeader); }
        headers := headers[header.value.0 := header.value.1];
        i := i + 1;
        continue;
      }
      if record == "" || FieldCount(record[0]).None? { return Err(UnsupportedRecord); }
      var cut := CutFields(record, FieldCount(record[0]).value);
      if cut.Err? { return Err(cut.error); }
      var entry := ReadEntry(record[0], cut.value, Following(records, i), paths, seen);
      if entry.Err? { return Err(entry.error); }
      seen := seen + {cut.value.path};
      paths := paths + [entry.value];
      i := i + (if record[0] == '2' then 2 else 1);
    }
    r := Ok(Progress(headers, paths, seen));
  }

  /** `parseGitStatus` as written. */
  method ParseGitStatus(text: string) returns (r: Result<Status, Error>)
    ensures r == ParseStatus(text)
  {
    if text != "" && !EndsWith(text, [NUL]) { return Err(TruncatedOutput); }
    var records := Terminated(text);
    assert records[0..] == records;
    var read := ReadRecords(records, ParseRecords(records, START));
    if read.Err? { return Err(read.error); }
    r := Finish(read.value);
  }

  // ---- Printing porcelain v2 ----

  /** One changed path as Git reports it; `details` are the mode and object fields the parser skips. */
  datatype Change =
    | Ordinary(x: PathState, y: PathState, sub: Option<Submodule>, details: seq<string>, path: string)
    | Moved(x: PathState, y: PathState, sub: Option<Submodule>, details: seq<string>, path: string, source: string)
    | Conflicted(x: PathState, y: PathState, sub: Option<Submodule>, details: seq<string>, path: string)
    | New(path: string)

  /** The branch headers of one report. */
  datatype Heading = Heading(head: Head, upstream: Option<string>, divergence: Option<string>)

  function SubText(sub: Option<Submodule>): string {
    match sub
    case None => "N..."
    case Some(s) => ['S', if s.commitChanged then 'C' else '.', if s.trackedChanges then 'M' else '.',
                     if s.untrackedChanges then 'U' else '.']
  }

  /** Each field followed by a space. */
  function Spaced(fields: seq<string>): string {
    if fields == [] then "" else fields[0] + " " + Spaced(fields[1..])
  }

  function FieldsOf(change: Change): seq<string> {
    if change.New? then ["?"]
    else
      [if change.Ordinary? then "1" else if change.Moved? then "2" else "u",
       [LetterOf(change.x), LetterOf(change.y)], SubText(change.sub)] + change.details
  }

  function PrintChange(change: Change): seq<string> {
    [Spaced(FieldsOf(change)) + change.path] + (if change.Moved? then [change.source] else [])
  }

  function PrintChanges(changes: seq<Change>): seq<string> {
    if changes == [] then [] else PrintChange(changes[0]) + PrintChanges(changes[1..])
  }

  function HeaderRecord(name: string, value: string): string { "# " + name + " " + value }

  function OidOf(head: Head): string { if head.Unborn? then "(initial)" else head.revisionId }

  function NameOf(head: Head): string { if head.Detached? then "(detached)" else head.name }

  function OptionalHeader(name: string, value: Option<string>): seq<string> {
    if value.None? then [] else [HeaderRecord(name, value.value)]
  }

  function PrintHeading(h: Heading): seq<string> {
    [HeaderRecord("branch.oid", OidOf(h.head)), HeaderRecord("branch.head", NameOf(h.head))]
    + OptionalHeader("branch.upstream", h.upstream) + OptionalHeader("branch.ab", h.divergence)
  }

  function PrintStatus(h: Heading, changes: seq<Change>): string {
    Terminate(PrintHeading(h) + PrintChanges(changes))
  }

  /** The entry a change stands for. */
  function EntryOf(change: Change): PathEntry {
    if change.New? then PathEntry(change.path, None, Unchanged, Untracked, false, None)
    else
      PathEntry(change.path, if change.Moved? then Some(change.source) else None,
                change.x, change.y, change.Conflicted?, change.sub)
  }

  /** A change Git can report: any non-empty NUL-free paths; machine fields without spaces. */
  ghost predicate WellFormed(change: Change) {
    && change.path != "" && NUL !in change.path
    && (change.Moved? ==> change.source != "" && NUL !in change.source)
    && (!change.New? ==>
          && |change.details| == (if change.Ordinary? then 5 else if change.Moved? then 6 else 7)
          && forall field <- change.details :: ' ' !in field && NUL !in field)
  }

  ghost predicate WellFormedHeading(h: Heading) {
    && NUL !in NameOf(h.head) && NameOf(h.head) != ""
    && (!h.head.Unborn? ==> HexId(h.head.revisionId))
    && (h.head.Branch? ==> h.head.name != "(detached)")
    && (h.upstream.Some? ==> NUL !in h.upstream.value) && (h.divergence.Some? ==> NUL !in h.divergence.value)
  }

  function Entries(changes: seq<Change>): seq<PathEntry> {
    if changes == [] then [] else [EntryOf(changes[0])] + Entries(changes[1..])
  }

  /** The changes have distinct paths, none already seen, and stay within the limit after `count` others. */
  predicate Admissible(changes: seq<Change>, seen: set<string>, count: nat) {
    changes == [] ||
    (changes[0].path !in seen && count < MAX_PATHS && Admissible(changes[1..], seen + {changes[0].path}, count + 1))
  }

  lemma {:induction false} AdmissibleMeans(changes: seq<Change>, seen: set<string>, count: nat)
    requires count <= MAX_PATHS
    ensures Admissible(changes, seen, count) <==>
            && count + |changes| <= MAX_PATHS
            && (forall i | 0 <= i < |changes| :: changes[i].path !in seen)
            && (forall i, j | 0 <= i < j < |changes| :: changes[i].path != changes[j].path)
    decreases |changes|
  {
    if changes == [] {
    } else {
      if count < MAX_PATHS { AdmissibleMeans(changes[1..], seen + {changes[0].path}, count + 1); }
    }
  }

  lemma {:induction false} SpacedCuts(fields: seq<string>, path: string, record: string)
    requires path != "" && forall field <- fields :: ' ' !in field
    requires record == Spaced(fields) + path
    ensures FieldsAndPath(record, |fields|) == Ok(Cut(fields, path))
  {
    if fields == [] {
      assert record == path;
    } else {
      var rest := Spaced(fields[1..]) + path;
      SpacedCuts(fields[1..], path, rest);
      assert record == fields[0] + [' '] + rest;
      CutSpace(fields[0], rest, |fields[1..]|, record, Cut(fields[1..], path));
      assert [fields[0]] + fields[1..] == fields;
    }
  }

  lemma {:induction false} CutSpace(field: string, rest: string, count: nat, record: string, cut: Cut)
    requires ' ' !in field && record == field + [' '] + rest && FieldsAndPath(rest, count) == Ok(cut)
    ensures FieldsAndPath(record, count + 1) == Ok(Cut([field] + cut.fields, cut.path))
  {
    FirstSpace(field, rest);
  }

  lemma {:induction false} FirstSpace(field: string, rest: string)
    requires ' ' !in field
    ensures var record := field + [' '] + rest;
            IndexOf(record, ' ') == |field| && record[..|field|] == field && record[|field| + 1..] == rest
  {
    IndexOfFirst(field, ' ', rest);
  }

  lemma {:induction false} SubRoundTrip(sub: Option<Submodule>)
    ensures SubmoduleOf(SubText(sub)) == Some(sub)
    ensures ' ' !in SubText(sub) && NUL !in SubText(sub)
  {
  }

  /** A printed change record is never mistaken for a header and cuts back into its fields and path. */
  lemma {:induction false} ChangeCuts(change: Change)
    requires WellFormed(change)
    ensures var record, fields := Spaced(FieldsOf(change)) + change.path, FieldsOf(change);
            && record != "" && [record[0]] == fields[0] && !StartsWith(record, "# ")
            && FieldCount(record[0]) == Some(|fields|)
            && FieldsAndPath(record, |fields|) == Ok(Cut(fields, change.path))
  {
    var fields := FieldsOf(change);
    if !change.New? {
      SubRoundTrip(change.sub);
      forall field <- fields ensures ' ' !in field {
        assert field in [fields[0], fields[1], fields[2]] || field in change.details;
      }
    }
    SpacedCuts(fields, change.path, Spaced(fields) + change.path);
    assert Spaced(fields) == fields[0] + " " + Spaced(fields[1..]);
  }

  /** Reading one printed change notes exactly its entry, or stops on a repeated path or a full list. */
  lemma {:induction false} ChangeReads(change: Change, next: Option<string>, so: Progress)
    requires WellFormed(change) && (change.Moved? ==> next == Some(change.source))
    ensures ReadRecord(Spaced(FieldsOf(change)) + change.path, next, so) ==
            if change.path in so.seen then Err(DuplicatePath)
            else if |so.paths| >= MAX_PATHS then Err(TooManyPaths)
            else Ok(Reading(Note(so, EntryOf(change)), change.Moved?))
  {
    ChangeCuts(change);
    var fields := FieldsOf(change);
    if !change.New? { DescribeChange(change, if change.Moved? then next else None); }
    CutReads(fields[0][0], fields, change, next, so);
    RecordReads(Spaced(fields) + change.path, fields[0][0], Cut(fields, change.path), next, so);
  }

  lemma {:induction false} RecordReads(record: string, kind: char, cut: Cut, next: Option<string>, so: Progress)
    requires record != "" && record[0] == kind && !StartsWith(record, "# ") && FieldCount(kind) == Some(|cut.fields|)
    requires FieldsAndPath(record, |cut.fields|) == Ok(cut)
    ensures ReadRecord(record, next, so) == ReadCut(kind, cut, next, so)
  {
  }

  /** A record that cuts into a change's fields and path reads as that change. */
  lemma {:induction false} CutReads(kind: char, fields: seq<string>, change: Change, next: Option<string>, so: Progress)
    requires (kind == '2') == change.Moved? && (kind == '?') == change.New?
    requires change.Moved? ==> next == Some(change.source) && change.source != ""
    requires !change.New? ==>
               && |fields| >= 3 && Describe(kind, fields, change.path, None).Some?
               && Describe(kind, fields, change.path, if change.Moved? then next else None) == Some(EntryOf(change))
    ensures ReadCut(kind, Cut(fields, change.path), next, so) ==
            if change.path in so.seen then Err(DuplicatePath)
            else if |so.paths| >= MAX_PATHS then Err(TooManyPaths)
            else Ok(Reading(Note(so, EntryOf(change)), change.Moved?))
  {
  }

  lemma {:induction false} DescribeChange(change: Change, previous: Option<string>)
    requires WellFormed(change) && !change.New?
    ensures var fields := FieldsOf(change);
            && |fields| >= 3 && |fields[0]| == 1
            && Describe(fields[0][0], fields, change.path, previous)
               == Some(PathEntry(change.path, previous, change.x, change.y, change.Conflicted?, change.sub))
            && Describe(fields[0][0], fields, change.path, None).Some?
  {
  }

  lemma {:induction false} ChangeParses(change: Change, more: seq<string>, so: Progress)
    requires WellFormed(change)
    ensures ParseRecords(PrintChange(change) + more, so) ==
            if change.path in so.seen then Err(DuplicatePath)
            else if |so.paths| >= MAX_PATHS then Err(TooManyPaths)
            else ParseRecords(more, Note(so, EntryOf(change)))
  {
    var records := PrintChange(change) + more;
    ChangeReads(change, if |records| > 1 then Some(records[1]) else None, so);
    assert if change.Moved? then records[2..] == more else records[1..] == more;
  }

  /** What reading printed changes comes to. */
  ghost predicate ReadsAs(changes: seq<Change>, so: Progress, r: Result<Progress, Error>) {
    if Admissible(changes, so.seen, |so.paths|)
    then r.Ok? && r.value.headers == so.headers && r.value.paths == so.paths + Entries(changes)
    else r.Err?
  }

  lemma {:induction false} ChangesRead(changes: seq<Change>, so: Progress)
    requires forall change <- changes :: WellFormed(change)
    requires |so.paths| <= MAX_PATHS
    ensures ReadsAs(changes, so, ParseRecords(PrintChanges(changes), so))
    decreases |changes|
  {
    if changes == [] {
      assert so.paths + [] == so.paths;
    } else {
      var rest, so' := changes[1..], Note(so, EntryOf(changes[0]));
      assert changes[0] in changes;
      var r, r' := ParseRecords(PrintChanges(changes), so), ParseRecords(PrintChanges(rest), so');
      ChangeParses(changes[0], PrintChanges(rest), so);
      if changes[0].path !in so.seen && |so.paths| < MAX_PATHS {
        ChangesRead(rest, so');
        ReadsOn(changes, so, r');
      }
    }
  }

  lemma {:induction false} ReadsOn(changes: seq<Change>, so: Progress, r: Result<Progress, Error>)
    requires changes != [] && changes[0].path !in so.seen && |so.paths| < MAX_PATHS
    requires ReadsAs(changes[1..], Note(so, EntryOf(changes[0])), r)
    ensures ReadsAs(changes, so, r)
  {
  }

  lemma {:induction false} HeaderReads(name: string, value: string, more: seq<string>, so: Progress)
    requires ' ' !in name
    ensures ParseRecords([HeaderRecord(name, value)] + more, so)
            == ParseRecords(more, so.(headers := so.headers[name := value]))
  {
    var record := HeaderRecord(name, value);
    assert record[..2] == "# " && StartsWith(record, "# ");
    assert record[2..] == name + [' '] + value;
    FirstSpace(name, value);
    assert record[2..|name| + 2] == name && record[|name| + 3..] == value;
    assert ([record] + more)[1..] == more;
  }

  /** The headers a printed heading leaves behind. */
  function HeadersOf(h: Heading): map<string, string> {
    var m := map["branch.oid" := OidOf(h.head)]["branch.head" := NameOf(h.head)];
    var m1 := if h.upstream.Some? then m["branch.upstream" := h.upstream.value] else m;
    if h.divergence.Some? then m1["branch.ab" := h.divergence.value] else m1
  }

  lemma {:induction false} OptionalReads(name: string, value: Option<string>, more: seq<string>, so: Progress)
    requires ' ' !in name
    ensures ParseRecords(OptionalHeader(name, value) + more, so)
            == ParseRecords(more, if value.Some? then so.(headers := so.headers[name := value.value]) else so)
  {
    if value.Some? {
      HeaderReads(name, value.value, more, so);
    } else {
      assert [] + more == more;
    }
  }

  lemma {:induction false} HeadingReads(h: Heading, more: seq<string>)
    ensures ParseRecords(PrintHeading(h) + more, Progress(map[], [], {}))
            == ParseRecords(more, Progress(HeadersOf(h), [], {}))
  {
    var a, b := HeaderRecord("branch.oid", OidOf(h.head)), HeaderRecord("branch.head", NameOf(h.head));
    var c, d := OptionalHeader("branch.upstream", h.upstream), OptionalHeader("branch.ab", h.divergence);
    assert PrintHeading(h) + more == [a] + ([b] + (c + (d + more)));
    HeaderReads("branch.oid", OidOf(h.head), [b] + (c + (d + more)), Progress(map[], [], {}));
    var m := map["branch.oid" := OidOf(h.head)];
    HeaderReads("branch.head", NameOf(h.head), c + (d + more), Progress(m, [], {}));
    var m' := m["branch.head" := NameOf(h.head)];
    OptionalReads("branch.upstream", h.upstream, d + more, Progress(m', [], {}));
    OptionalReads("branch.ab", h.divergence, more,
                  Progress(if h.upstream.Some? then m'["branch.upstream" := h.upstream.value] else m', [], {}));
  }

  lemma {:induction false} PrintedNulFree(changes: seq<Change>)
    requires forall change <- changes :: WellFormed(change)
    ensures forall record <- PrintChanges(changes) :: NUL !in record
  {
    if changes == [] {
    } else {
      var change := changes[0];
      assert change in changes;
      PrintedNulFree(changes[1..]);
      var fields := FieldsOf(change);
      if !change.New? {
        SubRoundTrip(change.sub);
      }
      forall field <- fields ensures NUL !in field {
        assert change.New? || field in [fields[0], fields[1], fields[2]] || field in change.details;
      }
      SpacedNulFree(fields);
    }
  }

  lemma {:induction false} SpacedNulFree(fields: seq<string>)
    requires forall field <- fields :: NUL !in field
    ensures NUL !in Spaced(fields)
  {
    if fields == [] {
    } else {
      assert fields[0] in fields;
      SpacedNulFree(fields[1..]);
    }
  }

  lemma {:induction false} HeadingNulFree(h: Heading)
    requires WellFormedHeading(h)
    ensures forall record <- PrintHeading(h) :: NUL !in record
  {
    assert NUL !in OidOf(h.head);
  }

  lemma {:induction false} TerminatedPrint(fields: seq<string>)
    requires fields != [] && forall field <- fields :: NUL !in field
    ensures Terminated(Terminate(fields)) == fields && EndsWith(Terminate(fields), [NUL])
  {
    SplitTerminate(fields);
    assert (fields + [""])[..|fields|] == fields;
    var last := |fields| - 1;
    EndsTerminated(fields, fields[..last], fields[last]);
  }

  lemma {:induction false} EndsTerminated(fields: seq<string>, init: seq<string>, last: string)
    requires fields == init + [last]
    ensures EndsWith(Terminate(fields), [NUL])
  {
    TerminateConcat(init, [last], fields);
    var text := Terminate(init) + (last + [NUL]);
    assert [last][1..] == [] && Terminate([last]) == last + [NUL] + "";
    assert Terminate(fields) == text;
    assert text[|text| - 1..] == [NUL];
  }

  lemma {:induction false} FinishHeading(h: Heading, so: Progress)
    requires WellFormedHeading(h) && so.headers == HeadersOf(h)
    ensures Finish(so) == Ok(Status(so.paths, h.head, h.upstream, h.divergence))
  {
  }

  /**
   * Printing any report Git can make and parsing it returns the same entries and branch facts, exactly when the
   * paths are distinct and within the limit; paths may hold spaces and newlines, and a rename source may look
   * like any record.
   */
  lemma {:induction false} StatusRoundTrip(h: Heading, changes: seq<Change>)
    requires WellFormedHeading(h) && forall change <- changes :: WellFormed(change)
    ensures var admissible := |changes| <= MAX_PATHS
                              && forall i, j | 0 <= i < j < |changes| :: changes[i].path != changes[j].path;
            var r := ParseStatus(PrintStatus(h, changes));
            if admissible then r == Ok(Status(Entries(changes), h.head, h.upstream, h.divergence)) else r.Err?
  {
    var body := PrintChanges(changes);
    var records := PrintHeading(h) + body;
    HeadingNulFree(h);
    PrintedNulFree(changes);
    TerminatedPrint(records);
    HeadingReads(h, body);
    var so := Progress(HeadersOf(h), [], {});
    ChangesRead(changes, so);
    AdmissibleMeans(changes, {}, 0);
    assert [] + Entries(changes) == Entries(changes);
    if ParseRecords(body, so).Ok? { FinishHeading(h, ParseRecords(body, so).value); }
  }

  // ---- What acceptance means for any text ----

  ghost predicate Sound(so: Progress) {
    && |so.paths| <= MAX_PATHS
    && (forall i | 0 <= i < |so.paths| :: so.paths[i].path in so.seen && so.paths[i].path != "")
    && (forall i, j | 0 <= i < j < |so.paths| :: so.paths[i].path != so.paths[j].path)
  }

  lemma {:induction false} PathNonEmpty(record: string, count: nat, r: Result<Cut, Error>)
    requires r == FieldsAndPath(record, count)
    ensures r.Ok? ==> r.value.path != ""
    decreases count
  {
    if count == 0 {
    } else {
      var end := IndexOf(record, ' ');
      if end >= 0 { PathNonEmpty(record[end + 1..], count - 1, FieldsAndPath(record[end + 1..], count - 1)); }
    }
  }

  lemma {:induction false} NoteSound(so: Progress, entry: PathEntry)
    requires Sound(so) && |so.paths| < MAX_PATHS && entry.path !in so.seen && entry.path != ""
    ensures Sound(Note(so, entry))
  {
  }

  lemma {:induction false} RecordSound(record: string, next: Option<string>, so: Progress)
    requires Sound(so)
    ensures var r := ReadRecord(record, next, so); r.Ok? ==> Sound(r.value.so)
  {
    var r := ReadRecord(record, next, so);
    if r.Ok? && !StartsWith(record, "# ") {
      var count := FieldCount(record[0]).value;
      PathNonEmpty(record, count, FieldsAndPath(record, count));
      var added := r.value.so.paths[|so.paths|];
      assert r.value.so == Note(so, added);
      NoteSound(so, added);
    }
  }

  lemma {:induction false} RecordsSound(records: seq<string>, so: Progress)
    requires Sound(so)
    ensures var r := ParseRecords(records, so); r.Ok? ==> Sound(r.value)
    decreases |records|
  {
    if records == [] {
    } else {
      var next := if |records| > 1 then Some(records[1]) else None;
      RecordSound(records[0], next, so);
      var r := ReadRecord(records[0], next, so);
      if r.Ok? {
        RecordsSound(if r.value.tookNext && |records| > 1 then records[2..] else records[1..], r.value.so);
      }
    }
  }

  /** Any accepted report lists distinct, non-empty paths within the limit, and names a branch or a commit. */
  lemma {:induction false} AcceptedIsSound(text: string)
    ensures var r := ParseStatus(text);
            r.Ok? ==>
              && |r.value.paths| <= MAX_PATHS
              && (forall i | 0 <= i < |r.value.paths| :: r.value.paths[i].path != "")
              && (forall i, j | 0 <= i < j < |r.value.paths| :: r.value.paths[i].path != r.value.paths[j].path)
              && (!r.value.head.Unborn? ==> HexId(r.value.head.revisionId))
              && (!r.value.head.Detached? ==> r.value.head.name != "")
  {
    RecordsSound(Terminated(text), Progress(map[], [], {}));
  }
}
