/** Parsing `git worktree list --porcelain -z`: attribute fields, a blank field after each worktree. */
module GitWorktrees {
  import opened Wrappers
  import opened Text

  datatype Error = TruncatedOutput | UnsupportedMetadata | IncompleteMetadata | InvalidIdentity

  datatype Worktree = Worktree(
    path: string, branch: Option<string>, detached: bool, bare: bool,
    locked: Option<string>, prunable: Option<string>)

  const HEADS := "refs/heads/"

  function ShortBranch(value: string): string {
    if StartsWith(value, HEADS) then value[|HEADS|..] else value
  }

  /** The key before the first space, and the value after it. */
  function KeyOf(field: string): string {
    var separator := IndexOf(field, ' ');
    if separator < 0 then field else field[..separator]
  }

  function ValueOf(field: string): string {
    var separator := IndexOf(field, ' ');
    if separator < 0 then "" else field[separator + 1..]
  }

  /** One non-blank field: it opens a worktree or adds to the open one. */
  function ReadField(field: string, current: Option<Worktree>): Result<Worktree, Error> {
    var key, value := KeyOf(field), ValueOf(field);
    if key == "worktree" then
      if current.Some? || value == "" then Err(InvalidIdentity)
      else Ok(Worktree(value, None, false, false, None, None))
    else if current.None? then Err(IncompleteMetadata)
    else
      var w := current.value;
      if key == "branch" then Ok(w.(branch := Some(ShortBranch(value))))
      else if key == "detached" then Ok(w.(detached := true))
      else if key == "bare" then Ok(w.(bare := true))
      else if key == "locked" then Ok(w.(locked := Some(value)))
      else if key == "prunable" then Ok(w.(prunable := Some(value)))
      else if key == "HEAD" then Ok(w)
      else Err(UnsupportedMetadata)
  }

  function ReadFields(fields: seq<string>, current: Option<Worktree>, done: seq<Worktree>): Result<seq<Worktree>, Error>
    decreases |fields|
  {
    if fields == [] then Ok(done)
    else if fields[0] == "" then
      ReadFields(fields[1..], None, if current.Some? then done + [current.value] else done)
    else
      match ReadField(fields[0], current)
      case Err(e) => Err(e)
      case Ok(w) => ReadFields(fields[1..], Some(w), done)
  }

  function ParseWorktrees(text: string): Result<seq<Worktree>, Error> {
    if text != "" && !EndsWith(text, [NUL, NUL]) then Err(TruncatedOutput)
    else ReadFields(Split(text, NUL), None, [])
  }

  /** `parseGitStatusWorktrees` as written. */
  method ParseGitStatusWorktrees(text: string) returns (r: Result<seq<Worktree>, Error>)
    ensures r == ParseWorktrees(text)
  {
    if text != "" && !EndsWith(text, [NUL, NUL]) { return Err(TruncatedOutput); }
    var fields := Split(text, NUL);
    var result: seq<Worktree> := [];
    var current: Option<Worktree> := None;
    assert fields[0..] == fields;
    for i := 0 to |fields|
      invariant ReadFields(fields, None, []) == ReadFields(fields[i..], current, result)
    {
      var field := fields[i];
      assert fields[i..][0] == field && fields[i..][1..] == fields[i + 1..];
      if field == "" {
        if current.Some? { result := result + [current.value]; }
        current := None;
        continue;
      }
      var read := ReadField(field, current);
      if read.Err? { return Err(read.error); }
      current := Some(read.value);
    }
    r := Ok(result);
  }

  // ---- Printing ----

  /** A worktree as Git lists it: its object id is printed and skipped, its branch is a full ref name. */
  datatype Listed = Listed(
    path: string, oid: Option<string>, branch: Option<string>, detached: bool, bare: bool,
    locked: Option<string>, prunable: Option<string>)

  /** An attribute with a reason, or alone when the reason is empty. */
  function Reason(key: string, value: Option<string>): seq<string> {
    if value.None? then [] else if value.value == "" then [key] else [key + " " + value.value]
  }

  function Attribute(key: string, value: Option<string>): seq<string> {
    if value.None? then [] else [key + " " + value.value]
  }

  function Flag(key: string, on: bool): seq<string> { if on then [key] else [] }

  function PrintWorktree(l: Listed): seq<string> {
    ["worktree" + " " + l.path] + Flag("bare", l.bare) + Attribute("HEAD", l.oid) + Attribute("branch", l.branch)
    + Flag("detached", l.detached) + Reason("locked", l.locked) + Reason("prunable", l.prunable) + [""]
  }

  function PrintFields(list: seq<Listed>): seq<string> {
    if list == [] then [] else PrintWorktree(list[0]) + PrintFields(list[1..])
  }

  function PrintWorktrees(list: seq<Listed>): string { Terminate(PrintFields(list)) }

  function Described(l: Listed): Worktree {
    Worktree(l.path, if l.branch.Some? then Some(ShortBranch(l.branch.value)) else None,
             l.detached, l.bare, l.locked, l.prunable)
  }

  ghost predicate NulFree(value: Option<string>) { value.Some? ==> NUL !in value.value }

  /** Any path but the empty one, and any reason, so long as they hold no NUL. */
  ghost predicate WellFormed(l: Listed) {
    l.path != "" && NUL !in l.path && NulFree(l.oid) && NulFree(l.branch) && NulFree(l.locked) && NulFree(l.prunable)
  }

  lemma {:induction false} KeyValue(key: string, value: string)
    requires ' ' !in key
    ensures KeyOf(key + " " + value) == key && ValueOf(key + " " + value) == value
  {
    var field := key + " " + value;
    IndexOfFirst(key, ' ', value);
    assert field == key + [' '] + value;
    assert field[..|key|] == key && field[|key| + 1..] == value;
  }

  lemma {:induction false} KeyAlone(key: string)
    requires ' ' !in key
    ensures KeyOf(key) == key && ValueOf(key) == ""
  {
  }

  lemma {:induction false} ReadOne(field: string, more: seq<string>, current: Option<Worktree>, done: seq<Worktree>)
    requires field != "" && ReadField(field, current).Ok?
    ensures ReadFields([field] + more, current, done) == ReadFields(more, Some(ReadField(field, current).value), done)
  {
  }

  lemma {:induction false} FlagReads(key: string, on: bool, more: seq<string>, w: Worktree, done: seq<Worktree>)
    requires key == "bare" || key == "detached"
    ensures ReadFields(Flag(key, on) + more, Some(w), done)
            == ReadFields(more, Some(if !on then w else if key == "bare" then w.(bare := true) else w.(detached := true)), done)
  {
    if on {
      KeyAlone(key);
      ReadOne(key, more, Some(w), done);
    } else {
      assert [] + more == more;
    }
  }

  lemma {:induction false} AttributeReads(
      key: string, value: Option<string>, more: seq<string>, w: Worktree, done: seq<Worktree>)
    requires key == "HEAD" || key == "branch"
    ensures ReadFields(Attribute(key, value) + more, Some(w), done)
            == ReadFields(more, Some(if value.None? || key == "HEAD" then w
                                     else w.(branch := Some(ShortBranch(value.value)))), done)
  {
    if value.Some? {
      KeyValue(key, value.value);
      ReadOne(key + " " + value.value, more, Some(w), done);
    } else {
      assert [] + more == more;
    }
  }

  lemma {:induction false} ReasonField(key: string, text: string, w: Worktree, field: string)
    requires (key == "locked" || key == "prunable") && field == (if text == "" then key else key + " " + text)
    ensures field != ""
    ensures ReadField(field, Some(w)) == Ok(if key == "locked" then w.(locked := Some(text)) else w.(prunable := Some(text)))
  {
    if text == "" {
      KeyAlone(key);
    } else {
      KeyValue(key, text);
    }
  }

  lemma {:induction false} ReasonReads(
      key: string, value: Option<string>, more: seq<string>, w: Worktree, done: seq<Worktree>)
    requires key == "locked" || key == "prunable"
    ensures ReadFields(Reason(key, value) + more, Some(w), done)
            == ReadFields(more, Some(if value.None? then w else if key == "locked" then w.(locked := value)
                                     else w.(prunable := value)), done)
  {
    if value.None? {
      assert [] + more == more;
    } else {
      var field := if value.value == "" then key else key + " " + value.value;
      ReasonField(key, value.value, w, field);
      ReadOne(field, more, Some(w), done);
    }
  }

  lemma {:induction false} Nested(a: seq<string>, b: seq<string>, c: seq<string>, d: seq<string>, e: seq<string>, f: seq<string>,
               g: seq<string>, h: seq<string>, more: seq<string>)
    ensures a + b + c + d + e + f + g + h + more == a + (b + (c + (d + (e + (f + (g + (h + more)))))))
  {
  }

  /** Reading one printed worktree, up to its blank field. */
  lemma {:induction false} WorktreeReads(l: Listed, more: seq<string>, done: seq<Worktree>)
    requires l.path != ""
    ensures ReadFields(PrintWorktree(l) + more, None, done) == ReadFields(more, None, done + [Described(l)])
  {
    var tail := Reason("locked", l.locked) + (Reason("prunable", l.prunable) + ([""] + more));
    var body := Attribute("HEAD", l.oid) + (Attribute("branch", l.branch) + (Flag("detached", l.detached) + tail));
    Nested(["worktree" + " " + l.path], Flag("bare", l.bare), Attribute("HEAD", l.oid), Attribute("branch", l.branch),
           Flag("detached", l.detached), Reason("locked", l.locked), Reason("prunable", l.prunable), [""], more);
    KeyValue("worktree", l.path);
    var w0 := Worktree(l.path, None, false, false, None, None);
    ReadOne("worktree" + " " + l.path, Flag("bare", l.bare) + body, None, done);
    FlagReads("bare", l.bare, body, w0, done);
    var w1 := if l.bare then w0.(bare := true) else w0;
    var w2 := HeadReads(l, tail, w1, done);
    ReasonsRead(l, more, w2, done);
  }

  lemma {:induction false} HeadReads(
      l: Listed, tail: seq<string>, w: Worktree, done: seq<Worktree>) returns (w': Worktree)
    ensures ReadFields(Attribute("HEAD", l.oid) + (Attribute("branch", l.branch) + (Flag("detached", l.detached) + tail)),
                       Some(w), done)
            == ReadFields(tail, Some(w'), done)
    ensures w' == w.(branch := if l.branch.Some? then Some(ShortBranch(l.branch.value)) else w.branch,
                     detached := w.detached || l.detached)
  {
    var r3 := Flag("detached", l.detached) + tail;
    AttributeReads("HEAD", l.oid, Attribute("branch", l.branch) + r3, w, done);
    AttributeReads("branch", l.branch, r3, w, done);
    w' := if l.branch.None? then w else w.(branch := Some(ShortBranch(l.branch.value)));
    FlagReads("detached", l.detached, tail, w', done);
    w' := if l.detached then w'.(detached := true) else w';
  }

  lemma {:induction false} ReasonsRead(l: Listed, more: seq<string>, w: Worktree, done: seq<Worktree>)
    requires w.locked.None? && w.prunable.None?
    ensures ReadFields(Reason("locked", l.locked) + (Reason("prunable", l.prunable) + ([""] + more)), Some(w), done)
            == ReadFields(more, None, done + [w.(locked := l.locked, prunable := l.prunable)])
  {
    var r5 := Reason("prunable", l.prunable) + ([""] + more);
    ReasonReads("locked", l.locked, r5, w, done);
    var w' := w.(locked := l.locked);
    ReasonReads("prunable", l.prunable, [""] + more, w', done);
    assert ([""] + more)[1..] == more;
  }

  function Descriptions(list: seq<Listed>): seq<Worktree> {
    if list == [] then [] else [Described(list[0])] + Descriptions(list[1..])
  }

  /** Reading what is printed of a list of worktrees goes on with what follows, the list read. */
  lemma {:induction false} ListReads(list: seq<Listed>, more: seq<string>, done: seq<Worktree>)
    requires forall l <- list :: l.path != ""
    ensures ReadFields(PrintFields(list) + more, None, done) == ReadFields(more, None, done + Descriptions(list))
    decreases |list|
  {
    if list == [] {
      assert PrintFields(list) + more == more && done + Descriptions(list) == done;
    } else {
      var first, others := list[0], list[1..];
      var rest, listed := PrintFields(others) + more, done + [Described(first)];
      assert PrintFields(list) + more == PrintWorktree(first) + rest;
      assert first in list && forall l <- others :: l in list;
      WorktreeReads(first, rest, done);
      ListReads(others, more, listed);
      assert listed + Descriptions(others) == done + Descriptions(list);
    }
  }

  lemma {:induction false} ReadBlank(done: seq<Worktree>)
    ensures ReadFields([""], None, done) == Ok(done)
  {
    assert [""][1..] == [];
  }

  lemma {:induction false} PrintedNulFree(list: seq<Listed>)
    requires forall l <- list :: WellFormed(l)
    ensures forall field <- PrintFields(list) :: NUL !in field
  {
    if list == [] {
    } else {
      assert list[0] in list;
      PrintedNulFree(list[1..]);
      WorktreeNulFree(list[0]);
    }
  }

  lemma {:induction false} WorktreeNulFree(l: Listed)
    requires WellFormed(l)
    ensures forall field <- PrintWorktree(l) :: NUL !in field
  {
  }

  lemma {:induction false} EndsBlank(list: seq<Listed>)
    requires list != []
    ensures var fields := PrintFields(list); |fields| >= 2 && fields[|fields| - 1] == ""
    decreases |list|
  {
    if |list| > 1 { EndsBlank(list[1..]); }
  }

  lemma {:induction false} DoubleNul(fields: seq<string>)
    requires |fields| >= 2 && fields[|fields| - 1] == ""
    ensures EndsWith(Terminate(fields), [NUL, NUL])
  {
    var n := |fields|;
    var init, x := fields[..n - 2], fields[n - 2];
    assert fields == init + [x, ""];
    TerminateConcat(init, [x, ""], init + [x, ""]);
    assert [x, ""][1..] == [""] && [""][1..] == [];
    assert Terminate([""]) == "" + [NUL] + "";
    assert Terminate([x, ""]) == x + [NUL] + ([NUL]);
    assert Terminate(fields) == Terminate(init) + x + [NUL, NUL];
  }

  /** Printing any list of worktrees and parsing it gives the worktrees back, whatever their paths and reasons hold. */
  lemma {:induction false} WorktreeRoundTrip(list: seq<Listed>)
    requires forall l <- list :: WellFormed(l)
    ensures ParseWorktrees(PrintWorktrees(list)) == Ok(Descriptions(list))
  {
    PrintedNulFree(list);
    SplitTerminate(PrintFields(list));
    forall l <- list ensures l.path != "" { assert WellFormed(l); }
    ListReads(list, [""], []);
    ReadBlank([] + Descriptions(list));
    assert [] + Descriptions(list) == Descriptions(list);
    if list != [] {
      EndsBlank(list);
      DoubleNul(PrintFields(list));
    }
  }
}
