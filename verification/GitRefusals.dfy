/** Status and worktree listings that are refused, and how a worktree's branch is shown. */
module GitRefusals {
  import opened Wrappers
  import opened Text
  import Status = GitStatus
  import Worktrees = GitWorktrees

  lemma {:induction false} LastEnds(text: string, suffix: string)
    requires text != "" && suffix != "" && EndsWith(text, suffix)
    ensures text[|text| - 1] == suffix[|suffix| - 1]
  {
    assert text[|text| - |suffix|..][|suffix| - 1] == text[|text| - 1];
  }

  // ---- Status ----

  /** A status whose last record is not closed is refused. */
  lemma {:induction false} UnendedStatusRefused(text: string)
    requires text != "" && text[|text| - 1] != NUL
    ensures Status.ParseStatus(text).Err?
  {
    if EndsWith(text, [NUL]) { LastEnds(text, [NUL]); }
  }

  /** A record that is no header and of none of the four kinds. */
  predicate UnknownRecord(record: string) {
    !StartsWith(record, "# ") && (record == "" || record[0] !in "12u?")
  }

  /** A record that is refused right after the headers, given the record after it, is refused with any rest. */
  lemma {:induction false} FirstRefused(h: Status.Heading, bad: string, rest: seq<string>)
    requires Status.WellFormedHeading(h) && NUL !in bad && forall record <- rest :: NUL !in record
    requires var next := if rest == [] then None else Some(rest[0]);
             Status.ReadRecord(bad, next, Status.Progress(Status.HeadersOf(h), [], {})).Err?
    ensures Status.ParseStatus(Terminate(Status.PrintHeading(h) + ([bad] + rest))).Err?
  {
    var more := [bad] + rest;
    Status.HeadingNulFree(h);
    Status.TerminatedPrint(Status.PrintHeading(h) + more);
    Status.HeadingReads(h, more);
    assert more[0] == bad && (rest != [] ==> more[1] == rest[0]);
  }

  /** After the headers, a record of an unknown kind is refused, whatever follows it. */
  lemma {:induction false} UnknownRecordRefused(h: Status.Heading, bad: string, rest: seq<string>)
    requires Status.WellFormedHeading(h) && UnknownRecord(bad) && NUL !in bad && forall record <- rest :: NUL !in record
    ensures Status.ParseStatus(Terminate(Status.PrintHeading(h) + ([bad] + rest))).Err?
  {
    FirstRefused(h, bad, rest);
  }

  /** A change whose state letters Git does not have is refused. */
  lemma {:induction false} UnknownStateRefused(
    h: Status.Heading, fields: seq<string>, path: string, bad: string, rest: seq<string>)
    requires Status.WellFormedHeading(h) && path != "" && NUL !in path && forall record <- rest :: NUL !in record
    requires |fields| == 8 && fields[0] == "1" && forall field <- fields :: ' ' !in field && NUL !in field
    requires BadStates(fields[1]) && bad == Status.Spaced(fields) + path
    ensures Status.ParseStatus(Terminate(Status.PrintHeading(h) + ([bad] + rest))).Err?
  {
    Status.SpacedCuts(fields, path, bad);
    Status.SpacedNulFree(fields);
    OrdinaryStart(fields, path, bad);
    StatesRefused(fields, path, if rest == [] then None else Some(rest[0]), Status.Progress(Status.HeadersOf(h), [], {}));
    FirstRefused(h, bad, rest);
  }

  /** Distinct paths are accepted up to 20,000 of them, and more are refused. */
  lemma {:induction false} StatusLimit(h: Status.Heading, changes: seq<Status.Change>)
    requires Status.WellFormedHeading(h) && forall change <- changes :: Status.WellFormed(change)
    requires forall i, j | 0 <= i < j < |changes| :: changes[i].path != changes[j].path
    ensures Status.ParseStatus(Status.PrintStatus(h, changes)).Ok? <==> |changes| <= 20_000
  {
    Status.StatusRoundTrip(h, changes);
  }

  /** A rename that is the last record, or is followed by an empty one, is refused. */
  lemma {:induction false} RenameNeedsSource(
    h: Status.Heading, change: Status.Change, record: string, rest: seq<string>)
    requires Status.WellFormedHeading(h) && change.Moved? && Status.WellFormed(change)
    requires record == Status.Spaced(Status.FieldsOf(change)) + change.path
    requires (rest == [] || rest[0] == "") && forall other <- rest :: NUL !in other
    ensures Status.ParseStatus(Terminate(Status.PrintHeading(h) + ([record] + rest))).Err?
  {
    var fields, path := Status.FieldsOf(change), change.path;
    RenameFields(change, fields);
    Status.SpacedCuts(fields, path, record);
    Status.SpacedNulFree(fields);
    RenameRead(fields, path, record, if rest == [] then None else Some(rest[0]),
               Status.Progress(Status.HeadersOf(h), [], {}));
    FirstRefused(h, record, rest);
  }

  lemma {:induction false} RenameRead(
    fields: seq<string>, path: string, record: string, next: Option<string>, so: Status.Progress)
    requires |fields| == 9 && fields[0] == "2" && record == Status.Spaced(fields) + path && next.GetOr("") == ""
    requires Status.FieldsAndPath(record, 9) == Ok(Status.Cut(fields, path))
    ensures Status.ReadRecord(record, next, so).Err?
  {
    RenameStart(fields, path, record);
    SourceMissing(fields, path, next, so);
  }

  lemma {:induction false} RenameFields(change: Status.Change, fields: seq<string>)
    requires change.Moved? && Status.WellFormed(change) && fields == Status.FieldsOf(change)
    ensures |fields| == 9 && fields[0] == "2" && forall field <- fields :: ' ' !in field && NUL !in field
  {
    Status.SubRoundTrip(change.sub);
    forall field <- fields ensures ' ' !in field && NUL !in field {
      assert field in [fields[0], fields[1], fields[2]] || field in change.details;
    }
  }

  lemma {:induction false} RenameStart(fields: seq<string>, path: string, record: string)
    requires fields != [] && fields[0] == "2" && record == Status.Spaced(fields) + path
    ensures record != "" && record[0] == '2' && !StartsWith(record, "# ")
  {
    assert Status.Spaced(fields)[0] == '2';
  }

  lemma {:induction false} SourceMissing(fields: seq<string>, path: string, next: Option<string>, so: Status.Progress)
    requires next.GetOr("") == ""
    ensures Status.ReadCut('2', Status.Cut(fields, path), next, so).Err?
  {
  }

  /** Not two letters of the nine Git has. */
  predicate BadStates(xy: string) { |xy| != 2 || xy[0] !in ".MADRCTU?" || xy[1] !in ".MADRCTU?" }

  lemma {:induction false} OrdinaryStart(fields: seq<string>, path: string, bad: string)
    requires fields != [] && fields[0] == "1" && bad == Status.Spaced(fields) + path
    ensures bad != "" && bad[0] == '1' && !StartsWith(bad, "# ")
  {
    assert Status.Spaced(fields)[0] == '1';
  }

  lemma {:induction false} StatesRefused(fields: seq<string>, path: string, next: Option<string>, so: Status.Progress)
    requires |fields| == 8 && BadStates(fields[1])
    ensures Status.ReadCut('1', Status.Cut(fields, path), next, so).Err?
  {
    LettersKnown(fields[1]);
  }

  lemma {:induction false} LettersKnown(xy: string)
    ensures BadStates(xy) <==> |xy| != 2 || Status.StateOf(xy[0]).None? || Status.StateOf(xy[1]).None?
  {
  }

  // ---- Worktrees ----

  /** A listing that does not end with a blank field is refused. */
  lemma {:induction false} UnendedWorktreesRefused(text: string)
    requires text != "" && !EndsWith(text, [NUL, NUL])
    ensures Worktrees.ParseWorktrees(text).Err?
  {
  }

  /** The attributes a worktree may have. */
  predicate KnownAttribute(key: string) {
    key in ["HEAD", "branch", "detached", "bare", "locked", "prunable"]
  }

  /**
   * Fields that are refused wherever they stand: inside a worktree an unknown attribute or another worktree; outside
   * one anything but a worktree; and everywhere a worktree without a path.
   */
  predicate BadField(key: string, value: string, inside: bool) {
    if key == "worktree" then inside || value == "" else !inside || !KnownAttribute(key)
  }

  lemma {:induction false} BadFieldRefused(field: string, current: Option<Worktrees.Worktree>)
    requires BadField(Worktrees.KeyOf(field), Worktrees.ValueOf(field), current.Some?)
    ensures Worktrees.ReadField(field, current).Err?
  {
  }

  lemma {:induction false} ReadStops(
    field: string, rest: seq<string>, current: Option<Worktrees.Worktree>, done: seq<Worktrees.Worktree>)
    requires field != "" && Worktrees.ReadField(field, current).Err?
    ensures Worktrees.ReadFields([field] + rest, current, done).Err?
  {
  }

  /** After any worktrees, a bad field outside one is refused, whatever follows. */
  lemma {:induction false} BadFieldOutside(
    list: seq<Worktrees.Listed>, key: string, value: string, rest: seq<string>)
    requires forall l <- list :: Worktrees.WellFormed(l)
    requires ' ' !in key && BadField(key, value, false) && NUL !in key && NUL !in value
    requires forall field <- rest :: NUL !in field
    ensures Worktrees.ParseWorktrees(Terminate(Worktrees.PrintFields(list) + ([key + " " + value] + rest))).Err?
  {
    var more := [key + " " + value] + rest;
    Worktrees.KeyValue(key, value);
    BadFieldRefused(key + " " + value, None);
    forall l <- list ensures l.path != "" { assert Worktrees.WellFormed(l); }
    ListGoesOn(list, more);
    ReadStops(key + " " + value, rest + [""], None, [] + Worktrees.Descriptions(list));
    assert more + [""] == [key + " " + value] + (rest + [""]);
  }

  /** And so is a bad field inside one. */
  lemma {:induction false} BadFieldInside(
    list: seq<Worktrees.Listed>, path: string, key: string, value: string, rest: seq<string>)
    requires (forall l <- list :: Worktrees.WellFormed(l)) && path != "" && NUL !in path
    requires ' ' !in key && BadField(key, value, true) && NUL !in key && NUL !in value
    requires forall field <- rest :: NUL !in field
    ensures Worktrees.ParseWorktrees(
              Terminate(Worktrees.PrintFields(list) + (["worktree" + " " + path, key + " " + value] + rest))).Err?
  {
    var opening, bad := "worktree" + " " + path, key + " " + value;
    var more := [opening, bad] + rest;
    Worktrees.KeyValue(key, value);
    ListGoesOn(list, more);
    var done := [] + Worktrees.Descriptions(list);
    InsideStops(path, opening, bad, rest + [""], done);
    TwoAhead(opening, bad, rest, [""]);
  }

  lemma {:induction false} TwoAhead<T>(x: T, y: T, rest: seq<T>, more: seq<T>)
    ensures [x, y] + rest + more == [x] + ([y] + (rest + more))
  {
  }

  lemma {:induction false} InsideStops(
    path: string, opening: string, bad: string, rest: seq<string>, done: seq<Worktrees.Worktree>)
    requires path != "" && opening == "worktree" + " " + path && bad != ""
    requires BadField(Worktrees.KeyOf(bad), Worktrees.ValueOf(bad), true)
    ensures Worktrees.ReadFields([opening] + ([bad] + rest), None, done).Err?
  {
    var w := Worktrees.Worktree(path, None, false, false, None, None);
    Worktrees.KeyValue("worktree", path);
    Worktrees.ReadOne(opening, [bad] + rest, None, done);
    BadFieldRefused(bad, Some(w));
    ReadStops(bad, rest, Some(w), done);
  }

  /** The parser reads the fields after the printed worktrees, or has refused the text already. */
  lemma {:induction false} ListGoesOn(list: seq<Worktrees.Listed>, more: seq<string>)
    requires forall l <- list :: Worktrees.WellFormed(l)
    requires forall field <- more :: NUL !in field
    ensures var r := Worktrees.ParseWorktrees(Terminate(Worktrees.PrintFields(list) + more));
            r.Err? || r == Worktrees.ReadFields(more + [""], None, [] + Worktrees.Descriptions(list))
  {
    var fields := Worktrees.PrintFields(list) + more;
    Worktrees.PrintedNulFree(list);
    SplitTerminate(fields);
    forall l <- list ensures l.path != "" { assert Worktrees.WellFormed(l); }
    Worktrees.ListReads(list, more + [""], []);
    assert fields + [""] == Worktrees.PrintFields(list) + (more + [""]);
  }

  /** A branch is shown without `refs/heads/`, and any other ref as it is. */
  lemma {:induction false} BranchShown(l: Worktrees.Listed, branch: string)
    requires Worktrees.WellFormed(l)
    ensures var r := Worktrees.ParseWorktrees(Worktrees.PrintWorktrees([l]));
            && r.Ok? && |r.value| == 1
            && (l.branch.None? ==> r.value[0].branch.None?)
            && (l.branch == Some("refs/heads/" + branch) ==> r.value[0].branch == Some(branch))
            && (l.branch.Some? && !("refs/heads/" <= l.branch.value) ==> r.value[0].branch == l.branch)
  {
    Worktrees.WorktreeRoundTrip([l]);
    assert [l][1..] == [];
    HeadsCut(branch);
  }

  lemma {:induction false} HeadsCut(branch: string)
    ensures Worktrees.ShortBranch("refs/heads/" + branch) == branch
  {
    var name := "refs/heads/" + branch;
    assert name[..11] == "refs/heads/" && name[11..] == branch;
  }
}
