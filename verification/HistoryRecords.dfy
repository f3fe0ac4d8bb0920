/** How one Git record (8 fields) and one Jujutsu record (13 fields) become a commit. */
module HistoryRecords {
  import opened Wrappers
  import opened Text
  import opened HistoryParser

  datatype Decoration = Decoration(kind: string, text: string)

  datatype Commit = Commit(
    revisionId: string, displayId: string, parents: seq<string>, graphParentsOmitted: bool,
    subject: string, body: Option<string>, authorName: string, authorEmail: Option<string>,
    authoredAt: string, decorations: seq<Decoration>, logicalId: Option<string>)

  predicate Hex(c: char) { '0' <= c <= '9' || 'a' <= c <= 'f' }

  predicate AllHex(s: string) { forall c <- s :: Hex(c) }

  /** `^(?:[0-9a-f]{40}|[0-9a-f]{64})$` */
  predicate FullId(s: string) { (|s| == 40 || |s| == 64) && AllHex(s) }

  /** `^[0-9a-f]{4,64}$` */
  predicate AbbreviatedId(s: string) { 4 <= |s| <= 64 && AllHex(s) }

  /** `^[a-z0-9]{4,64}$` */
  predicate ChangeId(s: string) {
    4 <= |s| <= 64 && forall c <- s :: '0' <= c <= '9' || 'a' <= c <= 'z'
  }

  /** `^0+$`: Jujutsu's virtual root. */
  predicate RootId(s: string) { s != "" && forall c <- s :: c == '0' }

  function Present(s: string): Option<string> { if s == "" then None else Some(s) }

  /** Git spells UTC as `Z` or, in older releases, `+00:00`. */
  function NormalizeAuthoredAt(s: string): string {
    if EndsWith(s, "+00:00") then s[..|s| - 6] + "Z" else s
  }

  function FirstOnly(parents: seq<string>, firstParent: bool): seq<string> {
    if firstParent && |parents| > 1 then parents[..1] else parents
  }

  function DecodeGit(
    labels: map<string, seq<Decoration>>, firstParent: bool, omitGraph: bool, fields: seq<string>)
    : (r: Result<Commit, Error>)
    ensures r.Ok? ==> FullId(r.value.revisionId) && r.value.subject != "" && r.value.authorName != ""
    ensures r.Ok? ==> forall parent <- r.value.parents :: FullId(parent)
  {
    if |fields| != 8 then Err(WrongArity)
    else
      var authoredAt := NormalizeAuthoredAt(fields[5]);
      if fields[0] == "" || fields[1] == "" || authoredAt == "" then Err(IncompleteRecord)
      else
        var parents := FirstOnly(NonEmpty(Split(fields[2], ' ')), firstParent);
        if !FullId(fields[0]) || !AbbreviatedId(fields[1]) || exists q <- parents :: !FullId(q) then
          Err(InvalidObjectId)
        else
          Ok(Commit(
               fields[0], fields[1], parents, omitGraph,
               if fields[6] == "" then "(no commit message)" else fields[6], Present(fields[7]),
               if fields[3] == "" then "Unknown author" else fields[3], Present(fields[4]),
               authoredAt, if fields[0] in labels then labels[fields[0]] else [], None))
  }

  function WithoutRoot(parents: seq<string>): seq<string> {
    if parents == [] then []
    else (if RootId(parents[0]) then [] else [parents[0]]) + WithoutRoot(parents[1..])
  }

  /** The subject line and the rest of a Jujutsu description. */
  function SplitDescription(description: string): (r: (string, Option<string>))
    ensures r.0 != "" && '\n' !in r.0
  {
    var text := if EndsWith(description, "\n") then description[..|description| - 1] else description;
    var boundary := IndexOf(text, '\n');
    var subject := if boundary < 0 then text else text[..boundary];
    var shown := if subject == "" then "(no description set)" else subject;
    if boundary < 0 then (shown, None)
    else
      var body := text[boundary + 1..];
      (shown, Present(if StartsWith(body, "\n") then body[1..] else body))
  }

  function Labels(kind: string, labels: seq<string>): seq<Decoration> {
    if labels == [] then []
    else (if labels[0] == "" then [] else [Decoration(kind, labels[0])]) + Labels(kind, labels[1..])
  }

  function LabelsIn(kind: string, field: string): seq<Decoration> {
    Labels(kind, Split(field, '\U{1f}'))
  }

  function JjDecorations(fields: seq<string>): seq<Decoration>
    requires |fields| == 13
  {
    (if fields[8] == "1" then [Decoration("head", "@")] else [])
    + LabelsIn("local-branch", fields[9]) + LabelsIn("remote-branch", fields[10])
    + LabelsIn("tag", fields[11]) + LabelsIn("tag", fields[12])
  }

  function DecodeJj(firstParent: bool, omitGraph: bool, fields: seq<string>): (r: Result<Commit, Error>)
    ensures r.Ok? ==> FullId(r.value.revisionId) && r.value.subject != "" && '\n' !in r.value.subject
    ensures r.Ok? ==> forall parent <- r.value.parents :: FullId(parent)
  {
    if |fields| != 13 then Err(WrongArity)
    else if !FullId(fields[0]) || !ChangeId(fields[1]) || fields[2] == "" || fields[6] == "" then Err(InvalidRecord)
    else
      var parents := WithoutRoot(NonEmpty(Split(fields[3], ' ')));
      if exists q <- parents :: !FullId(q) then Err(InvalidParentId)
      else
        var (subject, body) := SplitDescription(fields[7]);
        Ok(Commit(
             fields[0], fields[1], FirstOnly(parents, firstParent), omitGraph, subject, body,
             if fields[4] == "" then "Unknown author" else fields[4], Present(fields[5]), fields[6],
             JjDecorations(fields), Some(fields[2])))
  }

  /** Every parent a Jujutsu record keeps is a real commit, never the virtual root. */
  lemma {:induction false} RootNeverSurfaces(firstParent: bool, omitGraph: bool, fields: seq<string>)
    ensures var r := DecodeJj(firstParent, omitGraph, fields);
            r.Ok? ==> forall parent <- r.value.parents :: !RootId(parent)
  {
    if |fields| == 13 {
      WithoutRootKeeps(NonEmpty(Split(fields[3], ' ')));
    }
  }

  lemma {:induction false} WithoutRootKeeps(parents: seq<string>)
    ensures forall parent <- WithoutRoot(parents) :: !RootId(parent)
  {
    if parents == [] {
    } else {
      WithoutRootKeeps(parents[1..]);
    }
  }

  // ---- Printing Git records ----

  /** A commit as Git's format sees it. */
  datatype GitEntry = GitEntry(
    id: string, abbreviation: string, parents: seq<string>, name: string, email: string, date: string,
    subject: string, body: string)

  /** The fields Git prints for a commit (`%H %h %P %an %ae %aI %s %b`). */
  function GitFields(e: GitEntry): seq<string> {
    [e.id, e.abbreviation, Join(e.parents, " "), e.name, e.email, e.date, e.subject, e.body]
  }

  /** Commits Git can print: any of the name, the address, the subject and the body may be empty. */
  ghost predicate GitPrints(e: GitEntry) {
    FullId(e.id) && AbbreviatedId(e.abbreviation) && e.date != "" && forall parent <- e.parents :: FullId(parent)
  }

  /** The commit that stands for a printed one. */
  function GitShownAs(
    e: GitEntry, labels: map<string, seq<Decoration>>, firstParent: bool, omitGraph: bool): Commit
  {
    Commit(
      revisionId := e.id, displayId := e.abbreviation, logicalId := None,
      parents := FirstOnly(e.parents, firstParent), graphParentsOmitted := omitGraph,
      subject := if e.subject == "" then "(no commit message)" else e.subject, body := Present(e.body),
      authorName := if e.name == "" then "Unknown author" else e.name, authorEmail := Present(e.email),
      authoredAt := NormalizeAuthoredAt(e.date), decorations := if e.id in labels then labels[e.id] else [])
  }

  /** Both spellings of a UTC date are shown as `Z`, and every other date as it is. */
  lemma {:induction false} UtcSpelledOneWay(date: string)
    ensures NormalizeAuthoredAt(date + "+00:00") == date + "Z" == NormalizeAuthoredAt(date + "Z")
    ensures !EndsWith(date, "+00:00") ==> NormalizeAuthoredAt(date) == date
  {
    var utc, zulu := date + "+00:00", date + "Z";
    assert utc[|utc| - 6..] == "+00:00" && utc[..|utc| - 6] == date;
    assert |zulu| >= 6 ==> zulu[|zulu| - 6..][5] == 'Z';
  }

  /** A printed list of parent ids reads back as itself. */
  lemma {:induction false} ParentsRead(parents: seq<string>)
    requires forall parent <- parents :: FullId(parent)
    ensures NonEmpty(Split(Join(parents, " "), ' ')) == parents
  {
    if parents == [] {
      assert NonEmpty(Split("", ' ')) == [];
    } else {
      forall parent <- parents ensures ' ' !in parent { assert AllHex(parent); }
      SplitJoin(parents, ' ');
      forall i | 0 <= i < |parents| ensures parents[i] != "" { assert FullId(parents[i]); }
      NonEmptyKeeps(parents);
    }
  }

  /** Reading back the fields Git prints for a commit gives the commit that stands for it, in every mode. */
  lemma {:induction false} GitRecordRoundTrip(
    e: GitEntry, labels: map<string, seq<Decoration>>, firstParent: bool, omitGraph: bool)
    requires GitPrints(e)
    ensures DecodeGit(labels, firstParent, omitGraph, GitFields(e)) == Ok(GitShownAs(e, labels, firstParent, omitGraph))
  {
    ParentsRead(e.parents);
    GitFieldsRead(e, labels, firstParent, omitGraph, GitFields(e));
  }

  lemma {:induction false} GitFieldsRead(
    e: GitEntry, labels: map<string, seq<Decoration>>, firstParent: bool, omitGraph: bool, fields: seq<string>)
    requires GitPrints(e) && |fields| == 8 && NonEmpty(Split(fields[2], ' ')) == e.parents
    requires fields[0] == e.id && fields[1] == e.abbreviation && fields[3] == e.name && fields[4] == e.email
    requires fields[5] == e.date && fields[6] == e.subject && fields[7] == e.body
    ensures DecodeGit(labels, firstParent, omitGraph, fields) == Ok(GitShownAs(e, labels, firstParent, omitGraph))
  {
    assert forall parent <- FirstOnly(e.parents, firstParent) :: parent in e.parents;
  }

  lemma {:induction false} NonEmptyKeeps(parts: seq<string>)
    requires forall i | 0 <= i < |parts| :: parts[i] != ""
    ensures NonEmpty(parts) == parts
  {
    if parts == [] {
    } else {
      NonEmptyKeeps(parts[1..]);
    }
  }

  // ---- Printing Jujutsu records ----

  /** A revision as Jujutsu's template sees it. */
  datatype Revision = Revision(
    commitId: string, shortChangeId: string, changeId: string, parents: seq<string>, name: string, email: string,
    timestamp: string, description: string, workingCopy: bool,
    localBookmarks: seq<string>, remoteBookmarks: seq<string>, localTags: seq<string>, remoteTags: seq<string>)

  /** The 13 fields the history template prints. */
  function JjFields(r: Revision): seq<string> {
    [r.commitId, r.shortChangeId, r.changeId, Join(r.parents, " "), r.name, r.email, r.timestamp, r.description,
     if r.workingCopy then "1" else "0", Join(r.localBookmarks, ['\U{1f}']), Join(r.remoteBookmarks, ['\U{1f}']),
     Join(r.localTags, ['\U{1f}']), Join(r.remoteTags, ['\U{1f}'])]
  }

  ghost predicate Labelled(labels: seq<string>) { forall mark <- labels :: mark != "" && '\U{1f}' !in mark }

  /** Revisions Jujutsu can print; a parent may be the virtual root. */
  ghost predicate JjRevision(r: Revision) {
    && FullId(r.commitId) && ChangeId(r.shortChangeId) && r.changeId != "" && r.timestamp != ""
    && (forall parent <- r.parents :: FullId(parent))
    && Labelled(r.localBookmarks) && Labelled(r.remoteBookmarks) && Labelled(r.localTags) && Labelled(r.remoteTags)
  }

  function Marks(kind: string, labels: seq<string>): seq<Decoration> {
    if labels == [] then [] else [Decoration(kind, labels[0])] + Marks(kind, labels[1..])
  }

  function DecorationsOf(r: Revision): seq<Decoration> {
    (if r.workingCopy then [Decoration("head", "@")] else [])
    + Marks("local-branch", r.localBookmarks) + Marks("remote-branch", r.remoteBookmarks)
    + Marks("tag", r.localTags) + Marks("tag", r.remoteTags)
  }

  /** The commit that stands for a revision. */
  function ShownAs(r: Revision, firstParent: bool, omitGraph: bool): Commit {
    Commit(
      revisionId := r.commitId, displayId := r.shortChangeId, logicalId := Some(r.changeId),
      parents := FirstOnly(WithoutRoot(r.parents), firstParent), graphParentsOmitted := omitGraph,
      subject := SplitDescription(r.description).0, body := SplitDescription(r.description).1,
      authorName := if r.name == "" then "Unknown author" else r.name, authorEmail := Present(r.email),
      authoredAt := r.timestamp, decorations := DecorationsOf(r))
  }

  lemma {:induction false} LabelsRead(kind: string, labels: seq<string>)
    requires Labelled(labels)
    ensures LabelsIn(kind, Join(labels, ['\U{1f}'])) == Marks(kind, labels)
  {
    if labels == [] {
      assert Split("", '\U{1f}') == [""];
      assert Labels(kind, [""]) == [] + Labels(kind, []);
    } else {
      SplitJoin(labels, '\U{1f}');
      LabelsMark(kind, labels);
    }
  }

  lemma {:induction false} LabelsMark(kind: string, labels: seq<string>)
    requires Labelled(labels)
    ensures Labels(kind, labels) == Marks(kind, labels)
  {
    if labels == [] {
    } else {
      assert labels[0] in labels && forall mark <- labels[1..] :: mark in labels;
      LabelsMark(kind, labels[1..]);
    }
  }

  lemma {:induction false} WithoutRootIds(parents: seq<string>)
    requires forall parent <- parents :: FullId(parent)
    ensures forall parent <- WithoutRoot(parents) :: FullId(parent)
  {
    if parents == [] {
    } else {
      assert parents[0] in parents && forall parent <- parents[1..] :: parent in parents;
      WithoutRootIds(parents[1..]);
    }
  }

  lemma {:induction false} DecorationsRead(r: Revision)
    requires JjRevision(r)
    ensures JjDecorations(JjFields(r)) == DecorationsOf(r)
  {
    LabelsRead("local-branch", r.localBookmarks);
    LabelsRead("remote-branch", r.remoteBookmarks);
    LabelsRead("tag", r.localTags);
    LabelsRead("tag", r.remoteTags);
  }

  /** Reading back the fields Jujutsu prints for a revision gives the commit that stands for it, in every mode. */
  lemma {:induction false} JjRecordRoundTrip(r: Revision, firstParent: bool, omitGraph: bool)
    requires JjRevision(r)
    ensures DecodeJj(firstParent, omitGraph, JjFields(r)) == Ok(ShownAs(r, firstParent, omitGraph))
  {
    ParentsRead(r.parents);
    WithoutRootIds(r.parents);
    DecorationsRead(r);
    FieldsRead(r, firstParent, omitGraph, JjFields(r), Join(r.parents, " "));
  }

  lemma {:induction false} FieldsRead(
    r: Revision, firstParent: bool, omitGraph: bool, fields: seq<string>, printed: string)
    requires JjRevision(r) && |fields| == 13 && JjDecorations(fields) == DecorationsOf(r)
    requires fields[..8] == [r.commitId, r.shortChangeId, r.changeId, printed, r.name, r.email, r.timestamp, r.description]
    requires NonEmpty(Split(printed, ' ')) == r.parents && forall parent <- WithoutRoot(r.parents) :: FullId(parent)
    ensures DecodeJj(firstParent, omitGraph, fields) == Ok(ShownAs(r, firstParent, omitGraph))
  {
    var front := fields[..8];
    assert fields[0] == front[0] && fields[1] == front[1] && fields[2] == front[2] && fields[3] == front[3]
           && fields[4] == front[4] && fields[5] == front[5] && fields[6] == front[6] && fields[7] == front[7];
  }

  /** A description of a subject line, a blank line and a body splits into the two; one of a subject alone has no body. */
  lemma {:induction false} DescriptionRoundTrip(subject: string, body: string)
    requires subject != "" && '\n' !in subject && body != ""
    ensures SplitDescription(subject + "\n") == (subject, None)
    ensures SplitDescription(subject + "\n\n" + body + "\n") == (subject, Some(body))
    ensures SplitDescription("") == ("(no description set)", None)
  {
    var lone, whole := subject + "\n", subject + "\n\n" + body + "\n";
    assert lone[..|lone| - 1] == subject;
    var text := whole[..|whole| - 1];
    assert text == subject + ['\n'] + ("\n" + body);
    IndexOfFirst(subject, '\n', "\n" + body);
    assert text[..|subject|] == subject && text[|subject| + 1..] == "\n" + body && ("\n" + body)[1..] == body;
  }
}
