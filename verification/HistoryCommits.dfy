/** What a decoded commit says, in terms of what was printed: its ids, its parents and its description. */
module HistoryCommits {
  import opened Wrappers
  import opened Text
  import opened HistoryRecords

  // ---- Ids ----

  const HEX_DIGITS := "0123456789abcdef"

  type Byte = n: nat | n < 256

  /** The bytes of an id in lower-case hexadecimal. */
  function HexOf(bytes: seq<Byte>): string {
    if bytes == [] then "" else [HEX_DIGITS[bytes[0] / 16], HEX_DIGITS[bytes[0] % 16]] + HexOf(bytes[1..])
  }

  lemma {:induction false} HexDigit(c: char) returns (n: nat)
    ensures Hex(c) <==> c in HEX_DIGITS
    ensures Hex(c) ==> n < 16 && HEX_DIGITS[n] == c
  {
    n := if '0' <= c <= '9' then c as int - '0' as int else if 'a' <= c <= 'f' then c as int - 'a' as int + 10 else 0;
  }

  lemma {:induction false} HexReads(bytes: seq<Byte>)
    ensures AllHex(HexOf(bytes)) && |HexOf(bytes)| == 2 * |bytes|
  {
    if bytes == [] {
    } else {
      HexReads(bytes[1..]);
      var high := HexDigit(HEX_DIGITS[bytes[0] / 16]);
      var low := HexDigit(HEX_DIGITS[bytes[0] % 16]);
    }
  }

  lemma {:induction false} HexBytes(s: string, n: nat) returns (bytes: seq<Byte>)
    requires |s| == 2 * n && AllHex(s)
    ensures |bytes| == n && HexOf(bytes) == s
    decreases n
  {
    if n == 0 {
      bytes := [];
    } else {
      assert s[0] in s && s[1] in s && forall c <- s[2..] :: c in s;
      var high := HexDigit(s[0]);
      var low := HexDigit(s[1]);
      var rest := HexBytes(s[2..], n - 1);
      var first := 16 * high + low;
      assert first / 16 == high && first % 16 == low;
      bytes := [first] + rest;
      assert bytes[1..] == rest && [s[0], s[1]] + s[2..] == s;
    }
  }

  /** A full id is exactly what printing the 20 bytes of a SHA-1 or the 32 of a SHA-256 gives. */
  lemma {:induction false} FullIdIsHex(s: string)
    ensures FullId(s) <==> exists bytes: seq<Byte> :: (|bytes| == 20 || |bytes| == 32) && HexOf(bytes) == s
  {
    if FullId(s) { var bytes := HexBytes(s, |s| / 2); }
    if bytes: seq<Byte> :| (|bytes| == 20 || |bytes| == 32) && HexOf(bytes) == s { HexReads(bytes); }
  }

  /** A displayed id is exactly a prefix, of four characters or more, of some full id. */
  lemma {:induction false} AbbreviatedIdIsPrefix(s: string)
    ensures AbbreviatedId(s) <==> |s| >= 4 && exists id: string :: FullId(id) && s <= id
  {
    if AbbreviatedId(s) {
      var id: string := s + seq((if |s| <= 40 then 40 else 64) - |s|, _ => '0');
      assert FullId(id) && s <= id;
    }
    if id: string :| FullId(id) && s <= id { assert forall c <- s :: c in id; }
  }

  type Nibble = n: nat | n < 16

  /** Jujutsu writes change ids in hexadecimal digits counted down from `z`. */
  function ReverseHex(nibbles: seq<Nibble>): string {
    seq(|nibbles|, i requires 0 <= i < |nibbles| => ('z' as int - nibbles[i]) as char)
  }

  /** Any such id, of 4 to 64 digits, is accepted; shorter and longer ones are not. */
  lemma {:induction false} ReverseHexIsChangeId(nibbles: seq<Nibble>)
    ensures ChangeId(ReverseHex(nibbles)) <==> 4 <= |nibbles| <= 64
  {
    assert forall c <- ReverseHex(nibbles) :: 'a' <= c <= 'z';
  }

  /** No id holds a character between or beside the digits and the lower-case letters. */
  lemma {:induction false} OddCharacterRefused(a: string, c: char, b: string)
    requires c < '0' || '9' < c < 'a' || 'z' < c
    ensures !ChangeId(a + [c] + b) && !FullId(a + [c] + b) && !AbbreviatedId(a + [c] + b)
  {
    var text := a + [c] + b;
    assert text[|a|] == c && c in text && !Hex(c);
  }

  // ---- Which records are accepted ----

  ghost predicate AllFull(ids: seq<string>) { forall id <- ids :: FullId(id) }

  /** Exactly which Git records are accepted. */
  lemma {:induction false} GitAccepts(
    labels: map<string, seq<Decoration>>, firstParent: bool, omitGraph: bool, fields: seq<string>)
    requires |fields| == 8
    ensures var parents := NonEmpty(Split(fields[2], ' '));
            DecodeGit(labels, firstParent, omitGraph, fields).Ok?
            <==> FullId(fields[0]) && AbbreviatedId(fields[1]) && fields[5] != ""
                 && (if firstParent then parents != [] ==> FullId(parents[0]) else AllFull(parents))
  {
    DateKept(fields[5]);
    var parents := NonEmpty(Split(fields[2], ' '));
    var kept := FirstOnly(parents, firstParent);
    assert firstParent && parents != [] ==> kept == [parents[0]];
    assert AllFull(kept) <==> !exists q <- kept :: !FullId(q);
  }

  lemma {:induction false} DateKept(date: string)
    ensures NormalizeAuthoredAt(date) == "" <==> date == ""
  {
  }

  // ---- Parents ----

  /** The virtual root's id is made of zeros. */
  predicate IsRoot(id: string) { id != "" && forall c <- id :: c == '0' }

  /** The places are in order, and what is shown stands there. */
  ghost predicate Placed(printed: seq<string>, shown: seq<string>, at: seq<nat>) {
    && |at| == |shown|
    && (forall i | 0 <= i < |at| :: at[i] < |printed| && shown[i] == printed[at[i]])
    && (forall i, j | 0 <= i < j < |at| :: at[i] < at[j])
  }

  /** `at` lists, in order, the places of everything printed that is not the root, and `shown` is what stands there. */
  ghost predicate Picks(printed: seq<string>, shown: seq<string>, at: seq<nat>) {
    Placed(printed, shown, at) && forall k | 0 <= k < |printed| :: k in at <==> !IsRoot(printed[k])
  }

  lemma {:induction false} WithoutRootPicks(printed: seq<string>, shown: seq<string>) returns (at: seq<nat>)
    requires shown == WithoutRoot(printed)
    ensures Picks(printed, shown, at)
  {
    if printed == [] {
      at := [];
    } else {
      var rest := WithoutRoot(printed[1..]);
      var tail := WithoutRootPicks(printed[1..], rest);
      var moved := seq(|tail|, i requires 0 <= i < |tail| => tail[i] + 1);
      at := (if IsRoot(printed[0]) then [] else [0]) + moved;
      PicksCons(printed, rest, tail, moved, at);
    }
  }

  lemma {:induction false} MovedHolds(tail: seq<nat>, moved: seq<nat>, k: nat)
    requires |moved| == |tail| && forall i | 0 <= i < |tail| :: moved[i] == tail[i] + 1
    ensures k + 1 in moved <==> k in tail
    ensures 0 !in moved
  {
    if k + 1 in moved {
      var i :| 0 <= i < |moved| && moved[i] == k + 1;
      assert tail[i] == k;
    }
    if k in tail {
      var i :| 0 <= i < |tail| && tail[i] == k;
      assert moved[i] == k + 1;
    }
  }

  lemma {:induction false} PicksCons(
    printed: seq<string>, rest: seq<string>, tail: seq<nat>, moved: seq<nat>, at: seq<nat>)
    requires printed != [] && Picks(printed[1..], rest, tail)
    requires |moved| == |tail| && forall i | 0 <= i < |tail| :: moved[i] == tail[i] + 1
    requires at == (if IsRoot(printed[0]) then [] else [0]) + moved
    ensures Picks(printed, (if IsRoot(printed[0]) then [] else [printed[0]]) + rest, at)
  {
    MovedPicks(printed, rest, tail, moved);
    forall k | 0 <= k < |printed| ensures k in at <==> !IsRoot(printed[k]) {
      PlacesCons(printed, tail, moved, at, k);
    }
    if !IsRoot(printed[0]) { FirstPicked(printed, rest, moved); }
  }

  /** Places among the rest, counted from one item earlier. */
  lemma {:induction false} MovedPicks(printed: seq<string>, rest: seq<string>, tail: seq<nat>, moved: seq<nat>)
    requires printed != [] && Picks(printed[1..], rest, tail)
    requires |moved| == |tail| && forall i | 0 <= i < |tail| :: moved[i] == tail[i] + 1
    ensures Placed(printed, rest, moved) && forall i | 0 <= i < |moved| :: 0 < moved[i]
  {
    forall i | 0 <= i < |moved| ensures moved[i] < |printed| && rest[i] == printed[moved[i]] {
      assert printed[1..][tail[i]] == printed[tail[i] + 1];
    }
  }

  lemma {:induction false} FirstPicked(printed: seq<string>, rest: seq<string>, moved: seq<nat>)
    requires printed != [] && Placed(printed, rest, moved) && forall i | 0 <= i < |moved| :: 0 < moved[i]
    ensures Placed(printed, [printed[0]] + rest, [0] + moved)
  {
    var shown, at := [printed[0]] + rest, [0] + moved;
    assert forall i | 0 < i < |at| :: at[i] == moved[i - 1] && shown[i] == rest[i - 1];
  }

  lemma {:induction false} PlacesCons(printed: seq<string>, tail: seq<nat>, moved: seq<nat>, at: seq<nat>, k: nat)
    requires k < |printed| && |moved| == |tail| && forall i | 0 <= i < |tail| :: moved[i] == tail[i] + 1
    requires forall j | 0 <= j < |printed| - 1 :: j in tail <==> !IsRoot(printed[1..][j])
    requires at == (if IsRoot(printed[0]) then [] else [0]) + moved
    ensures k in at <==> !IsRoot(printed[k])
  {
    if k == 0 {
      MovedHolds(tail, moved, 0);
    } else {
      MovedHolds(tail, moved, k - 1);
      assert printed[k] == printed[1..][k - 1] && (k in at <==> k in moved);
    }
  }

  lemma {:induction false} WithoutRootMembers(ids: seq<string>, id: string)
    ensures id in WithoutRoot(ids) <==> id in ids && !IsRoot(id)
  {
    if ids == [] {
    } else {
      WithoutRootMembers(ids[1..], id);
      assert id in ids <==> id == ids[0] || id in ids[1..];
    }
  }

  /** Exactly which Jujutsu records are accepted: a parent that is not the root must be a full id. */
  lemma {:induction false} JjAccepts(firstParent: bool, omitGraph: bool, fields: seq<string>)
    requires |fields| == 13
    ensures DecodeJj(firstParent, omitGraph, fields).Ok?
            <==> FullId(fields[0]) && ChangeId(fields[1]) && fields[2] != "" && fields[6] != ""
                 && forall id <- NonEmpty(Split(fields[3], ' ')) :: IsRoot(id) || FullId(id)
  {
    var printed := NonEmpty(Split(fields[3], ' '));
    forall id <- WithoutRoot(printed) ensures id in printed && !IsRoot(id) { WithoutRootMembers(printed, id); }
    forall id <- printed | !IsRoot(id) ensures id in WithoutRoot(printed) { WithoutRootMembers(printed, id); }
  }

  /** The parents of a decoded Jujutsu commit are exactly the printed ones that are not the root, in printed order. */
  lemma {:induction false} JjParentsPicked(r: Revision, omitGraph: bool) returns (at: seq<nat>)
    requires JjRevision(r)
    ensures DecodeJj(false, omitGraph, JjFields(r)).Ok?
    ensures Picks(r.parents, DecodeJj(false, omitGraph, JjFields(r)).value.parents, at)
  {
    JjRecordRoundTrip(r, false, omitGraph);
    at := WithoutRootPicks(r.parents, WithoutRoot(r.parents));
  }

  /** What is picked is settled by what was printed. */
  lemma {:induction false} PicksAll(printed: seq<string>, shown: seq<string>, at: seq<nat>)
    requires Picks(printed, shown, at) && forall id <- printed :: !IsRoot(id)
    ensures shown == printed
  {
    forall k | 0 <= k < |printed| ensures k in at { assert printed[k] in printed; }
    AllPlaces(at, |printed|);
  }

  lemma {:induction false} AllPlaces(at: seq<nat>, n: nat)
    requires forall i, j | 0 <= i < j < |at| :: at[i] < at[j]
    requires forall k | 0 <= k < n :: k in at
    requires forall i | 0 <= i < |at| :: at[i] < n
    ensures |at| == n && forall i | 0 <= i < n :: at[i] == i
  {
    if n == 0 {
    } else {
      assert n - 1 in at;
      var i :| 0 <= i < |at| && at[i] == n - 1;
      var last := at[|at| - 1];
      assert last < n;
      assert i == |at| - 1;
      var init := at[..|at| - 1];
      forall k | 0 <= k < n - 1 ensures k in init {
        assert k in at;
        var j :| 0 <= j < |at| && at[j] == k;
        assert init[j] == k;
      }
      AllPlaces(init, n - 1);
      assert forall j | 0 <= j < n - 1 :: at[j] == init[j];
    }
  }

  lemma {:induction false} WithoutRootConcat(a: seq<string>, b: seq<string>, all: seq<string>)
    requires all == a + b
    ensures WithoutRoot(all) == WithoutRoot(a) + WithoutRoot(b)
  {
    if a == [] {
      assert all == b;
    } else {
      assert all[1..] == a[1..] + b;
      WithoutRootConcat(a[1..], b, all[1..]);
    }
  }

  /** Without the root among them, a commit has exactly the parents that were printed. */
  lemma {:induction false} JjParentsKept(r: Revision, omitGraph: bool)
    requires JjRevision(r) && forall id <- r.parents :: !IsRoot(id)
    ensures DecodeJj(false, omitGraph, JjFields(r)).Ok?
    ensures DecodeJj(false, omitGraph, JjFields(r)).value.parents == r.parents
  {
    var at := JjParentsPicked(r, omitGraph);
    PicksAll(r.parents, DecodeJj(false, omitGraph, JjFields(r)).value.parents, at);
  }

  lemma {:induction false} NoRootStays(ids: seq<string>)
    requires forall id <- ids :: !IsRoot(id)
    ensures WithoutRoot(ids) == ids
  {
    var at := WithoutRootPicks(ids, WithoutRoot(ids));
    PicksAll(ids, WithoutRoot(ids), at);
  }

  lemma {:induction false} RootDropped(a: seq<string>, root: string, b: seq<string>, rest: seq<string>, all: seq<string>)
    requires rest == [root] + b && all == a + rest && IsRoot(root)
    requires (forall id <- a :: !IsRoot(id)) && forall id <- b :: !IsRoot(id)
    ensures WithoutRoot(all) == a + b
  {
    NoRootStays(a);
    NoRootStays(b);
    RootFirst(root, b, rest);
    WithoutRootConcat(a, rest, all);
  }

  lemma {:induction false} Associate<T>(a: seq<T>, b: seq<T>, c: seq<T>)
    ensures a + b + c == a + (b + c)
  {
  }

  lemma {:induction false} RootFirst(root: string, b: seq<string>, all: seq<string>)
    requires IsRoot(root) && all == [root] + b
    ensures WithoutRoot(all) == WithoutRoot(b)
  {
    assert all[1..] == b && all[0] == root;
  }

  /** With the root among them, it has exactly the others. */
  lemma {:induction false} JjRootDropped(r: Revision, a: seq<string>, root: string, b: seq<string>, omitGraph: bool)
    requires JjRevision(r) && r.parents == a + [root] + b && IsRoot(root)
    requires (forall id <- a :: !IsRoot(id)) && forall id <- b :: !IsRoot(id)
    ensures DecodeJj(false, omitGraph, JjFields(r)).Ok?
    ensures DecodeJj(false, omitGraph, JjFields(r)).value.parents == a + b
  {
    JjRecordRoundTrip(r, false, omitGraph);
    Associate(a, [root], b);
    RootDropped(a, root, b, [root] + b, r.parents);
  }

  /** In first-parent mode a Jujutsu commit has just the first of the parents it has otherwise. */
  lemma {:induction false} JjFirstParent(r: Revision, omitGraph: bool)
    requires JjRevision(r)
    ensures DecodeJj(true, omitGraph, JjFields(r)).Ok? && DecodeJj(false, omitGraph, JjFields(r)).Ok?
    ensures var all := DecodeJj(false, omitGraph, JjFields(r)).value.parents;
            DecodeJj(true, omitGraph, JjFields(r)).value.parents == if all == [] then [] else [all[0]]
  {
    JjRecordRoundTrip(r, true, omitGraph);
    JjRecordRoundTrip(r, false, omitGraph);
  }

  /** A Git commit has exactly the parents that were printed, or the first of them in first-parent mode. */
  lemma {:induction false} GitParents(e: GitEntry, labels: map<string, seq<Decoration>>, omitGraph: bool)
    requires GitPrints(e)
    ensures DecodeGit(labels, false, omitGraph, GitFields(e)).Ok? && DecodeGit(labels, true, omitGraph, GitFields(e)).Ok?
    ensures DecodeGit(labels, false, omitGraph, GitFields(e)).value.parents == e.parents
    ensures DecodeGit(labels, true, omitGraph, GitFields(e)).value.parents
            == if e.parents == [] then [] else [e.parents[0]]
  {
    GitRecordRoundTrip(e, labels, false, omitGraph);
    GitRecordRoundTrip(e, labels, true, omitGraph);
  }

  // ---- Descriptions ----

  predicate OneLine(text: string) { '\n' !in text }

  /** The first line of an unended text and what follows it. */
  lemma {:induction false} FirstLine(subject: string, rest: string, text: string)
    requires OneLine(subject) && text == subject + "\n" + rest
    ensures IndexOf(text, '\n') == |subject| && text[..|subject|] == subject && text[|subject| + 1..] == rest
  {
    IndexOfFirst(subject, '\n', rest);
    assert text == subject + ['\n'] + rest;
  }

  lemma {:induction false} AfterGap(gap: string, body: string)
    requires (gap == "\n" || gap == "\n\n") && body != "" && body[0] != '\n'
    ensures var rest := gap[1..] + body; (if StartsWith(rest, "\n") then rest[1..] else rest) == body
  {
    var rest := gap[1..] + body;
    if gap == "\n" {
      assert rest == body && !StartsWith(rest, "\n");
    } else {
      assert gap[1..] == "\n" && rest[0] == '\n' && rest[1..] == body && rest[..1] == "\n";
    }
  }

  lemma {:induction false} Regrouped(subject: string, gap: string, body: string)
    requires gap == "\n" || gap == "\n\n"
    ensures subject + gap + body == subject + "\n" + (gap[1..] + body)
  {
  }

  /** However a description ends, and whether or not a blank line parts them, its subject and body come out. */
  lemma {:induction false} DescriptionForms(subject: string, gap: string, body: string, ending: string)
    requires subject != "" && OneLine(subject) && (gap == "\n" || gap == "\n\n") && (ending == "" || ending == "\n")
    requires body != "" && body[0] != '\n' && body[|body| - 1] != '\n'
    ensures SplitDescription(subject + gap + body + ending) == (subject, Some(body))
  {
    var text, rest := subject + gap + body, gap[1..] + body;
    var whole := text + ending;
    Unended(text, ending);
    Regrouped(subject, gap, body);
    FirstLine(subject, rest, text);
    AfterGap(gap, body);
    Described(whole, text, subject, rest, body);
  }

  lemma {:induction false} Described(whole: string, text: string, subject: string, rest: string, body: string)
    requires text == if EndsWith(whole, "\n") then whole[..|whole| - 1] else whole
    requires IndexOf(text, '\n') == |subject| && subject != "" && body != ""
    requires text[..|subject|] == subject && text[|subject| + 1..] == rest
    requires body == if StartsWith(rest, "\n") then rest[1..] else rest
    ensures SplitDescription(whole) == (subject, Some(body))
  {
  }

  /** One final newline is left off. */
  lemma {:induction false} Unended(text: string, ending: string)
    requires text != "" && text[|text| - 1] != '\n' && (ending == "" || ending == "\n")
    ensures var whole := text + ending;
            text == if EndsWith(whole, "\n") then whole[..|whole| - 1] else whole
  {
    var whole := text + ending;
    assert whole[|whole| - 1..] == [whole[|whole| - 1]];
  }

  /** A description of one line has no body. */
  lemma {:induction false} SubjectAlone(subject: string, ending: string)
    requires subject != "" && OneLine(subject) && (ending == "" || ending == "\n")
    ensures SplitDescription(subject + ending) == (subject, None)
  {
    assert subject[|subject| - 1] in subject;
    Unended(subject, ending);
  }
}
