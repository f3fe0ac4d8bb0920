/** Splitting changelog text again and again, block by block, against one scan of the whole document. */
module ChangelogText {
  import opened Text
  import opened Wrappers
  import opened ChangelogBlocks

  function LinesOf(text: string): seq<string> { Split(text, '\n') }

  /** What `splitOnHeadings` returns. */
  function SplitText(markdown: string, marker: string): seq<string> {
    JoinBlocks(Blocks(LinesOf(markdown), marker))
  }

  /** The text of a block after its first line, as `parseChangelog` cuts it off. */
  function BodyOf(block: string): string {
    var newline := IndexOf(block, '\n');
    if newline < 0 then "" else block[newline + 1..]
  }

  // ---- What one scan of the document finds ----

  /** The headings of the document from one line up to another. */
  function Within(lines: seq<string>, from: nat, end: nat, marker: string): seq<nat>
    requires from <= end <= |lines|
  {
    Found(Flags(lines, marker), from, end)
  }

  /** They are exactly the lines there that one scan of the document calls headings. */
  lemma {:induction false} WithinExact(lines: seq<string>, from: nat, end: nat, marker: string, x: nat)
    requires from <= end <= |lines|
    ensures x in Within(lines, from, end, marker) <==> from <= x < end && IsHeading(lines, x, marker)
  {
    if x < |lines| { FlagAt(lines, marker, x); }
  }

  /** The texts are the document's own stretches between the headings found in a range of its lines. */
  ghost predicate Outlined(lines: seq<string>, end: nat, marker: string, found: seq<nat>, texts: seq<string>) {
    |texts| == |found| &&
    forall k | 0 <= k < |texts| ::
      IsStretch(lines, found, end, marker, k) && texts[k] == Join(Stretch(lines, found, end, marker, k), "\n")
  }

  const BULLET := "- "

  /** The entries are the document's own bullets found in a range, each with what one scan says the lines after it add. */
  ghost predicate EntriesOutlined(lines: seq<string>, end: nat, found: seq<nat>, entries: seq<string>) {
    |entries| == |found| && forall k | 0 <= k < |entries| :: EntryIs(lines, Pieces(lines), found, end, k, entries[k])
  }

  // ---- Lines of a body ----

  /** Cutting a block's text at its first newline and splitting the rest gives its later lines, or one empty line. */
  lemma {:induction false} BodyLines(block: seq<string>)
    requires block != [] && forall line <- block :: '\n' !in line
    ensures LinesOf(BodyOf(Join(block, "\n"))) == if |block| == 1 then [""] else block[1..]
  {
    if |block| == 1 {
      assert block[0] in block && IndexOf(block[0], '\n') < 0;
    } else {
      var first, rest := block[0], block[1..];
      assert first in block && forall line <- rest :: line in block;
      assert block == [first] + rest;
      JoinCons(first, rest, "\n");
      IndexOfFirst(first, '\n', Join(rest, "\n"));
      assert (first + "\n" + Join(rest, "\n"))[|first| + 1..] == Join(rest, "\n");
      SplitJoin(rest, '\n');
    }
  }

  /** The lines of a body are a range of the document's, or one empty line when the range is empty. */
  ghost predicate BodyIs(body: seq<string>, lines: seq<string>, from: nat, end: nat) {
    && from <= end <= |lines| && Scan(None, lines[..from]).None?
    && body == (if from == end then [""] else lines[from..end])
  }

  /** The flags of a range alone are the document's flags there. */
  lemma {:induction false} FlagsShift(lines: seq<string>, from: nat, end: nat, marker: string)
    requires from <= end <= |lines| && Scan(None, lines[..from]).None?
    ensures Flags(lines[from..end], marker) == Flags(lines, marker)[from..end]
  {
    var body, here, flags := lines[from..end], Flags(lines[from..end], marker), Flags(lines, marker);
    forall i | 0 <= i < |here| ensures here[i] == flags[from + i] { FlagShift(lines, from, end, marker, i); }
    assert |here| == |flags[from..end]|;
  }

  lemma {:induction false} FlagShift(lines: seq<string>, from: nat, end: nat, marker: string, i: nat)
    requires from <= end <= |lines| && Scan(None, lines[..from]).None? && i < end - from
    ensures Flags(lines[from..end], marker)[i] == Flags(lines, marker)[from + i]
  {
    FlagAt(lines[from..end], marker, i);
    BodyAgrees(lines, from, end, i, marker);
    FlagAt(lines, marker, from + i);
  }

  /** What is found among some of the flags is what is found in their place. */
  lemma {:induction false} FoundShift(flags: seq<bool>, here: seq<bool>, from: nat, n: nat)
    requires from + |here| <= |flags| && here == flags[from..from + |here|] && n <= |here|
    ensures var alone, found := Found(here, 0, n), Found(flags, from, from + n);
            |alone| == |found| && forall i | 0 <= i < |found| :: found[i] == from + alone[i]
  {
    if n == 0 {
    } else {
      FoundShift(flags, here, from, n - 1);
      assert here[n - 1] == flags[from + n - 1];
    }
  }

  lemma {:induction false} HeadingsShift(
    lines: seq<string>, from: nat, end: nat, marker: string, alone: seq<nat>, found: seq<nat>)
    requires from <= end <= |lines| && Scan(None, lines[..from]).None?
    requires alone == Headings(lines[from..end], marker) && found == Within(lines, from, end, marker)
    ensures |alone| == |found| && forall i | 0 <= i < |found| :: found[i] == from + alone[i]
  {
    FlagsShift(lines, from, end, marker);
    FlagsFound(Flags(lines, marker), Flags(lines[from..end], marker), from, end, alone, found);
  }

  lemma {:induction false} FlagsFound(
    flags: seq<bool>, here: seq<bool>, from: nat, end: nat, alone: seq<nat>, found: seq<nat>)
    requires from <= end <= |flags| && here == flags[from..end]
    requires alone == Found(here, 0, |here|) && found == Found(flags, from, end)
    ensures |alone| == |found| && forall i | 0 <= i < |found| :: found[i] == from + alone[i]
  {
    FoundShift(flags, here, from, |here|);
  }

  lemma {:induction false} EmptyBody(marker: string)
    requires marker != ""
    ensures Headings([""], marker) == []
  {
    assert [""][..0] == [] && !StartsWith("", marker);
    assert Flags([""], marker) == [false];
    assert Found([false], 0, 1) == Found([false], 0, 0) + [];
  }

  lemma {:induction false} JoinBlocksAt(blocks: seq<seq<string>>)
    ensures |JoinBlocks(blocks)| == |blocks|
    ensures forall k | 0 <= k < |blocks| :: JoinBlocks(blocks)[k] == Join(blocks[k], "\n")
  {
    if blocks == [] {
    } else {
      JoinBlocksAt(blocks[1..]);
    }
  }

  lemma {:induction false} StretchShift(
    body: seq<string>, lines: seq<string>, from: nat, end: nat, alone: seq<nat>, found: seq<nat>, marker: string, k: nat)
    requires from <= end <= |lines| && body == lines[from..end] && |alone| == |found|
    requires forall i | 0 <= i < |found| :: found[i] == from + alone[i]
    requires IsStretch(body, alone, |body|, marker, k)
    ensures IsStretch(lines, found, end, marker, k)
    ensures Stretch(body, alone, |body|, marker, k) == Stretch(lines, found, end, marker, k)
  {
    var at, stop := alone[k], StretchEnd(alone, |body|, k);
    assert StretchEnd(found, end, k) == from + stop && found[k] == from + at;
    assert stop <= end - from && body[at] == lines[from + at];
    RangeOfRange(lines, from, end, at + 1, stop);
    assert body[at + 1..stop] == lines[from + at + 1..from + stop];
    assert Stretch(lines, found, end, marker, k)
           == [lines[from + at][|marker|..]] + lines[from + at + 1..from + stop];
  }

  lemma {:induction false} RangeOfRange<T>(items: seq<T>, from: nat, end: nat, at: nat, stop: nat)
    requires from <= end <= |items| && at <= stop <= end - from
    ensures items[from..end][at..stop] == items[from + at..from + stop]
  {
    var inner, outer := items[from..end][at..stop], items[from + at..from + stop];
    assert forall i | 0 <= i < stop - at :: inner[i] == outer[i];
  }

  /** Splitting a body finds exactly the document's headings in its range, and the stretches between them. */
  lemma {:induction false} RangeOutlined(
    body: seq<string>, lines: seq<string>, from: nat, end: nat, marker: string, found: seq<nat>)
    requires BodyIs(body, lines, from, end) && marker != "" && found == Within(lines, from, end, marker)
    ensures Outlined(lines, end, marker, found, JoinBlocks(Blocks(body, marker)))
  {
    var blocks := Blocks(body, marker);
    BlocksAreSlices(body, marker);
    if from == end {
      EmptyBody(marker);
    } else {
      HeadingsShift(lines, from, end, marker, Headings(body, marker), found);
      BlocksShift(body, lines, from, end, Headings(body, marker), found, marker, blocks);
    }
    JoinBlocksAt(blocks);
  }

  lemma {:induction false} BlocksShift(
    body: seq<string>, lines: seq<string>, from: nat, end: nat, alone: seq<nat>, found: seq<nat>, marker: string,
    blocks: seq<seq<string>>)
    requires from <= end <= |lines| && body == lines[from..end] && |alone| == |found|
    requires forall i | 0 <= i < |found| :: found[i] == from + alone[i]
    requires Sliced(body, blocks, alone, marker)
    ensures |blocks| == |found|
    ensures forall k | 0 <= k < |blocks| ::
              IsStretch(lines, found, end, marker, k) && blocks[k] == Stretch(lines, found, end, marker, k)
  {
    forall k | 0 <= k < |blocks|
      ensures IsStretch(lines, found, end, marker, k) && blocks[k] == Stretch(lines, found, end, marker, k)
    {
      assert BlockIs(body, alone, marker, k, blocks[k]);
      StretchShift(body, lines, from, end, alone, found, marker, k);
    }
  }

  // ---- Entries of a body ----

  /** What each line of a range adds is what one scan of the document says it adds. */
  lemma {:induction false} PiecesShift(lines: seq<string>, from: nat, end: nat)
    requires from <= end <= |lines| && Scan(None, lines[..from]).None?
    ensures Pieces(lines[from..end]) == Pieces(lines)[from..end]
  {
    var here, pieces := Pieces(lines[from..end]), Pieces(lines);
    forall i | 0 <= i < |here| ensures here[i] == pieces[from + i] { PieceShift(lines, from, end, i); }
    assert |here| == |pieces[from..end]|;
  }

  lemma {:induction false} PieceShift(lines: seq<string>, from: nat, end: nat, i: nat)
    requires from <= end <= |lines| && Scan(None, lines[..from]).None? && i < end - from
    ensures Pieces(lines[from..end])[i] == Pieces(lines)[from + i]
  {
    var fence, body := Scan(None, lines[..from + i + 1]), lines[from..end];
    ScanShift(lines, from, from + i + 1);
    RangeOfRange(lines, from, end, 0, i + 1);
    assert body[..i + 1] == body[0..i + 1] && body[i] == lines[from + i];
    PieceAt(body, i, fence);
    PieceAt(lines, from + i, fence);
  }

  lemma {:induction false} PieceAt(lines: seq<string>, i: nat, fence: Fence)
    requires i < |lines| && fence == Scan(None, lines[..i + 1])
    ensures Pieces(lines)[i] == Piece(fence, lines[i])
    decreases |lines|
  {
    var last := |lines| - 1;
    if i == last {
      assert lines[..i + 1] == lines;
    } else {
      assert lines[..last][..i + 1] == lines[..i + 1];
      PieceAt(lines[..last], i, fence);
    }
  }

  lemma {:induction false} EntryShift(
    body: seq<string>, lines: seq<string>, here: seq<string>, pieces: seq<string>, from: nat, end: nat,
    alone: seq<nat>, found: seq<nat>, k: nat, entry: string)
    requires from <= end <= |lines| == |pieces| && body == lines[from..end] && here == pieces[from..end]
    requires |alone| == |found| && forall i | 0 <= i < |found| :: found[i] == from + alone[i]
    requires EntryIs(body, here, alone, |body|, k, entry)
    ensures EntryIs(lines, pieces, found, end, k, entry)
  {
    RangeOfRange(pieces, from, end, alone[k] + 1, StretchEnd(alone, |body|, k));
  }

  /** The raw entries of a body are exactly the document's bullets in its range, each with what follows it. */
  lemma {:induction false} RangeEntries(body: seq<string>, lines: seq<string>, from: nat, end: nat, found: seq<nat>)
    requires BodyIs(body, lines, from, end) && found == Within(lines, from, end, BULLET)
    ensures EntriesOutlined(lines, end, found, RawEntries(body))
  {
    EntriesAreBullets(body);
    if from == end {
      EmptyBody(BULLET);
    } else {
      HeadingsShift(lines, from, end, BULLET, Headings(body, BULLET), found);
      PiecesShift(lines, from, end);
      EntriesShift(body, lines, Pieces(body), Pieces(lines), from, end, Headings(body, BULLET), found, RawEntries(body));
    }
  }

  lemma {:induction false} EntriesShift(
    body: seq<string>, lines: seq<string>, here: seq<string>, pieces: seq<string>, from: nat, end: nat,
    alone: seq<nat>, found: seq<nat>, entries: seq<string>)
    requires from <= end <= |lines| == |pieces| && body == lines[from..end] && here == pieces[from..end]
    requires |alone| == |found| && forall i | 0 <= i < |found| :: found[i] == from + alone[i]
    requires Bulleted(body, here, alone, entries)
    ensures |entries| == |found| && forall k | 0 <= k < |entries| :: EntryIs(lines, pieces, found, end, k, entries[k])
  {
    forall k | 0 <= k < |entries| ensures EntryIs(lines, pieces, found, end, k, entries[k]) {
      EntryShift(body, lines, here, pieces, from, end, alone, found, k, entries[k]);
    }
  }

  // ---- Block by block, on the text ----

  /** Joined and cut again, a stretch's body is the document's lines after its heading. */
  lemma {:induction false} StretchBody(
    lines: seq<string>, found: seq<nat>, end: nat, marker: string, k: nat, from: nat, stop: nat)
    requires forall line <- lines :: '\n' !in line
    requires IsStretch(lines, found, end, marker, k) && from == found[k] + 1 && stop == StretchEnd(found, end, k)
    requires IsHeading(lines, found[k], marker)
    ensures BodyIs(LinesOf(BodyOf(Join(Stretch(lines, found, end, marker, k), "\n"))), lines, from, stop)
  {
    var block := Stretch(lines, found, end, marker, k);
    assert lines[found[k]] in lines && block[1..] == lines[from..stop];
    forall line <- block ensures '\n' !in line {
      if line != block[0] { assert line in lines[from..stop]; }
    }
    BodyLines(block);
  }

  /** A text that is one of those outlined has the document's lines as its body, outside any fence. */
  lemma {:induction false} OutlinedBody(
    lines: seq<string>, from: nat, end: nat, marker: string, found: seq<nat>, texts: seq<string>, k: nat)
    requires forall line <- lines :: '\n' !in line
    requires from <= end <= |lines| && found == Within(lines, from, end, marker)
    requires Outlined(lines, end, marker, found, texts) && k < |texts|
    ensures BodyIs(LinesOf(BodyOf(texts[k])), lines, found[k] + 1, StretchEnd(found, end, k))
  {
    assert found[k] in found;
    WithinExact(lines, from, end, marker, found[k]);
    StretchBody(lines, found, end, marker, k, found[k] + 1, StretchEnd(found, end, k));
  }

  /** Splitting a whole text finds the document's headings. */
  lemma {:induction false} TextOutlined(markdown: string, marker: string, lines: seq<string>, found: seq<nat>)
    requires marker != "" && lines == LinesOf(markdown) && found == Within(lines, 0, |lines|, marker)
    ensures Outlined(lines, |lines|, marker, found, SplitText(markdown, marker))
  {
    assert lines[..0] == [] && lines[0..|lines|] == lines;
    RangeOutlined(lines, lines, 0, |lines|, marker, found);
  }

  /** The document's headings of one marker, and where the `k`-th block's body begins and ends. */
  function Body(lines: seq<string>, from: nat, end: nat, marker: string, k: nat): (range: (nat, nat))
    requires from <= end <= |lines| && k < |Within(lines, from, end, marker)|
    ensures from < range.0 <= range.1 <= end
  {
    var found := Within(lines, from, end, marker);
    (found[k] + 1, StretchEnd(found, end, k))
  }

  /** Splitting the body of one of the texts outlined finds the document's own headings between the body's ends. */
  lemma {:induction false} InnerOutlined(
    lines: seq<string>, from: nat, end: nat, outer: string, texts: seq<string>, k: nat, inner: string,
    first: nat, stop: nat)
    requires (forall line <- lines :: '\n' !in line) && from <= end <= |lines| && inner != ""
    requires Outlined(lines, end, outer, Within(lines, from, end, outer), texts) && k < |texts|
    requires (first, stop) == Body(lines, from, end, outer, k)
    ensures Outlined(lines, stop, inner, Within(lines, first, stop, inner), SplitText(BodyOf(texts[k]), inner))
  {
    OutlinedBody(lines, from, end, outer, Within(lines, from, end, outer), texts, k);
    RangeOutlined(LinesOf(BodyOf(texts[k])), lines, first, stop, inner, Within(lines, first, stop, inner));
  }

  /** Splitting the body of a block by a second marker finds the document's own headings between the block's ends. */
  lemma {:induction false} SectionsAgree(markdown: string, outer: string, inner: string, k: nat)
    requires outer != "" && inner != "" && k < |SplitText(markdown, outer)|
    ensures var lines := LinesOf(markdown);
            && k < |Within(lines, 0, |lines|, outer)|
            && var (from, end) := Body(lines, 0, |lines|, outer, k);
               Outlined(lines, end, inner, Within(lines, from, end, inner),
                        SplitText(BodyOf(SplitText(markdown, outer)[k]), inner))
  {
    var lines := LinesOf(markdown);
    SplitPieces(markdown, '\n');
    TextOutlined(markdown, outer, lines, Within(lines, 0, |lines|, outer));
    var (from, end) := Body(lines, 0, |lines|, outer, k);
    InnerOutlined(lines, 0, |lines|, outer, SplitText(markdown, outer), k, inner, from, end);
  }

  /** The raw entries of the body of one of the texts outlined. */
  lemma {:induction false} InnerEntries(
    lines: seq<string>, from: nat, end: nat, inner: string, sections: seq<string>, i: nat, first: nat, stop: nat)
    requires (forall line <- lines :: '\n' !in line) && from <= end <= |lines|
    requires Outlined(lines, end, inner, Within(lines, from, end, inner), sections) && i < |sections|
    requires (first, stop) == Body(lines, from, end, inner, i)
    ensures EntriesOutlined(lines, stop, Within(lines, first, stop, BULLET), RawEntries(LinesOf(BodyOf(sections[i]))))
  {
    OutlinedBody(lines, from, end, inner, Within(lines, from, end, inner), sections, i);
    RangeEntries(LinesOf(BodyOf(sections[i])), lines, first, stop, Within(lines, first, stop, BULLET));
  }

  /**
   * Release by release and section by section, as `parseChangelog` cuts, joins and splits the text again: the raw
   * entries of a section are exactly the bullets that one scan of the whole document finds in the section's lines,
   * each with what that scan says the lines after it add.
   */
  lemma {:induction false} NestedSplitsAgree(
    markdown: string, outer: string, inner: string, k: nat, sections: seq<string>, i: nat)
    requires outer != "" && inner != "" && k < |SplitText(markdown, outer)|
    requires sections == SplitText(BodyOf(SplitText(markdown, outer)[k]), inner) && i < |sections|
    ensures var lines := LinesOf(markdown);
            && k < |Within(lines, 0, |lines|, outer)|
            && var (from, end) := Body(lines, 0, |lines|, outer, k);
               && i < |Within(lines, from, end, inner)|
               && var (first, stop) := Body(lines, from, end, inner, i);
                  EntriesOutlined(lines, stop, Within(lines, first, stop, BULLET), RawEntries(LinesOf(BodyOf(sections[i]))))
  {
    var lines := LinesOf(markdown);
    SplitPieces(markdown, '\n');
    SectionsAgree(markdown, outer, inner, k);
    var (from, end) := Body(lines, 0, |lines|, outer, k);
    var (first, stop) := Body(lines, from, end, inner, i);
    InnerEntries(lines, from, end, inner, sections, i, first, stop);
  }
}
