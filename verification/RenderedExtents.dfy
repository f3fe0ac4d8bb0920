/** Which lines a rendered hunk stands for, how near a row is to it, and which line an offset falls on. */
module RenderedExtents {
  import opened Extents
  import opened Text
  import opened Wrappers
  import opened RenderedMarkdown

  // ---- The line of an offset ----

  lemma {:induction false} NewlinesSplit(text: string)
    ensures |Split(text, '\n')| == 1 + Newlines(text)
  {
    if text == "" {
    } else {
      var init, last := text[..|text| - 1], [text[|text| - 1]];
      NewlinesSplit(init);
      SplitConcat(init, last, '\n');
      assert init + last == text;
      OneCharacter(last);
    }
  }

  lemma {:induction false} OneCharacter(text: string)
    requires |text| == 1
    ensures |Split(text, '\n')| == if text[0] == '\n' then 2 else 1
  {
    assert text[1..] == "";
  }

  /** An offset falls on the line it is on when the text before it is split at its newlines. */
  lemma {:induction false} LineIsLastPiece(source: string, offset: nat)
    requires offset <= |source|
    ensures LineAt(source, offset) == |Split(source[..offset], '\n')|
  {
    NewlinesSplit(source[..offset]);
    assert ClampOffset(offset, |source|) == offset by { ClampWithin(offset, |source|); }
  }

  lemma {:induction false} ClampWithin(offset: int, length: nat)
    ensures 0 <= offset <= length ==> ClampOffset(offset, length) == offset
    ensures offset < 0 ==> ClampOffset(offset, length) == 0
    ensures offset > length ==> ClampOffset(offset, length) == length
  {
  }

  /** A token's range is from the line of its first character to the line of its last. */
  lemma {:induction false} RangeOfToken(source: string, offset: nat, length: nat)
    requires 0 < length && offset + length <= |source|
    ensures RangeOf(source, offset, length)
            == Lines(|Split(source[..offset], '\n')|, |Split(source[..offset + length - 1], '\n')|)
  {
    LineIsLastPiece(source, offset);
    LineIsLastPiece(source, offset + length - 1);
  }

  function Sum(lengths: seq<nat>): nat { if lengths == [] then 0 else lengths[0] + Sum(lengths[1..]) }

  lemma {:induction false} SumFront(lengths: seq<nat>, i: nat)
    requires 0 < i <= |lengths|
    ensures Sum(lengths[..i]) == lengths[0] + Sum(lengths[1..][..i - 1])
  {
    var front := lengths[..i];
    assert front[1..] == lengths[1..][..i - 1] && front[0] == lengths[0];
  }

  lemma {:induction false} TokenCount(source: string, offset: nat, lengths: seq<nat>)
    ensures |TokenRanges(source, offset, lengths)| == |lengths|
  {
    TokensRunForward(source, offset, lengths);
  }

  /** Each token starts where those before it end. */
  lemma {:induction false} TokenRangeAt(source: string, offset: nat, lengths: seq<nat>, i: nat, ranges: seq<Lines>)
    requires i < |lengths| && ranges == TokenRanges(source, offset, lengths)
    ensures |ranges| == |lengths| && ranges[i] == RangeOf(source, offset + Sum(lengths[..i]), lengths[i])
    decreases |lengths|
  {
    TokenCount(source, offset, lengths);
    if i == 0 {
      assert lengths[..0] == [];
    } else {
      var rest := TokenRanges(source, offset + lengths[0], lengths[1..]);
      TokenRangeAt(source, offset + lengths[0], lengths[1..], i - 1, rest);
      SumFront(lengths, i);
      assert ranges[i] == rest[i - 1];
    }
  }

  // ---- The lines of a hunk ----

  ghost predicate Adds(changes: seq<Change>, hunk: nat, i: nat)
    requires i < |changes|
  {
    changes[i].hunk == hunk && changes[i].added
  }

  /** The span of a hunk's additions starts where one of them starts and ends where one ends; there is none without them. */
  lemma {:induction false} AddedSpanIsTight(changes: seq<Change>, hunk: nat)
    ensures AddedSpan(changes, hunk).Some? <==> exists i | 0 <= i < |changes| :: Adds(changes, hunk, i)
    ensures AddedSpan(changes, hunk).Some? ==>
              (exists i | 0 <= i < |changes| ::
                 Adds(changes, hunk, i) && changes[i].range.first == AddedSpan(changes, hunk).value.first)
              && exists i | 0 <= i < |changes| ::
                   Adds(changes, hunk, i) && changes[i].range.last == AddedSpan(changes, hunk).value.last
  {
    if changes == [] {
    } else {
      var rest := changes[1..];
      AddedSpanIsTight(rest, hunk);
      if AddedSpan(rest, hunk).Some? {
        var span := AddedSpan(rest, hunk).value;
        var i :| 0 <= i < |rest| && Adds(rest, hunk, i) && rest[i].range.first == span.first;
        var j :| 0 <= j < |rest| && Adds(rest, hunk, j) && rest[j].range.last == span.last;
        assert Adds(changes, hunk, i + 1) && Adds(changes, hunk, j + 1);
        assert changes[i + 1] == rest[i] && changes[j + 1] == rest[j];
      }
      if k :| 0 <= k < |changes| && Adds(changes, hunk, k) {
        assert k > 0 ==> Adds(rest, hunk, k - 1);
      }
      if Adds(changes, hunk, 0) { assert changes[0].range == changes[0].range; }
    }
  }

  /** A hunk that adds nothing is shown at its new range, or at line 1 without one: it covers every row overlapping it. */
  lemma {:induction false} UnaddedHunkCovers(
      rows: seq<Lines>, changes: seq<Change>, hunks: seq<Hunk>, h: nat, range: Lines, r: nat)
    requires rows != [] && h < |hunks| && r < |rows|
    requires forall i | 0 <= i < |changes| :: !Adds(changes, hunks[h].index, i)
    requires hunks[h].newRange == Some(range) || (hunks[h].newRange.None? && range == Lines(1, 1))
    requires rows[r].first <= range.last && range.first <= rows[r].last
    ensures HunkRows(rows, changes, hunks)[h].Covers(r)
  {
    AddedSpanIsTight(changes, hunks[h].index);
    assert SourceRange(changes, hunks[h]) == range;
    BoundsAreExact(rows, range);
    assert Overlaps(rows[r], range);
  }

  /** And every row it covers lies between two rows that overlap it, when any does. */
  lemma {:induction false} ExtentEndsOverlap(
      rows: seq<Lines>, changes: seq<Change>, hunks: seq<Hunk>, h: nat, r: nat)
    requires rows != [] && h < |hunks| && r < |rows| && Overlaps(rows[r], SourceRange(changes, hunks[h]))
    ensures var e := HunkRows(rows, changes, hunks)[h];
            && 0 <= e.startRow <= r <= e.endRow < |rows|
            && Overlaps(rows[e.startRow], SourceRange(changes, hunks[h]))
            && Overlaps(rows[e.endRow], SourceRange(changes, hunks[h]))
  {
    BoundsAreExact(rows, SourceRange(changes, hunks[h]));
  }

  predicate HoldsLine(lines: Lines, line: int) { lines.first <= line <= lines.last }

  /** A row overlaps a range when some line is in both. */
  lemma {:induction false} OverlapIsSharedLine(row: Lines, range: Lines)
    requires row.first <= row.last && range.first <= range.last
    ensures Overlaps(row, range)
            <==> exists line :: HoldsLine(row, line) && HoldsLine(range, line)
  {
    if Overlaps(row, range) {
      var line := if row.first < range.first then range.first else row.first;
      assert HoldsLine(row, line) && HoldsLine(range, line);
    }
  }

  // ---- How near a row is ----

  function Apart(a: int, b: int): nat { if a < b then b - a else a - b }

  /** A row is as far from a range as its nearest line is from the range's first. */
  lemma {:induction false} DistanceIsNearestLine(row: Lines, range: Lines)
    requires row.first <= row.last
    ensures exists line: int :: row.first <= line <= row.last && Apart(line, range.first) == Distance(row, range)
    ensures forall line: int | row.first <= line <= row.last :: Distance(row, range) <= Apart(line, range.first)
  {
    var line := if range.first < row.first then row.first else if range.first > row.last then row.last else range.first;
    assert Apart(line, range.first) == Distance(row, range);
  }
}
