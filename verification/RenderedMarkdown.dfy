/** Where a rendered Markdown preview binds notes and draws hunk extents. */
module RenderedMarkdown {
  import opened Extents
  import opened Wrappers

  /** Inclusive, one-based source lines. */
  datatype Lines = Lines(first: int, last: int)

  // ---- The source index ----

  function Newlines(text: string): nat {
    if text == "" then 0 else Newlines(text[..|text| - 1]) + (if text[|text| - 1] == '\n' then 1 else 0)
  }

  function ClampOffset(offset: int, length: nat): nat {
    if offset < 0 then 0 else if offset < length then offset else length
  }

  /** The line an offset falls on: one more than the newlines before it. */
  function LineAt(source: string, offset: int): nat { 1 + Newlines(source[..ClampOffset(offset, |source|)]) }

  function RangeOf(source: string, offset: int, length: int): Lines {
    Lines(LineAt(source, offset), LineAt(source, offset + (if length > 1 then length - 1 else 0)))
  }

  lemma {:induction false} NewlinesMonotone(text: string, a: nat, b: nat)
    requires a <= b <= |text|
    ensures Newlines(text[..a]) <= Newlines(text[..b])
    decreases b
  {
    if a < b {
      NewlinesMonotone(text, a, b - 1);
      assert text[..b][..b - 1] == text[..b - 1];
    }
  }

  class SourceIndex {
    const source: string
    var lineStarts: seq<nat>

    /** `lineStarts` is where each line begins: after every newline, in order, and at 0. */
    ghost predicate Valid()
      reads this
    {
      && |lineStarts| == Newlines(source) + 1 && lineStarts[0] == 0
      && (forall i | 0 <= i < |lineStarts| :: lineStarts[i] <= |source|)
      && (forall i | 0 <= i < |lineStarts| :: Newlines(source[..lineStarts[i]]) == i)
      && (forall i | 0 < i < |lineStarts| :: lineStarts[i] > 0 && source[lineStarts[i] - 1] == '\n')
    }

    constructor (source: string)
      ensures this.source == source && Valid()
    {
      this.source := source;
      lineStarts := [0];
      new;
      assert source[..0] == "";
      for index := 0 to |source|
        invariant this.source == source && |lineStarts| == Newlines(source[..index]) + 1 && lineStarts[0] == 0
        invariant forall i | 0 <= i < |lineStarts| :: lineStarts[i] <= index && Newlines(source[..lineStarts[i]]) == i
        invariant forall i | 0 < i < |lineStarts| :: lineStarts[i] > 0 && source[lineStarts[i] - 1] == '\n'
      {
        assert source[..index + 1][..index] == source[..index];
        if source[index] == '\n' { lineStarts := lineStarts + [index + 1]; }
      }
      assert source[..|source|] == source;
    }

    /** `lineAt`: binary search for the last line that starts at or before the offset. */
    method Find(offset: int) returns (line: nat)
      requires Valid()
      ensures line == LineAt(source, offset)
    {
      var target := ClampOffset(offset, |source|);
      var low, high := 0, |lineStarts|;
      NewlinesMonotone(source, target, |source|);
      assert source[..|source|] == source;
      while low < high
        invariant 0 <= low <= high <= |lineStarts|
        invariant low <= Newlines(source[..target]) + 1 <= high
      {
        var middle := (low + high) / 2;
        StartsBefore(middle, target);
        if lineStarts[middle] <= target { low := middle + 1; } else { high := middle; }
      }
      line := if low > 1 then low else 1;
    }

    /** A line starts at or before an offset exactly when at least that many newlines come before it. */
    lemma {:induction false} StartsBefore(i: nat, target: nat)
      requires Valid() && i < |lineStarts| && target <= |source|
      ensures lineStarts[i] <= target <==> i <= Newlines(source[..target])
    {
      var start := lineStarts[i];
      if start <= target {
        NewlinesMonotone(source, start, target);
      } else {
        NewlinesMonotone(source, target, start - 1);
        assert source[..start][..start - 1] == source[..start - 1];
      }
    }

    method Range(offset: int, length: int) returns (range: Lines)
      requires Valid()
      ensures range == RangeOf(source, offset, length)
    {
      var first := Find(offset);
      var last := Find(offset + (if length > 1 then length - 1 else 0));
      range := Lines(first, last);
    }
  }

  lemma {:induction false} LineAtMonotone(source: string, a: int, b: int)
    requires a <= b
    ensures LineAt(source, a) <= LineAt(source, b)
  {
    NewlinesMonotone(source, ClampOffset(a, |source|), ClampOffset(b, |source|));
  }

  /** The ranges of tokens laid end to end from `offset`. */
  function TokenRanges(source: string, offset: nat, lengths: seq<nat>): seq<Lines>
    decreases |lengths|
  {
    if lengths == [] then []
    else [RangeOf(source, offset, lengths[0])] + TokenRanges(source, offset + lengths[0], lengths[1..])
  }

  /** Ranges run forward from a line: each is non-empty, and none starts before the one above it ends. */
  ghost predicate Forward(ranges: seq<Lines>, line: int) {
    && (forall i | 0 <= i < |ranges| :: line <= ranges[i].first <= ranges[i].last)
    && (forall i, j | 0 <= i < j < |ranges| :: ranges[i].last <= ranges[j].first)
  }

  lemma {:induction false} ForwardCons(range: Lines, rest: seq<Lines>, from: int, next: int)
    requires from <= range.first <= range.last <= next && Forward(rest, next)
    ensures Forward([range] + rest, from)
  {
    var ranges := [range] + rest;
    assert forall i | 0 < i < |ranges| :: ranges[i] == rest[i - 1];
  }

  /** A token's range lies between the lines where the token starts and where the next one does. */
  lemma {:induction false} RangeRuns(source: string, offset: nat, length: nat)
    ensures var range := RangeOf(source, offset, length);
            LineAt(source, offset) <= range.first <= range.last <= LineAt(source, offset + length)
  {
    var last := offset + (if length > 1 then length - 1 else 0);
    LineAtMonotone(source, offset, last);
    LineAtMonotone(source, last, offset + length);
  }

  /** The ranges of tokens laid end to end run forward. */
  lemma {:induction false} TokensRunForward(source: string, offset: nat, lengths: seq<nat>)
    ensures |TokenRanges(source, offset, lengths)| == |lengths|
    ensures Forward(TokenRanges(source, offset, lengths), LineAt(source, offset))
    decreases |lengths|
  {
    if lengths == [] {
    } else {
      var next := offset + lengths[0];
      var range, rest := RangeOf(source, offset, lengths[0]), TokenRanges(source, next, lengths[1..]);
      TokensRunForward(source, next, lengths[1..]);
      RangeRuns(source, offset, lengths[0]);
      ForwardCons(range, rest, LineAt(source, offset), LineAt(source, next));
      assert TokenRanges(source, offset, lengths) == [range] + rest;
    }
  }

  // ---- Note anchors ----

  /** Which rows are bound, given the last line bound so far. */
  function Anchors(rows: seq<Lines>, lastBoundLine: int): (bound: seq<bool>)
    ensures |bound| == |rows|
  {
    if rows == [] then []
    else
      var binds := rows[0].first > lastBoundLine;
      [binds] + Anchors(rows[1..], if binds then rows[0].last else lastBoundLine)
  }

  /** The anchor pass as written. */
  method BindAnchors(rows: seq<Lines>) returns (bound: seq<bool>)
    ensures bound == Anchors(rows, 0)
  {
    bound := [];
    var lastBoundLine := 0;
    assert rows[0..] == rows;
    for i := 0 to |rows|
      invariant Anchors(rows, 0) == bound + Anchors(rows[i..], lastBoundLine)
    {
      var binds := rows[i].first > lastBoundLine;
      assert rows[i..][1..] == rows[i + 1..];
      bound := bound + [binds];
      if binds { lastBoundLine := rows[i].last; }
    }
  }

  /** An unbound row starts inside or above a range already bound. */
  ghost predicate Excused(rows: seq<Lines>, bound: seq<bool>, lastBoundLine: int, j: nat)
    requires j < |rows| == |bound|
  {
    rows[j].first <= lastBoundLine || exists i | 0 <= i < j :: bound[i] && rows[j].first <= rows[i].last
  }

  /** What is excused among the rest is excused with one more row above it. */
  lemma {:induction false} ExcusedCons(
      row: Lines, binds: bool, rest: seq<Lines>, bound: seq<bool>, lastBoundLine: int, next: int, j: nat)
    requires j < |rest| == |bound| && next == (if binds then row.last else lastBoundLine)
    requires Excused(rest, bound, next, j)
    ensures Excused([row] + rest, [binds] + bound, lastBoundLine, j + 1)
  {
    var rows, all := [row] + rest, [binds] + bound;
    if rest[j].first <= next {
      assert binds ==> all[0] && rows[j + 1].first <= rows[0].last;
    } else {
      var i :| 0 <= i < j && bound[i] && rest[j].first <= rest[i].last;
      assert all[i + 1] && rows[j + 1].first <= rows[i + 1].last;
    }
  }

  lemma {:induction false} AllExcused(
      row: Lines, binds: bool, rest: seq<Lines>, bound: seq<bool>, lastBoundLine: int, next: int)
    requires |rest| == |bound| && next == (if binds then row.last else lastBoundLine)
    requires !binds ==> row.first <= lastBoundLine
    requires forall j | 0 <= j < |rest| && !bound[j] :: Excused(rest, bound, next, j)
    ensures forall j | 0 <= j < |rest| + 1 && !([binds] + bound)[j] ::
              Excused([row] + rest, [binds] + bound, lastBoundLine, j)
  {
    forall j | 0 <= j < |rest| + 1 && !([binds] + bound)[j]
      ensures Excused([row] + rest, [binds] + bound, lastBoundLine, j)
    {
      if j > 0 { ExcusedCons(row, binds, rest, bound, lastBoundLine, next, j - 1); }
    }
  }

  /** Ranges bound so far: they start after the last line bound before them, and never overlap. */
  ghost predicate Increasing(rows: seq<Lines>, bound: seq<bool>, lastBoundLine: int)
    requires |rows| == |bound|
  {
    && (forall i | 0 <= i < |rows| && bound[i] :: lastBoundLine < rows[i].first)
    && (forall i, j | 0 <= i < j < |rows| && bound[i] && bound[j] :: rows[i].last < rows[j].first)
  }

  lemma {:induction false} IncreasingCons(
      row: Lines, binds: bool, rest: seq<Lines>, bound: seq<bool>, lastBoundLine: int, next: int)
    requires row.first <= row.last && (binds ==> lastBoundLine < row.first) && |rest| == |bound|
    requires next == (if binds then row.last else lastBoundLine) && Increasing(rest, bound, next)
    ensures Increasing([row] + rest, [binds] + bound, lastBoundLine)
  {
    var rows, all := [row] + rest, [binds] + bound;
    assert forall i | 0 < i < |rows| :: rows[i] == rest[i - 1] && all[i] == bound[i - 1];
  }

  /**
   * Bound ranges strictly increase and never overlap; and a row is left unbound only when it starts inside or
   * above a range already bound, so nothing that could be bound is skipped.
   */
  lemma {:induction false} AnchorsAreExact(rows: seq<Lines>, lastBoundLine: int)
    requires forall i | 0 <= i < |rows| :: rows[i].first <= rows[i].last
    ensures var bound := Anchors(rows, lastBoundLine);
            && Increasing(rows, bound, lastBoundLine)
            && forall j | 0 <= j < |rows| && !bound[j] :: Excused(rows, bound, lastBoundLine, j)
    decreases |rows|
  {
    if rows == [] {
    } else {
      var row, rest, binds := rows[0], rows[1..], rows[0].first > lastBoundLine;
      var next := if binds then row.last else lastBoundLine;
      var bound := Anchors(rest, next);
      assert rows == [row] + rest && Anchors(rows, lastBoundLine) == [binds] + bound;
      AnchorsAreExact(rest, next);
      IncreasingCons(row, binds, rest, bound, lastBoundLine, next);
      AllExcused(row, binds, rest, bound, lastBoundLine, next);
    }
  }

  // ---- Hunk extents ----

  predicate Overlaps(row: Lines, range: Lines) { row.first <= range.last && row.last >= range.first }

  /** The indices of the rows that overlap the range. */
  function Overlapping(rows: seq<Lines>, range: Lines): (indices: seq<nat>)
    ensures forall k | 0 <= k < |indices| :: indices[k] < |rows| && Overlaps(rows[indices[k]], range)
    ensures forall k, l | 0 <= k < l < |indices| :: indices[k] < indices[l]
    ensures forall i | 0 <= i < |rows| && Overlaps(rows[i], range) :: i in indices
  {
    if rows == [] then []
    else
      var last := |rows| - 1;
      var before := Overlapping(rows[..last], range);
      if Overlaps(rows[last], range) then before + [last] else before
  }

  /** How far the range starts from a row. */
  function Distance(row: Lines, range: Lines): int {
    if range.first < row.first then row.first - range.first
    else if range.first > row.last then range.first - row.last
    else 0
  }

  /** `reduce` from an infinite distance: the first row at the least distance. */
  function Nearest(rows: seq<Lines>, range: Lines): (i: nat)
    requires rows != []
    ensures i < |rows|
    ensures forall j | 0 <= j < |rows| :: Distance(rows[i], range) <= Distance(rows[j], range)
    ensures forall j | 0 <= j < i :: Distance(rows[i], range) < Distance(rows[j], range)
  {
    if |rows| == 1 then 0
    else
      var last := |rows| - 1;
      var best := Nearest(rows[..last], range);
      if Distance(rows[last], range) < Distance(rows[best], range) then last else best
  }

  function RenderedBounds(rows: seq<Lines>, range: Lines): Extent
    requires rows != []
  {
    var overlapping := Overlapping(rows, range);
    if |overlapping| > 0 then Extent(overlapping[0], overlapping[|overlapping| - 1])
    else Extent(Nearest(rows, range), Nearest(rows, range))
  }

  /**
   * Every hunk extent is in bounds; it runs from the first to the last row overlapping the hunk, so it covers
   * them all, or else it is the single row nearest the hunk's start.
   */
  lemma {:induction false} BoundsAreExact(rows: seq<Lines>, range: Lines)
    requires rows != []
    ensures var e := RenderedBounds(rows, range);
            && 0 <= e.startRow <= e.endRow < |rows|
            && (if exists i | 0 <= i < |rows| :: Overlaps(rows[i], range) then
                  && Overlaps(rows[e.startRow], range) && Overlaps(rows[e.endRow], range)
                  && (forall i | 0 <= i < |rows| && Overlaps(rows[i], range) :: e.Covers(i))
                else
                  e.startRow == e.endRow
                  && forall i | 0 <= i < |rows| :: Distance(rows[e.startRow], range) <= Distance(rows[i], range))
  {
  }

  /** A changed range of one hunk. */
  datatype Change = Change(hunk: nat, added: bool, range: Lines)

  datatype Hunk = Hunk(index: nat, newRange: Option<Lines>)

  /** The lines from the first to the last that a hunk adds, if it adds any. */
  function AddedSpan(changes: seq<Change>, hunk: nat): Option<Lines> {
    if changes == [] then None
    else
      var rest := AddedSpan(changes[1..], hunk);
      var c := changes[0];
      if c.hunk != hunk || !c.added then rest
      else if rest.None? then Some(c.range)
      else Some(Lines(if c.range.first < rest.value.first then c.range.first else rest.value.first,
                      if c.range.last > rest.value.last then c.range.last else rest.value.last))
  }

  function SourceRange(changes: seq<Change>, hunk: Hunk): Lines {
    AddedSpan(changes, hunk.index).GetOr(hunk.newRange.GetOr(Lines(1, 1)))
  }

  function HunkRows(rows: seq<Lines>, changes: seq<Change>, hunks: seq<Hunk>): (extents: seq<Extent>)
    requires rows != []
    ensures |extents| == |hunks|
    ensures forall i | 0 <= i < |hunks| :: extents[i] == RenderedBounds(rows, SourceRange(changes, hunks[i]))
  {
    if hunks == [] then [] else [RenderedBounds(rows, SourceRange(changes, hunks[0]))] + HunkRows(rows, changes, hunks[1..])
  }

  /** An anchor is kept when its row is bound and counted in exactly one extent. */
  predicate KeepsAnchor(bound: seq<bool>, extents: seq<Extent>, row: nat)
    requires row < |bound|
  {
    bound[row] && CoverCount(extents, row) == 1
  }

  /** A row that shows lines a hunk adds is covered by that hunk's extent. */
  lemma {:induction false} AddedSpanHolds(changes: seq<Change>, hunk: nat, i: nat)
    requires i < |changes| && changes[i].hunk == hunk && changes[i].added
    ensures var span := AddedSpan(changes, hunk);
            span.Some? && span.value.first <= changes[i].range.first && changes[i].range.last <= span.value.last
  {
    if i == 0 {
    } else {
      AddedSpanHolds(changes[1..], hunk, i - 1);
    }
  }

  /**
   * Kept anchors are disjoint, in order, and each owned by exactly one hunk extent; and every row that shows a
   * line some hunk adds lies in that hunk's extent.
   */
  lemma {:induction false} LayoutGeometry(
      rows: seq<Lines>, changes: seq<Change>, hunks: seq<Hunk>, bound: seq<bool>, extents: seq<Extent>)
    requires rows != [] && forall i | 0 <= i < |rows| :: rows[i].first <= rows[i].last
    requires bound == Anchors(rows, 0) && extents == HunkRows(rows, changes, hunks)
    ensures forall r, q | 0 <= r < q < |rows| && KeepsAnchor(bound, extents, r) && KeepsAnchor(bound, extents, q) ::
              rows[r].last < rows[q].first
    ensures forall r | 0 <= r < |rows| && bound[r] :: KeepsAnchor(bound, extents, r) <==> OwnedOnce(extents, r)
    ensures forall h, c, r | 0 <= h < |hunks| && 0 <= c < |changes| && 0 <= r < |rows|
                             && changes[c].hunk == hunks[h].index && changes[c].added && Overlaps(rows[r], changes[c].range) ::
              extents[h].Covers(r)
  {
    AnchorsAreExact(rows, 0);
    forall r | 0 <= r < |rows| && bound[r] ensures KeepsAnchor(bound, extents, r) <==> OwnedOnce(extents, r) {
      CountOneIsOwned(extents, r);
    }
    forall h, c, r | 0 <= h < |hunks| && 0 <= c < |changes| && 0 <= r < |rows|
                     && changes[c].hunk == hunks[h].index && changes[c].added && Overlaps(rows[r], changes[c].range)
      ensures extents[h].Covers(r)
    {
      AddedSpanHolds(changes, hunks[h].index, c);
      var range := SourceRange(changes, hunks[h]);
      BoundsAreExact(rows, range);
      assert Overlaps(rows[r], range);
    }
  }
}
