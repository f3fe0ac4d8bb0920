/** Caret boundaries over an abstract grapheme segmenter. */
module Graphemes {

  predicate LineBreak(c: char) { c == '\r' || c == '\n' }

  /**
   * What a segmentation of `s` into user-perceived characters must be: start indices from 0, strictly
   * increasing, inside `s`; and a segment holds a line break only if it starts with one, because grapheme
   * clusters break around controls (rules GB3 to GB5 of Unicode Standard Annex 29).
   */
  ghost predicate WellSegmented(s: string, starts: seq<nat>) {
    && (starts == [] <==> s == "")
    && (starts != [] ==> starts[0] == 0)
    && Increasing(starts)
    && (forall i | 0 <= i < |starts| :: starts[i] < |s|)
    && (forall i, k | 0 <= i < |starts| && starts[i] <= k < SegmentEnd(s, starts, i) ::
          k < |s| && LineBreak(s[k]) ==> LineBreak(s[starts[i]]))
  }

  ghost predicate Increasing(starts: seq<nat>) {
    forall i, j | 0 <= i < j < |starts| :: starts[i] < starts[j]
  }

  function SegmentEnd(s: string, starts: seq<nat>, i: nat): nat {
    if i + 1 < |starts| then starts[i + 1] else |s|
  }

  type Segmenter = f: string -> seq<nat> | forall s :: WellSegmented(s, f(s))
    ghost witness EACH_ALONE

  /** The segmenter that keeps every character apart. */
  ghost const EACH_ALONE: string -> seq<nat> := (s: string) => seq(|s|, (i: nat) => i)

  /** How many segments start before `column`. */
  function Below(starts: seq<nat>, column: int): (k: nat)
    ensures k <= |starts|
    ensures forall i | 0 <= i < k :: starts[i] < column
    ensures k < |starts| ==> starts[k] >= column
  {
    if starts == [] || starts[0] >= column then 0 else 1 + Below(starts[1..], column)
  }

  lemma {:induction false} BelowIs(starts: seq<nat>, column: int, k: nat)
    requires k <= |starts|
    requires forall i | 0 <= i < k :: starts[i] < column
    requires k < |starts| ==> starts[k] >= column
    ensures Below(starts, column) == k
  {
  }

  function Previous(seg: Segmenter, s: string, column: int): nat {
    var k := Below(seg(s), column);
    if k == 0 then 0 else seg(s)[k - 1]
  }

  function Snap(seg: Segmenter, s: string, column: int): nat {
    if column >= |s| then |s| else Previous(seg, s, column + 1)
  }

  function Following(seg: Segmenter, s: string, column: int): nat {
    var k := Below(seg(s), column);
    if k == |seg(s)| then |s| else SegmentEnd(s, seg(s), k)
  }

  function Column(seg: Segmenter, s: string, boundary: int): nat {
    Below(seg(s), boundary)
  }

  function AtColumn(seg: Segmenter, s: string, column: nat): nat {
    if column < |seg(s)| then seg(s)[column] else |s|
  }

  /** Where a caret may stand: before a segment, or at the end. */
  predicate Boundary(seg: Segmenter, s: string, column: int) {
    column == |s| || exists i | 0 <= i < |seg(s)| :: seg(s)[i] == column
  }

  // ---- The source's loops over segments ----

  method PreviousGraphemeBoundary(seg: Segmenter, value: string, column: int) returns (previous: nat)
    ensures previous == Previous(seg, value, column)
  {
    var starts := seg(value);
    previous := 0;
    var i := 0;
    while i < |starts|
      invariant 0 <= i <= |starts|
      invariant forall j | 0 <= j < i :: starts[j] < column
      invariant previous == if i == 0 then 0 else starts[i - 1]
    {
      if starts[i] >= column { break; }
      previous := starts[i];
      i := i + 1;
    }
    BelowIs(starts, column, i);
  }

  method SnapGraphemeBoundary(seg: Segmenter, value: string, column: int) returns (boundary: nat)
    ensures boundary == Snap(seg, value, column)
  {
    if column >= |value| { return |value|; }
    var starts := seg(value);
    boundary := 0;
    var i := 0;
    while i < |starts|
      invariant 0 <= i <= |starts|
      invariant forall j | 0 <= j < i :: starts[j] < column + 1
      invariant boundary == if i == 0 then 0 else starts[i - 1]
    {
      if starts[i] > column { break; }
      boundary := starts[i];
      i := i + 1;
    }
    BelowIs(starts, column + 1, i);
  }

  method NextGraphemeBoundary(seg: Segmenter, value: string, column: int) returns (next: nat)
    ensures next == Following(seg, value, column)
  {
    var starts := seg(value);
    var i := 0;
    while i < |starts|
      invariant 0 <= i <= |starts|
      invariant forall j | 0 <= j < i :: starts[j] < column
    {
      if starts[i] >= column {
        BelowIs(starts, column, i);
        return SegmentEnd(value, starts, i);
      }
      i := i + 1;
    }
    BelowIs(starts, column, i);
    next := |value|;
  }

  method GraphemeColumn(seg: Segmenter, value: string, boundary: int) returns (column: nat)
    ensures column == Column(seg, value, boundary)
  {
    var starts := seg(value);
    column := 0;
    while column < |starts|
      invariant 0 <= column <= |starts|
      invariant forall j | 0 <= j < column :: starts[j] < boundary
    {
      if starts[column] >= boundary { break; }
      column := column + 1;
    }
    BelowIs(starts, boundary, column);
  }

  method BoundaryAtGraphemeColumn(seg: Segmenter, value: string, column: nat) returns (boundary: nat)
    ensures boundary == AtColumn(seg, value, column)
  {
    var starts := seg(value);
    var current := 0;
    while current < |starts|
      invariant 0 <= current <= |starts| && current <= column
    {
      if current == column { return starts[current]; }
      current := current + 1;
    }
    boundary := |value|;
  }

  // ---- What the boundaries mean ----

  /** Every column the caret can be given is a boundary of its line. */
  lemma {:induction false} CaretsAreBoundaries(seg: Segmenter, s: string, column: int)
    ensures Boundary(seg, s, Previous(seg, s, column)) && Boundary(seg, s, Snap(seg, s, column))
    ensures Boundary(seg, s, Following(seg, s, column)) && Boundary(seg, s, 0)
    ensures column >= 0 ==> Boundary(seg, s, AtColumn(seg, s, column))
  {
  }

  /** Snapping moves back to the nearest boundary; a boundary stays where it is. */
  lemma {:induction false} SnapIsNearest(seg: Segmenter, s: string, column: int)
    requires 0 <= column <= |s|
    ensures Snap(seg, s, column) <= column
    ensures forall b | Snap(seg, s, column) < b <= column :: !Boundary(seg, s, b)
    ensures Boundary(seg, s, column) <==> Snap(seg, s, column) == column
  {
  }

  /** The previous boundary is the nearest one strictly before the caret. */
  lemma {:induction false} PreviousIsNearest(seg: Segmenter, s: string, column: int)
    requires 0 < column <= |s|
    ensures Previous(seg, s, column) < column
    ensures forall b | Previous(seg, s, column) < b < column :: !Boundary(seg, s, b)
  {
  }

  /** From a boundary, the next boundary is the nearest one strictly after it, and going back returns. */
  lemma {:induction false} FollowingIsNearest(seg: Segmenter, s: string, column: int)
    requires 0 <= column < |s| && Boundary(seg, s, column)
    ensures column < Following(seg, s, column) <= |s|
    ensures forall b | column < b < Following(seg, s, column) :: !Boundary(seg, s, b)
    ensures Previous(seg, s, Following(seg, s, column)) == column
  {
  }

  /** Going back from a boundary and forward again returns to it. */
  lemma {:induction false} PreviousThenFollowing(seg: Segmenter, s: string, column: int)
    requires 0 < column <= |s| && Boundary(seg, s, column)
    ensures Following(seg, s, Previous(seg, s, column)) == column
  {
  }

  /** `boundaryAtGraphemeColumn` undoes `graphemeColumn` at every boundary. */
  lemma {:induction false} ColumnRoundTrip(seg: Segmenter, s: string, boundary: int)
    requires Boundary(seg, s, boundary)
    ensures AtColumn(seg, s, Column(seg, s, boundary)) == boundary
  {
  }

  /** `graphemeColumn` undoes `boundaryAtGraphemeColumn` at every column the line has. */
  lemma {:induction false} ColumnOfStart(seg: Segmenter, s: string, column: nat)
    requires column <= |seg(s)|
    ensures Boundary(seg, s, AtColumn(seg, s, column)) && Column(seg, s, AtColumn(seg, s, column)) == column
  {
    assert WellSegmented(s, seg(s));
    BelowIs(seg(s), AtColumn(seg, s, column), column);
  }

  /** A single grapheme that does not start with a line break contains none. */
  lemma {:induction false} OneGraphemeNoBreak(seg: Segmenter, s: string)
    requires |seg(s)| == 1 && !LineBreak(s[0])
    ensures forall c <- s :: !LineBreak(c)
  {
  }
}
