/** The line editor refines a flat text with one caret offset. */
module EditFlat {
  import opened Text
  import opened Graphemes
  import opened EditBuffer
  import opened EditDocument

  /** The lines, each followed by the terminator. */
  function Before(lines: seq<string>, nl: Newline): string {
    if lines == [] then "" else lines[0] + nl + Before(lines[1..], nl)
  }

  /** The lines, each preceded by the terminator. */
  function After(lines: seq<string>, nl: Newline): string {
    if lines == [] then "" else nl + lines[0] + After(lines[1..], nl)
  }

  /** The buffer as flat text. */
  function Flat(b: Buffer, nl: Newline): string { Join(b.lines, nl) }

  /** The caret as an offset into the flat text. */
  function Offset(b: Buffer, nl: Newline): int
    requires InBounds(b)
  {
    |Before(b.lines[..b.line], nl)| + b.column
  }

  lemma {:induction false} BeforeConcat(a: seq<string>, b: seq<string>, all: seq<string>, nl: Newline)
    requires all == a + b
    ensures Before(all, nl) == Before(a, nl) + Before(b, nl)
  {
    if a == [] {
      assert all == b;
    } else {
      assert all[1..] == a[1..] + b;
      BeforeConcat(a[1..], b, all[1..], nl);
      Regroup(a[0] + nl, Before(a[1..], nl), Before(b, nl));
    }
  }

  lemma {:induction false} Regroup(a: string, b: string, c: string)
    ensures a + (b + c) == a + b + c
  {
  }

  lemma {:induction false} JoinTail(x: string, rest: seq<string>, nl: Newline)
    ensures Join([x] + rest, nl) == x + After(rest, nl)
    decreases |rest|
  {
    if rest == [] {
      assert Join([x] + rest, nl) == x;
    } else {
      JoinTail(rest[0], rest[1..], nl);
      assert [rest[0]] + rest[1..] == rest;
      JoinCons(x, rest, nl);
      Regroup(x + nl, rest[0], After(rest[1..], nl));
      Regroup(x, nl + rest[0], After(rest[1..], nl));
      Regroup(x, nl, rest[0]);
    }
  }

  /** The flat text around one line. */
  lemma {:induction false} JoinAround(a: seq<string>, x: string, c: seq<string>, nl: Newline)
    ensures Join(a + [x] + c, nl) == Before(a, nl) + x + After(c, nl)
  {
    JoinTail(x, c, nl);
    assert a + [x] + c == a + ([x] + c);
    JoinAfter(a, [x] + c, a + ([x] + c), nl);
    assert Before(a, nl) + (x + After(c, nl)) == Before(a, nl) + x + After(c, nl);
  }

  lemma {:induction false} JoinAfter(a: seq<string>, b: seq<string>, all: seq<string>, nl: Newline)
    requires b != [] && all == a + b
    ensures Join(all, nl) == Before(a, nl) + Join(b, nl)
  {
    if a == [] {
      assert all == b;
    } else {
      var rest := a[1..] + b;
      JoinAfter(a[1..], b, rest, nl);
      assert all == [a[0]] + rest;
      JoinCons(a[0], rest, nl);
      assert a[0] + nl + (Before(a[1..], nl) + Join(b, nl)) == a[0] + nl + Before(a[1..], nl) + Join(b, nl);
    }
  }

  lemma {:induction false} AtCaretLine(b: Buffer, nl: Newline)
    requires InBounds(b)
    ensures Flat(b, nl) == Before(b.lines[..b.line], nl) + b.lines[b.line] + After(b.lines[b.line + 1..], nl)
  {
    JoinAround(b.lines[..b.line], b.lines[b.line], b.lines[b.line + 1..], nl);
    assert b.lines == b.lines[..b.line] + [b.lines[b.line]] + b.lines[b.line + 1..];
  }

  /** `after` is `flat` with the characters from `from` to `to` replaced by `text`. */
  predicate Replaced(flat: string, from: int, to: int, text: string, after: string) {
    0 <= from <= to <= |flat| && after == flat[..from] + text + flat[to..]
  }

  lemma {:induction false} ReplacedAround(a: string, x: string, c: string, text: string)
    ensures Replaced(a + x + c, |a|, |a| + |x|, text, a + text + c)
  {
    var flat := a + x + c;
    assert flat[..|a|] == a && flat[|a| + |x|..] == c;
  }

  lemma {:induction false} ReplacedWithin(a: string, line: string, c: string, from: int, to: int, text: string)
    requires 0 <= from <= to <= |line|
    ensures Replaced(a + line + c, |a| + from, |a| + to, text, a + (line[..from] + text + line[to..]) + c)
  {
    var left, x, right := line[..from], line[from..to], line[to..];
    assert line == left + x + right;
    Nest(a, left, x, right, c);
    Nest(a, left, text, right, c);
    ReplacedAround(a + left, x, right + c, text);
  }

  lemma {:induction false} Nest(a: string, left: string, x: string, right: string, c: string)
    ensures a + (left + x + right) + c == a + left + x + (right + c)
  {
  }

  /** An edit inside the caret's line is the same edit at the line's place in the whole. */
  lemma {:induction false} EditInside(b: Buffer, from: int, to: int, text: string, nl: Newline)
    requires InBounds(b) && 0 <= from <= to <= |b.lines[b.line]|
    ensures var line, start := b.lines[b.line], |Before(b.lines[..b.line], nl)|;
            Replaced(Flat(b, nl), start + from, start + to, text,
                     Join(b.lines[b.line := line[..from] + text + line[to..]], nl))
  {
    var prior, line, rest := b.lines[..b.line], b.lines[b.line], b.lines[b.line + 1..];
    var line' := line[..from] + text + line[to..];
    AtCaretLine(b, nl);
    JoinAround(prior, line', rest, nl);
    assert b.lines[b.line := line'] == prior + [line'] + rest;
    ReplacedWithin(Before(prior, nl), line, After(rest, nl), from, to, text);
  }

  /** Removing what lies between `from` and the caret, in the caret's line. */
  lemma {:induction false} EraseInside(b: Buffer, e: Buffer, from: nat, nl: Newline)
    requires InBounds(b) && from <= b.column
    requires var line := b.lines[b.line];
             e == b.(lines := b.lines[b.line := line[..from] + line[b.column..]], column := from)
    ensures InBounds(e) && Offset(e, nl) == Offset(b, nl) - b.column + from
    ensures Replaced(Flat(b, nl), Offset(e, nl), Offset(b, nl), "", Flat(e, nl))
  {
    var line := b.lines[b.line];
    assert line[..from] + "" + line[b.column..] == line[..from] + line[b.column..];
    EditInside(b, from, b.column, "", nl);
    assert e.lines[..b.line] == b.lines[..b.line];
  }

  /** Clamping an in-bounds caret moves the offset back, and not at all from a boundary. */
  lemma {:induction false} ClampOffset(seg: Segmenter, b: Buffer, nl: Newline)
    requires InBounds(b)
    ensures InBounds(ClampCursor(seg, b)) && ClampCursor(seg, b).lines == b.lines
    ensures Offset(ClampCursor(seg, b), nl) <= Offset(b, nl)
    ensures Offset(ClampCursor(seg, b), nl) == Offset(b, nl) <==> Boundary(seg, b.lines[b.line], b.column)
  {
    ClampSettles(seg, b);
    SnapIsNearest(seg, b.lines[b.line], b.column);
  }

  /** Typing inserts the text at the offset. */
  lemma {:induction false} InsertIsFlatInsertion(seg: Segmenter, b: Buffer, text: string, nl: Newline)
    requires InBounds(b)
    ensures Replaced(Flat(b, nl), Offset(b, nl), Offset(b, nl), text, Flat(InsertText(seg, b, text), nl))
  {
    EditInside(b, b.column, b.column, text, nl);
  }

  /** The buffer with text inserted and the caret after it, before the caret is clamped. */
  function Typed(b: Buffer, text: string): Buffer
    requires InBounds(b)
  {
    var line := b.lines[b.line];
    b.(lines := b.lines[b.line := line[..b.column] + text + line[b.column..]], column := b.column + |text|)
  }

  lemma {:induction false} TypedOffset(b: Buffer, text: string, nl: Newline)
    requires InBounds(b)
    ensures InBounds(Typed(b, text)) && Offset(Typed(b, text), nl) == Offset(b, nl) + |text|
  {
    assert Typed(b, text).lines[..b.line] == b.lines[..b.line];
  }

  /** The caret follows what was typed, back to the nearest boundary of the new line. */
  lemma {:induction false} InsertMovesPast(seg: Segmenter, b: Buffer, text: string, nl: Newline)
    requires InBounds(b)
    ensures InBounds(InsertText(seg, b, text))
    ensures var b', end := InsertText(seg, b, text), Offset(b, nl) + |text|;
            && Offset(b', nl) <= end
            && (Offset(b', nl) == end <==> Boundary(seg, b'.lines[b'.line], b.column + |text|))
  {
    TypedOffset(b, text, nl);
    ClampOffset(seg, Typed(b, text), nl);
    assert InsertText(seg, b, text) == ClampCursor(seg, Typed(b, text));
  }

  /**
   * Backspace inside a line removes the grapheme before the offset, and the caret lands where the grapheme was, back
   * to the nearest boundary of the new line.
   */
  lemma {:induction false} BackspaceIsFlatErasure(seg: Segmenter, hunks: Hunks, b: Buffer, nl: Newline)
    requires InBounds(b) && b.column > 0
    ensures InBounds(DeleteBackwards(seg, hunks, b))
    ensures var b', o := DeleteBackwards(seg, hunks, b), Offset(b, nl);
            var o' := o - b.column + Previous(seg, b.lines[b.line], b.column);
            && o' < o && Replaced(Flat(b, nl), o', o, "", Flat(b', nl))
            && Offset(b', nl) <= o'
            && (Offset(b', nl) == o' <==> Boundary(seg, b'.lines[b'.line], Previous(seg, b.lines[b.line], b.column)))
  {
    PreviousIsNearest(seg, b.lines[b.line], b.column);
    EraseInside(b, Erased(seg, b), Previous(seg, b.lines[b.line], b.column), nl);
    ClampOffset(seg, Erased(seg, b), nl);
    EraseTaken(seg, hunks, b);
  }

  lemma {:induction false} BeforeLast(lines: seq<string>, last: string, nl: Newline)
    ensures Before(lines + [last], nl) == Before(lines, nl) + last + nl
  {
    BeforeConcat(lines, [last], lines + [last], nl);
    assert Before([last], nl) == last + nl;
  }

  /** The flat text around two neighbouring lines. */
  lemma {:induction false} AroundTwo(prior: seq<string>, x: string, y: string, rest: seq<string>, nl: Newline)
    ensures Join(prior + [x, y] + rest, nl) == (Before(prior, nl) + x) + nl + (y + After(rest, nl))
  {
    JoinAround(prior + [x], y, rest, nl);
    BeforeLast(prior, x, nl);
    assert prior + [x] + [y] == prior + [x, y];
    assert Before(prior, nl) + x + nl + y + After(rest, nl) == (Before(prior, nl) + x) + nl + (y + After(rest, nl));
  }

  lemma {:induction false} AroundOne(prior: seq<string>, x: string, y: string, rest: seq<string>, nl: Newline)
    ensures Join(prior + [x + y] + rest, nl) == (Before(prior, nl) + x) + (y + After(rest, nl))
  {
    JoinAround(prior, x + y, rest, nl);
    assert Before(prior, nl) + (x + y) + After(rest, nl) == (Before(prior, nl) + x) + (y + After(rest, nl));
  }

  /** A terminator between two lines, and where it lies, against the two lines as one. */
  lemma {:induction false} JoinOrPart(
    two: string, one: string, at: int, prior: seq<string>, x: string, y: string, rest: seq<string>, nl: Newline)
    requires two == Join(prior + [x, y] + rest, nl) && one == Join(prior + [x + y] + rest, nl)
    requires at == |Before(prior, nl)| + |x|
    ensures Replaced(one, at, at, nl, two) && Replaced(two, at, at + |nl|, "", one) && two[at..at + |nl|] == nl
  {
    AroundTwo(prior, x, y, rest, nl);
    AroundOne(prior, x, y, rest, nl);
    PartAround(Before(prior, nl) + x, nl, y + After(rest, nl), two, one);
  }

  lemma {:induction false} PartAround(a: string, nl: string, c: string, two: string, one: string)
    requires two == a + nl + c && one == a + c
    ensures var at := |a|;
            && Replaced(one, at, at, nl, two) && Replaced(two, at, at + |nl|, "", one) && two[at..at + |nl|] == nl
  {
    assert a + "" + c == a + c;
    ReplacedAround(a, "", c, nl);
    ReplacedAround(a, nl, c, "");
  }

  /** Enter inserts the terminator at the offset. */
  lemma {:induction false} SplitIsFlatNewline(seg: Segmenter, b: Buffer, nl: Newline)
    requires InBounds(b)
    ensures Replaced(Flat(b, nl), Offset(b, nl), Offset(b, nl), nl, Flat(SplitLine(seg, b), nl))
  {
    var prior, line, rest := b.lines[..b.line], b.lines[b.line], b.lines[b.line + 1..];
    assert line[..b.column] + line[b.column..] == line && prior + [line] + rest == b.lines;
    JoinOrPart(Flat(SplitLine(seg, b), nl), Flat(b, nl), Offset(b, nl), prior, line[..b.column], line[b.column..], rest, nl);
  }

  /** Enter moves the caret past the terminator it inserted. */
  lemma {:induction false} SplitMovesPast(seg: Segmenter, b: Buffer, nl: Newline)
    requires InBounds(b)
    ensures InBounds(SplitLine(seg, b)) && Offset(SplitLine(seg, b), nl) == Offset(b, nl) + |nl|
  {
    var line := b.lines[b.line];
    var s := Parted(b);
    CaretsAreBoundaries(seg, line[b.column..], 0);
    ClampOffset(seg, s, nl);
    ClampSettles(seg, s);
    assert s.lines[..s.line] == b.lines[..b.line] + [line[..b.column]];
    BeforeLast(b.lines[..b.line], line[..b.column], nl);
  }

  /** Where the caret's line starts, counted from the line above. */
  lemma {:induction false} LineAbove(b: Buffer, nl: Newline)
    requires InBounds(b) && b.line > 0 && b.column == 0
    ensures Offset(b, nl) == |Before(b.lines[..b.line - 1], nl)| + |b.lines[b.line - 1]| + |nl|
  {
    BeforeLast(b.lines[..b.line - 1], b.lines[b.line - 1], nl);
    assert b.lines[..b.line] == b.lines[..b.line - 1] + [b.lines[b.line - 1]];
  }

  lemma {:induction false} JoinErases(b: Buffer, merged: seq<string>, nl: Newline)
    requires InBounds(b) && b.column == 0 && b.line > 0
    requires merged == b.lines[..b.line - 1] + [b.lines[b.line - 1] + b.lines[b.line]] + b.lines[b.line + 1..]
    ensures var o := Offset(b, nl);
            Replaced(Flat(b, nl), o - |nl|, o, "", Join(merged, nl)) && Flat(b, nl)[o - |nl|..o] == nl
  {
    var prior, x, y, rest := b.lines[..b.line - 1], b.lines[b.line - 1], b.lines[b.line], b.lines[b.line + 1..];
    LineAbove(b, nl);
    assert b.lines == prior + [x, y] + rest;
    JoinOrPart(Flat(b, nl), Join(merged, nl), Offset(b, nl) - |nl|, prior, x, y, rest, nl);
  }

  /** Backspace at the start of a line, unless refused, removes the terminator before the offset. */
  lemma {:induction false} JoinIsFlatErasure(seg: Segmenter, hunks: Hunks, b: Buffer, nl: Newline)
    requires InBounds(b) && b.column == 0 && b.line > 0 && Single(hunks, MergedSources(b))
    ensures var b', o := DeleteBackwards(seg, hunks, b), Offset(b, nl);
            Replaced(Flat(b, nl), o - |nl|, o, "", Flat(b', nl)) && Flat(b, nl)[o - |nl|..o] == nl
  {
    JoinErases(b, Joined(b).lines, nl);
    JoinTaken(seg, hunks, b);
  }

  /** The join leaves the caret where the terminator was, back to the nearest boundary. */
  lemma {:induction false} JoinMovesBack(seg: Segmenter, hunks: Hunks, b: Buffer, nl: Newline)
    requires InBounds(b) && b.column == 0 && b.line > 0 && Single(hunks, MergedSources(b))
    ensures InBounds(DeleteBackwards(seg, hunks, b))
    ensures var b', seam := DeleteBackwards(seg, hunks, b), Offset(b, nl) - |nl|;
            && Offset(b', nl) <= seam
            && (Offset(b', nl) == seam <==> Boundary(seg, b'.lines[b'.line], |b.lines[b.line - 1]|))
  {
    var j := Joined(b);
    LineAbove(b, nl);
    ClampOffset(seg, j, nl);
    ClampSettles(seg, j);
    assert j.lines[..b.line - 1] == b.lines[..b.line - 1];
    JoinTaken(seg, hunks, b);
  }

  /** Caret moves leave the text alone. */
  lemma {:induction false} MoveIsFlatNothing(seg: Segmenter, b: Buffer, towards: Direction, nl: Newline)
    requires InBounds(b)
    ensures Flat(MoveCursor(seg, b, towards), nl) == Flat(b, nl)
  {
  }

  /** Inside a line, a step right moves the offset on by the next grapheme. */
  lemma {:induction false} RightInLine(seg: Segmenter, b: Buffer, nl: Newline)
    requires InBounds(b) && Boundary(seg, b.lines[b.line], b.column) && b.column < |b.lines[b.line]|
    ensures var r := MoveCursor(seg, b, Right);
            && r == b.(column := Following(seg, b.lines[b.line], b.column)) && InBounds(r)
            && Offset(r, nl) == Offset(b, nl) + Following(seg, b.lines[b.line], b.column) - b.column
  {
    var line := b.lines[b.line];
    FollowingIsNearest(seg, line, b.column);
    CaretsAreBoundaries(seg, line, b.column);
    ClampSettles(seg, b.(column := Following(seg, line, b.column)));
  }

  /** From the end of a line, a step right moves the offset past the terminator. */
  lemma {:induction false} RightToNextLine(seg: Segmenter, b: Buffer, nl: Newline)
    requires InBounds(b) && b.column == |b.lines[b.line]| && b.line < |b.lines| - 1
    ensures var r := MoveCursor(seg, b, Right);
            r == b.(line := b.line + 1, column := 0) && InBounds(r) && Offset(r, nl) == Offset(b, nl) + |nl|
  {
    var d := b.(line := b.line + 1, column := 0);
    OverRight(seg, b);
    LineAbove(d, nl);
  }

  /** Backspace leaves the text alone exactly at its start and at a join of two hunks, and then leaves all alone. */
  lemma {:induction false} BackspaceIsNoOpExactly(seg: Segmenter, hunks: Hunks, b: Buffer, nl: Newline)
    requires InBounds(b)
    ensures Flat(DeleteBackwards(seg, hunks, b), nl) == Flat(b, nl)
            <==> b.column == 0 && (b.line == 0 || !Single(hunks, MergedSources(b)))
    ensures Flat(DeleteBackwards(seg, hunks, b), nl) == Flat(b, nl) ==> DeleteBackwards(seg, hunks, b) == b
  {
    if b.column > 0 {
      BackspaceIsFlatErasure(seg, hunks, b, nl);
    } else if b.line > 0 && Single(hunks, MergedSources(b)) {
      JoinIsFlatErasure(seg, hunks, b, nl);
    }
  }
}
