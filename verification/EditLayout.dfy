/** Where the inline editor's layout puts hunk extents and note bindings. */
module EditLayout {
  import opened Graphemes
  import opened EditBuffer
  import opened EditDocument
  import opened Extents

  /** The first row holding a line of the hunk, or -1. */
  function FirstRow(hunk: Range, rows: seq<seq<int>>): (r: int)
    ensures -1 <= r < |rows|
    ensures r >= 0 ==> Touches(hunk, rows[r])
  {
    if rows == [] then -1
    else if Touches(hunk, rows[0]) then 0
    else
      var r := FirstRow(hunk, rows[1..]);
      if r < 0 then -1 else r + 1
  }

  /** The last row holding a line of the hunk, or -1. */
  function LastRow(hunk: Range, rows: seq<seq<int>>): (r: int)
    ensures -1 <= r < |rows|
    ensures r >= 0 ==> Touches(hunk, rows[r])
  {
    var last := |rows| - 1;
    if rows == [] then -1
    else if Touches(hunk, rows[last]) then last
    else LastRow(hunk, rows[..last])
  }

  /** No row before the first or after the last holds a line of the hunk. */
  lemma {:induction false} RowsOutside(hunk: Range, rows: seq<seq<int>>, q: nat)
    requires q < |rows| && Touches(hunk, rows[q])
    ensures 0 <= FirstRow(hunk, rows) <= q <= LastRow(hunk, rows)
  {
    FirstComesFirst(hunk, rows, q);
    LastComesLast(hunk, rows, q);
  }

  lemma {:induction false} FirstComesFirst(hunk: Range, rows: seq<seq<int>>, q: nat)
    requires q < |rows| && Touches(hunk, rows[q])
    ensures 0 <= FirstRow(hunk, rows) <= q
  {
    if Touches(hunk, rows[0]) {
    } else {
      FirstComesFirst(hunk, rows[1..], q - 1);
    }
  }

  lemma {:induction false} LastComesLast(hunk: Range, rows: seq<seq<int>>, q: nat)
    requires q < |rows| && Touches(hunk, rows[q])
    ensures q <= LastRow(hunk, rows)
  {
    if Touches(hunk, rows[|rows| - 1]) {
    } else {
      LastComesLast(hunk, rows[..|rows| - 1], q);
    }
  }

  function HunkExtent(hunk: Range, rows: seq<seq<int>>, header: nat): Extent {
    var first := FirstRow(hunk, rows);
    if first < 0 then Extent(0, 0) else Extent(header + first, header + LastRow(hunk, rows))
  }

  /** `hunkRanges.map(...)` */
  function HunkExtents(hunks: Hunks, rows: seq<seq<int>>, header: nat): seq<Extent> {
    seq(|hunks|, i requires 0 <= i < |hunks| => HunkExtent(hunks[i], rows, header))
  }

  /** Some document line of the row lies in some hunk. */
  predicate InSomeHunk(hunks: Hunks, sources: seq<int>) {
    exists i | 0 <= i < |hunks| :: Touches(hunks[i], sources)
  }

  /** Whether a row keeps its source binding: it presents lines, and exactly one extent covers it. */
  predicate KeepsBinding(extents: seq<Extent>, sources: seq<int>, row: int) {
    sources != [] && CoverCount(extents, row) == 1
  }

  /** The extent pass as written: one sweep over the rows for each hunk. */
  method ComputeExtent(hunk: Range, rows: seq<seq<int>>, header: nat) returns (extent: Extent)
    ensures extent == HunkExtent(hunk, rows, header)
  {
    var startRow, endRow := -1, -1;
    for index := 0 to |rows|
      invariant startRow == -1 <==> endRow == -1
      invariant startRow == -1 ==> forall q | 0 <= q < index :: !Touches(hunk, rows[q])
      invariant startRow != -1 ==>
          && header <= startRow <= endRow < header + index
          && Touches(hunk, rows[startRow - header]) && Touches(hunk, rows[endRow - header])
          && (forall q | 0 <= q < startRow - header :: !Touches(hunk, rows[q]))
          && (forall q | endRow - header < q < index :: !Touches(hunk, rows[q]))
    {
      if Touches(hunk, rows[index]) {
        startRow := if startRow == -1 then header + index else startRow;
        endRow := header + index;
      }
    }
    SweepIs(hunk, rows, startRow, endRow, header);
    extent := if startRow == -1 then Extent(0, 0) else Extent(startRow, endRow);
  }

  /** The rows the sweep ends with are the first and the last. */
  lemma {:induction false} SweepIs(hunk: Range, rows: seq<seq<int>>, startRow: int, endRow: int, header: nat)
    requires startRow == -1 <==> endRow == -1
    requires startRow == -1 ==> forall q | 0 <= q < |rows| :: !Touches(hunk, rows[q])
    requires startRow != -1 ==>
               && header <= startRow <= endRow < header + |rows|
               && Touches(hunk, rows[startRow - header]) && Touches(hunk, rows[endRow - header])
               && (forall q | 0 <= q < startRow - header :: !Touches(hunk, rows[q]))
               && (forall q | endRow - header < q < |rows| :: !Touches(hunk, rows[q]))
    ensures HunkExtent(hunk, rows, header) == if startRow == -1 then Extent(0, 0) else Extent(startRow, endRow)
  {
    if startRow != -1 {
      RowsOutside(hunk, rows, startRow - header);
      RowsOutside(hunk, rows, endRow - header);
    }
  }

  // ---- Rows list the document in order ----

  function Start(rows: seq<seq<int>>, r: nat): nat
    requires r <= |rows|
  {
    |Flatten(rows[..r])|
  }

  lemma {:induction false} StartStep(rows: seq<seq<int>>, r: nat)
    requires r < |rows|
    ensures Start(rows, r + 1) == Start(rows, r) + |rows[r]|
  {
    assert rows[..r + 1] == rows[..r] + [rows[r]];
    FlattenConcat(rows[..r], [rows[r]], rows[..r] + [rows[r]]);
    FlattenOne(rows[r]);
  }

  lemma {:induction false} StartMonotone(rows: seq<seq<int>>, r: nat, q: nat)
    requires r <= q <= |rows|
    ensures Start(rows, r) <= Start(rows, q)
    decreases q
  {
    if r < q {
      StartMonotone(rows, r, q - 1);
      StartStep(rows, q - 1);
    }
  }

  /** A row holds exactly the run of document lines that starts after the rows above it. */
  lemma {:induction false} RowIsRun(rows: seq<seq<int>>, n: nat, r: nat)
    requires Flatten(rows) == UpTo(n) && r < |rows|
    ensures Start(rows, r) + |rows[r]| <= n
    ensures forall k | 0 <= k < |rows[r]| :: rows[r][k] == Start(rows, r) + k + 1
  {
    FlattenThree(rows[..r], [rows[r]], rows[r + 1..], rows[..r] + [rows[r]] + rows[r + 1..]);
    FlattenOne(rows[r]);
    assert rows[..r] + [rows[r]] + rows[r + 1..] == rows;
    var a, c := Flatten(rows[..r]), Flatten(rows[r + 1..]);
    forall k | 0 <= k < |rows[r]| ensures rows[r][k] == Start(rows, r) + k + 1 {
      assert (a + rows[r] + c)[|a| + k] == rows[r][k];
    }
  }

  lemma {:induction false} RowsAscend(rows: seq<seq<int>>, n: nat, r: nat, q: nat, x: int, y: int)
    requires Flatten(rows) == UpTo(n) && r < q < |rows| && x in rows[r] && y in rows[q]
    ensures 1 <= x < y <= n
  {
    RowIsRun(rows, n, r);
    RowIsRun(rows, n, q);
    StartStep(rows, r);
    StartMonotone(rows, r + 1, q);
  }

  lemma {:induction false} FindRow(rows: seq<seq<int>>, n: nat, x: int, q: nat) returns (r: nat)
    requires Flatten(rows) == UpTo(n) && q <= |rows| && 1 <= x <= Start(rows, q)
    ensures r < |rows| && x in rows[r]
    decreases q
  {
    assert Start(rows, 0) == 0;
    r := q - 1;
    StartStep(rows, r);
    if x <= Start(rows, r) {
      r := FindRow(rows, n, x, r);
    } else {
      RowIsRun(rows, n, r);
      assert rows[r][x - Start(rows, r) - 1] == x;
    }
  }

  // ---- Extents ----

  /** A hunk is represented by some row exactly when it holds a line of the document. */
  lemma {:induction false} HunkIsShown(hunk: Range, rows: seq<seq<int>>, n: nat)
    requires Flatten(rows) == UpTo(n)
    ensures 0 <= FirstRow(hunk, rows) <= LastRow(hunk, rows) <==> exists x | 1 <= x <= n :: hunk.Holds(x)
    ensures FirstRow(hunk, rows) < 0 <==> LastRow(hunk, rows) < 0
  {
    var r := FirstRow(hunk, rows);
    if LastRow(hunk, rows) >= 0 { RowsOutside(hunk, rows, LastRow(hunk, rows)); }
    if r >= 0 {
      RowsOutside(hunk, rows, r);
      var x :| x in rows[r] && hunk.Holds(x);
      RowIsRun(rows, n, r);
    }
    if x :| 1 <= x <= n && hunk.Holds(x) {
      assert rows[..|rows|] == rows;
      var q := FindRow(rows, n, x, |rows|);
      RowsOutside(hunk, rows, q);
    }
  }

  /** With no row shared, a later hunk's rows all come after an earlier hunk's. */
  lemma {:induction false} ExtentsAreApart(hunks: Hunks, rows: seq<seq<int>>, n: nat, i: nat, j: nat)
    requires Flatten(rows) == UpTo(n) && Ordered(hunks, n) && Owned(hunks, rows) && i < j < |hunks|
    ensures 0 <= FirstRow(hunks[i], rows) <= LastRow(hunks[i], rows) < FirstRow(hunks[j], rows)
  {
    OrderedIsShown(hunks, rows, n, i);
    OrderedIsShown(hunks, rows, n, j);
    var r, q := LastRow(hunks[i], rows), FirstRow(hunks[j], rows);
    if r == q {
      TwoOwners(hunks, rows[r], i, j);
    } else if q < r {
      var x :| x in rows[r] && hunks[i].Holds(x);
      var y :| y in rows[q] && hunks[j].Holds(y);
      RowsAscend(rows, n, q, r, y, x);
    }
  }

  lemma {:induction false} OrderedIsShown(hunks: Hunks, rows: seq<seq<int>>, n: nat, i: nat)
    requires Flatten(rows) == UpTo(n) && Ordered(hunks, n) && i < |hunks|
    ensures 0 <= FirstRow(hunks[i], rows) <= LastRow(hunks[i], rows)
  {
    assert hunks[i].Holds(hunks[i].first);
    HunkIsShown(hunks[i], rows, n);
  }

  lemma {:induction false} TwoOwners(hunks: Hunks, sources: seq<int>, i: nat, j: nat)
    requires i < j < |hunks| && Touches(hunks[i], sources) && Touches(hunks[j], sources)
    ensures !Single(hunks, sources)
  {
    var owners := Owners(hunks, sources);
    assert {i, j} <= owners;
    CardinalityGrows({i, j}, owners);
  }

  lemma {:induction false} CardinalityGrows(a: set<nat>, b: set<nat>)
    requires a <= b
    ensures |a| <= |b|
  {
    if a == {} {
    } else {
      var x :| x in a;
      CardinalityGrows(a - {x}, b - {x});
    }
  }

  /** A row that presents lines and lies within a hunk's extent holds a line of that hunk. */
  lemma {:induction false} InsideMeansTouching(hunk: Range, rows: seq<seq<int>>, n: nat, r: nat)
    requires Flatten(rows) == UpTo(n) && r < |rows| && rows[r] != []
    requires 0 <= FirstRow(hunk, rows) <= r <= LastRow(hunk, rows)
    ensures Touches(hunk, rows[r])
  {
    var p, q := FirstRow(hunk, rows), LastRow(hunk, rows);
    if p < r < q {
      var x :| x in rows[p] && hunk.Holds(x);
      var y :| y in rows[q] && hunk.Holds(y);
      RowsAscend(rows, n, p, r, x, rows[r][0]);
      RowsAscend(rows, n, r, q, rows[r][0], y);
      assert hunk.Holds(rows[r][0]);
    }
  }

  /** An extent covers a row that presents lines when its hunk touches it, or when it collapsed and the row is row 0. */
  lemma {:induction false} CoversExactly(hunk: Range, rows: seq<seq<int>>, n: nat, header: nat, r: nat)
    requires Flatten(rows) == UpTo(n) && r < |rows| && rows[r] != []
    ensures HunkExtent(hunk, rows, header).Covers(header + r)
            <==> Touches(hunk, rows[r]) || (header + r == 0 && FirstRow(hunk, rows) < 0)
  {
    if Touches(hunk, rows[r]) { RowsOutside(hunk, rows, r); }
    if FirstRow(hunk, rows) >= 0 && HunkExtent(hunk, rows, header).Covers(header + r) {
      InsideMeansTouching(hunk, rows, n, r);
    }
  }

  // ---- Bindings ----

  /** The hunks of which no row holds a line. */
  function Collapsed(hunks: Hunks, rows: seq<seq<int>>): set<nat> {
    set i | 0 <= i < |hunks| && FirstRow(hunks[i], rows) < 0
  }

  /** The hunks that claim a row: those it holds a line of, and on row 0 the collapsed ones too. */
  function Claimants(hunks: Hunks, rows: seq<seq<int>>, header: nat, r: nat): set<nat>
    requires r < |rows|
  {
    Owners(hunks, rows[r]) + (if header + r == 0 then Collapsed(hunks, rows) else {})
  }

  /** An extent covers a row that presents lines exactly when its hunk claims the row. */
  lemma {:induction false} ClaimCovers(
      hunks: Hunks, rows: seq<seq<int>>, n: nat, header: nat, extents: seq<Extent>, r: nat, i: nat)
    requires Flatten(rows) == UpTo(n) && extents == HunkExtents(hunks, rows, header) && r < |rows| && rows[r] != []
    requires i < |hunks|
    ensures extents[i].Covers(header + r) <==> i in Claimants(hunks, rows, header, r)
  {
    CoversExactly(hunks[i], rows, n, header, r);
  }

  lemma {:induction false} ClaimsCover(
      hunks: Hunks, rows: seq<seq<int>>, n: nat, header: nat, extents: seq<Extent>, r: nat)
    requires Flatten(rows) == UpTo(n) && extents == HunkExtents(hunks, rows, header) && r < |rows| && rows[r] != []
    ensures Covering(extents, header + r) == Claimants(hunks, rows, header, r)
  {
    forall i | 0 <= i < |extents|
      ensures extents[i].Covers(header + r) <==> i in Claimants(hunks, rows, header, r)
    {
      ClaimCovers(hunks, rows, n, header, extents, r, i);
    }
  }

  lemma {:induction false} BindingByCovering(extents: seq<Extent>, sources: seq<int>, row: int, claimants: set<nat>)
    requires sources != [] ==> Covering(extents, row) == claimants
    ensures KeepsBinding(extents, sources, row) <==> sources != [] && |claimants| == 1
  {
    CountIsCovering(extents, row);
  }

  /** Whatever the hunks, a row keeps its binding exactly when it presents lines and one hunk claims it. */
  lemma {:induction false} LayoutBinds(
      hunks: Hunks, rows: seq<seq<int>>, n: nat, header: nat, extents: seq<Extent>, r: nat)
    requires Flatten(rows) == UpTo(n) && extents == HunkExtents(hunks, rows, header) && r < |rows|
    ensures KeepsBinding(extents, rows[r], header + r)
            <==> rows[r] != [] && |Claimants(hunks, rows, header, r)| == 1
  {
    if rows[r] != [] { ClaimsCover(hunks, rows, n, header, extents, r); }
    BindingByCovering(extents, rows[r], header + r, Claimants(hunks, rows, header, r));
  }

  /** Extents lie within the rows. */
  ghost predicate Within(extents: seq<Extent>, from: int, end: int) {
    forall i | 0 <= i < |extents| :: from <= extents[i].startRow <= extents[i].endRow < end
  }

  /** Extents are in order and apart. */
  ghost predicate Apart(extents: seq<Extent>) {
    forall i, j | 0 <= i < j < |extents| :: extents[i].endRow < extents[j].startRow
  }

  lemma {:induction false} LayoutWithin(hunks: Hunks, rows: seq<seq<int>>, n: nat, header: nat, extents: seq<Extent>)
    requires Flatten(rows) == UpTo(n) && rows != [] && extents == HunkExtents(hunks, rows, header)
    ensures Within(extents, 0, header + |rows|)
    ensures Ordered(hunks, n) && Owned(hunks, rows) ==> Within(extents, header, header + |rows|) && Apart(extents)
  {
    forall i | 0 <= i < |hunks| ensures 0 <= extents[i].startRow <= extents[i].endRow < header + |rows| {
      var first := FirstRow(hunks[i], rows);
      if first >= 0 { RowsOutside(hunks[i], rows, first); }
    }
    if Ordered(hunks, n) && Owned(hunks, rows) {
      forall i | 0 <= i < |hunks| ensures header <= extents[i].startRow { OrderedIsShown(hunks, rows, n, i); }
      forall i, j | 0 <= i < j < |hunks| ensures extents[i].endRow < extents[j].startRow {
        ExtentsAreApart(hunks, rows, n, i, j);
        OrderedIsShown(hunks, rows, n, j);
      }
    }
  }

  lemma {:induction false} OneOwner(hunks: Hunks, sources: seq<int>)
    requires Single(hunks, sources)
    ensures |Owners(hunks, sources)| == 1 <==> InSomeHunk(hunks, sources)
  {
    if InSomeHunk(hunks, sources) {
      var i :| 0 <= i < |hunks| && Touches(hunks[i], sources);
      assert i in Owners(hunks, sources);
    } else {
      assert Owners(hunks, sources) == {};
    }
  }

  /** While a session is open its header takes the first row. */
  const SESSION_HEADER := 1

  /** The extents of a session's rows. */
  function SessionExtents(hunks: Hunks, rows: seq<seq<int>>): seq<Extent> {
    HunkExtents(hunks, rows, SESSION_HEADER)
  }

  /** Whether the `r`-th line's row keeps its source binding in a session's layout. */
  predicate Bound(hunks: Hunks, rows: seq<seq<int>>, r: nat)
    requires r < |rows|
  {
    KeepsBinding(SessionExtents(hunks, rows), rows[r], SESSION_HEADER + r)
  }

  /** In a session's layout a row keeps its binding exactly when it holds lines of exactly one hunk. */
  lemma {:induction false} BoundExactly(hunks: Hunks, rows: seq<seq<int>>, n: nat, r: nat)
    requires Flatten(rows) == UpTo(n) && r < |rows|
    ensures Bound(hunks, rows, r) <==> |Owners(hunks, rows[r])| == 1
  {
    LayoutBinds(hunks, rows, n, SESSION_HEADER, SessionExtents(hunks, rows), r);
    assert Claimants(hunks, rows, SESSION_HEADER, r) == Owners(hunks, rows[r]);
    assert rows[r] == [] ==> Owners(hunks, rows[r]) == {};
  }

  /**
   * During any session, whatever its hunks: extents are in bounds, and a row keeps its source binding exactly when it
   * holds lines of exactly one hunk. Hunks as a diff lists them have extents in order and apart, below the header.
   */
  lemma {:induction false} SessionLayout(seg: Segmenter, hunks: Hunks, text: string, cursorLine: int, keys: seq<Key>)
    ensures var rows := Session(seg, hunks, text, cursorLine, keys).provenance;
            var extents, end := SessionExtents(hunks, rows), SESSION_HEADER + |rows|;
            && Within(extents, 0, end)
            && (Ordered(hunks, |SplitDocumentLines(text)|) ==> Within(extents, SESSION_HEADER, end) && Apart(extents))
            && forall r | 0 <= r < |rows| :: Bound(hunks, rows, r) <==> |Owners(hunks, rows[r])| == 1
  {
    SessionKeeps(seg, hunks, text, cursorLine, keys);
    var rows, n := Session(seg, hunks, text, cursorLine, keys).provenance, |SplitDocumentLines(text)|;
    LayoutWithin(hunks, rows, n, SESSION_HEADER, SessionExtents(hunks, rows));
    if Ordered(hunks, n) { assert Disjoint(hunks, n); }
    forall r | 0 <= r < |rows| { BoundExactly(hunks, rows, n, r); }
  }

  /** Every row that holds a line of some hunk keeps its binding. */
  ghost predicate AllBound(seg: Segmenter, hunks: Hunks, text: string, cursorLine: int, keys: seq<Key>) {
    var rows := Session(seg, hunks, text, cursorLine, keys).provenance;
    forall r | 0 <= r < |rows| :: InSomeHunk(hunks, rows[r]) ==> Bound(hunks, rows, r)
  }

  /** No run of keys ever unbinds a row that holds a line of a hunk exactly when no document line lies in two hunks. */
  lemma {:induction false} BindingsKeptExactly(seg: Segmenter, hunks: Hunks, text: string, cursorLine: int)
    ensures (forall keys :: AllBound(seg, hunks, text, cursorLine, keys))
            <==> Disjoint(hunks, |SplitDocumentLines(text)|)
  {
    if Disjoint(hunks, |SplitDocumentLines(text)|) {
      forall keys ensures AllBound(seg, hunks, text, cursorLine, keys) {
        DisjointKeeps(seg, hunks, text, cursorLine, keys);
      }
    } else {
      SharedLineUnbinds(seg, hunks, text, cursorLine);
    }
  }

  lemma {:induction false} DisjointKeeps(seg: Segmenter, hunks: Hunks, text: string, cursorLine: int, keys: seq<Key>)
    requires Disjoint(hunks, |SplitDocumentLines(text)|)
    ensures AllBound(seg, hunks, text, cursorLine, keys)
  {
    SessionKeeps(seg, hunks, text, cursorLine, keys);
    var rows := Session(seg, hunks, text, cursorLine, keys).provenance;
    forall r | 0 <= r < |rows| && InSomeHunk(hunks, rows[r]) ensures Bound(hunks, rows, r) {
      assert rows[r] in rows;
      BoundExactly(hunks, rows, |SplitDocumentLines(text)|, r);
      OneOwner(hunks, rows[r]);
    }
  }

  lemma {:induction false} SharedRow(hunks: Hunks, rows: seq<seq<int>>, n: nat, r: nat, i: nat, j: nat, x: int)
    requires Flatten(rows) == UpTo(n) && r < |rows| && rows[r] == [x]
    requires i < j < |hunks| && hunks[i].Holds(x) && hunks[j].Holds(x)
    ensures InSomeHunk(hunks, rows[r]) && !Bound(hunks, rows, r)
  {
    assert x in rows[r];
    assert Touches(hunks[i], rows[r]) && Touches(hunks[j], rows[r]);
    TwoOwners(hunks, rows[r], i, j);
    BoundExactly(hunks, rows, n, r);
  }

  lemma {:induction false} UnboundRow(
    seg: Segmenter, hunks: Hunks, text: string, cursorLine: int, keys: seq<Key>, rows: seq<seq<int>>, r: nat)
    requires rows == Session(seg, hunks, text, cursorLine, keys).provenance && r < |rows|
    requires InSomeHunk(hunks, rows[r]) && !Bound(hunks, rows, r)
    ensures !AllBound(seg, hunks, text, cursorLine, keys)
  {
  }

  lemma {:induction false} SessionOpens(seg: Segmenter, hunks: Hunks, text: string, cursorLine: int, n: nat)
    returns (rows: seq<seq<int>>)
    requires n == |SplitDocumentLines(text)|
    ensures rows == Session(seg, hunks, text, cursorLine, []).provenance && Flatten(rows) == UpTo(n)
    ensures |rows| == n && forall i | 0 <= i < n :: rows[i] == [i + 1]
  {
    rows := OwnRows(n);
    LoadedRows(n);
  }

  /** A line that lies in two hunks is on a row without a binding as soon as the session opens. */
  lemma {:induction false} SharedLineUnbinds(seg: Segmenter, hunks: Hunks, text: string, cursorLine: int)
    requires !Disjoint(hunks, |SplitDocumentLines(text)|)
    ensures !AllBound(seg, hunks, text, cursorLine, [])
  {
    var n := |SplitDocumentLines(text)|;
    var i, j, x :| 0 <= i < j < |hunks| && 1 <= x <= n && hunks[i].Holds(x) && hunks[j].Holds(x);
    var rows := SessionOpens(seg, hunks, text, cursorLine, n);
    SharedRow(hunks, rows, n, x - 1, i, j, x);
    UnboundRow(seg, hunks, text, cursorLine, [], rows, x - 1);
  }
}
