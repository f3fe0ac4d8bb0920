/** The inline editor's buffer: lines, the provenance of each line, and the caret. */
module EditBuffer {
  import opened Wrappers
  import opened Graphemes

  datatype Buffer = Buffer(lines: seq<string>, provenance: seq<seq<int>>, line: int, column: int)

  /** An inclusive range of one-based document lines that a hunk covers. */
  datatype Range = Range(first: int, last: int) {
    predicate Holds(source: int) { first <= source <= last }
  }

  type Hunks = seq<Range>

  predicate InBounds(b: Buffer) {
    |b.lines| == |b.provenance| && 0 <= b.line < |b.lines| && 0 <= b.column <= |b.lines[b.line]|
  }

  function Clamp(value: int, low: int, high: int): int {
    var capped := if value < high then value else high;
    if capped < low then low else capped
  }

  function ClampCursor(seg: Segmenter, b: Buffer): Buffer
    requires b.lines != []
  {
    var line := Clamp(b.line, 0, |b.lines| - 1);
    b.(line := line, column := Snap(seg, b.lines[line], Clamp(b.column, 0, |b.lines[line]|)))
  }

  /** `items.splice(at, removed, ...added)`. */
  function Splice<T>(items: seq<T>, at: nat, removed: nat, added: seq<T>): seq<T>
    requires at + removed <= |items|
  {
    items[..at] + added + items[at + removed..]
  }

  function InsertText(seg: Segmenter, b: Buffer, text: string): Buffer
    requires InBounds(b)
  {
    var line := b.lines[b.line];
    ClampCursor(seg, b.(lines := b.lines[b.line := line[..b.column] + text + line[b.column..]],
                        column := b.column + |text|))
  }

  /** Some document line of the row lies in the hunk. */
  predicate Touches(hunk: Range, sources: seq<int>) {
    exists source <- sources :: hunk.Holds(source)
  }

  /** The hunks that own a row presenting these document lines. */
  function Owners(hunks: Hunks, sources: seq<int>): set<nat> {
    set i | 0 <= i < |hunks| && Touches(hunks[i], sources)
  }

  function MergedSources(b: Buffer): seq<int>
    requires InBounds(b) && b.line > 0
  {
    b.provenance[b.line - 1] + b.provenance[b.line]
  }

  function DeleteBackwards(seg: Segmenter, hunks: Hunks, b: Buffer): Buffer
    requires InBounds(b)
  {
    var line := b.lines[b.line];
    if b.column > 0 then
      var previous := Previous(seg, line, b.column);
      assert previous < b.column by { PreviousIsNearest(seg, line, b.column); }
      ClampCursor(seg, b.(lines := b.lines[b.line := line[..previous] + line[b.column..]], column := previous))
    else if b.line == 0 then b
    else if |Owners(hunks, MergedSources(b))| > 1 then b
    else
      var at, previous := b.line - 1, b.lines[b.line - 1];
      ClampCursor(seg, Buffer(Splice(b.lines, at, 2, [previous + line]),
                              Splice(b.provenance, at, 2, [MergedSources(b)]), at, |previous|))
  }

  function SplitLine(seg: Segmenter, b: Buffer): Buffer
    requires InBounds(b)
  {
    var line := b.lines[b.line];
    ClampCursor(seg, Buffer(Splice(b.lines, b.line, 1, [line[..b.column], line[b.column..]]),
                            Splice(b.provenance, b.line, 1, [b.provenance[b.line], []]), b.line + 1, 0))
  }

  datatype Direction = Up | Down | Left | Right

  /** The caret a line up or down, at the same grapheme column. */
  function Vertically(seg: Segmenter, b: Buffer, down: bool): Buffer
    requires InBounds(b)
  {
    var column := Column(seg, b.lines[b.line], b.column);
    var target := Clamp(b.line + (if down then 1 else -1), 0, |b.lines| - 1);
    b.(line := target, column := AtColumn(seg, b.lines[target], column))
  }

  /** The caret a step left, before it is clamped. */
  function Leftwards(seg: Segmenter, b: Buffer): Buffer
    requires InBounds(b)
  {
    if b.column == 0 && b.line > 0 then b.(line := b.line - 1, column := |b.lines[b.line - 1]|)
    else b.(column := Previous(seg, b.lines[b.line], b.column))
  }

  /** The caret a step right, before it is clamped. */
  function Rightwards(seg: Segmenter, b: Buffer): Buffer
    requires InBounds(b)
  {
    if b.column >= |b.lines[b.line]| && b.line < |b.lines| - 1 then b.(line := b.line + 1, column := 0)
    else b.(column := Following(seg, b.lines[b.line], b.column))
  }

  function MoveCursor(seg: Segmenter, b: Buffer, towards: Direction): Buffer
    requires InBounds(b)
  {
    match towards
    case Up | Down => Vertically(seg, b, towards.Down?)
    case Left => ClampCursor(seg, Leftwards(seg, b))
    case Right => ClampCursor(seg, Rightwards(seg, b))
  }

  /** A key event; `isSave` and `isEnter` are what the host's `matchesKey` says of it. */
  datatype Key = Key(name: string, sequence: string, ctrl: bool, meta: bool, option: bool, isSave: bool, isEnter: bool)

  datatype KeyAnswer = Passed | Edited | SaveRequested

  /** The character a key would type, if it types one. */
  function PrintableCharacter(seg: Segmenter, key: Key): Option<string> {
    if key.ctrl || key.meta || key.option then None
    else if |seg(key.sequence)| != 1 then None
    else
      assert WellSegmented(key.sequence, seg(key.sequence));
      var code := key.sequence[0] as int;
      if code >= 0x20 && code != 0x7f then Some(key.sequence) else None
  }

  function OnKey(seg: Segmenter, hunks: Hunks, b: Buffer, key: Key): (Buffer, KeyAnswer)
    requires InBounds(b)
  {
    if key.isSave then (b, SaveRequested)
    else if key.sequence == "]" || key.sequence == "?" || key.sequence == "q" then (b, Passed)
    else if key.name == "up" then (MoveCursor(seg, b, Up), Edited)
    else if key.name == "down" then (MoveCursor(seg, b, Down), Edited)
    else if key.name == "left" then (MoveCursor(seg, b, Left), Edited)
    else if key.name == "right" then (MoveCursor(seg, b, Right), Edited)
    else if key.name == "backspace" then (DeleteBackwards(seg, hunks, b), Edited)
    else if key.isEnter then (SplitLine(seg, b), Edited)
    else
      match PrintableCharacter(seg, key)
      case None => (b, Passed)
      case Some(text) => (InsertText(seg, b, text), Edited)
  }

  // ---- What every run of keys keeps ----

  function Flatten(rows: seq<seq<int>>): seq<int> {
    if rows == [] then [] else rows[0] + Flatten(rows[1..])
  }

  function UpTo(n: nat): seq<int> { seq(n, i => i + 1) }

  /** Hunks as a diff lists them: non-empty, in order, apart, and inside the document's `n` lines. */
  ghost predicate Ordered(hunks: Hunks, n: nat) {
    && (forall i | 0 <= i < |hunks| :: 1 <= hunks[i].first <= hunks[i].last <= n)
    && (forall i, j | 0 <= i < j < |hunks| :: hunks[i].last < hunks[j].first)
  }

  ghost predicate Single(hunks: Hunks, sources: seq<int>) { |Owners(hunks, sources)| <= 1 }

  ghost predicate Unbroken(s: string) { forall c <- s :: !LineBreak(c) }

  /** No row belongs to two hunks. */
  ghost predicate Owned(hunks: Hunks, rows: seq<seq<int>>) {
    forall row <- rows :: Single(hunks, row)
  }

  /**
   * The caret stands on a boundary of a line of the buffer, provenance is parallel to the lines and lists
   * document lines 1 to `n` once each and in order, and no line holds a break.
   */
  ghost predicate Inv(seg: Segmenter, n: nat, b: Buffer) {
    && InBounds(b)
    && Boundary(seg, b.lines[b.line], b.column)
    && Flatten(b.provenance) == UpTo(n)
    && (forall line <- b.lines :: Unbroken(line))
  }

  lemma {:induction false} FlattenConcat(a: seq<seq<int>>, b: seq<seq<int>>, all: seq<seq<int>>)
    requires all == a + b
    ensures Flatten(all) == Flatten(a) + Flatten(b)
  {
    if a == [] {
      assert all == b;
    } else {
      assert all[1..] == a[1..] + b;
      FlattenConcat(a[1..], b, all[1..]);
      assert a[0] + (Flatten(a[1..]) + Flatten(b)) == a[0] + Flatten(a[1..]) + Flatten(b);
    }
  }

  /** Replacing rows by rows that list the same document lines leaves the whole listing alone. */
  lemma {:induction false} FlattenSplice(rows: seq<seq<int>>, at: nat, removed: nat, added: seq<seq<int>>)
    requires at + removed <= |rows| && Flatten(rows[at..at + removed]) == Flatten(added)
    ensures Flatten(Splice(rows, at, removed, added)) == Flatten(rows)
  {
    var prior, taken, rest := rows[..at], rows[at..at + removed], rows[at + removed..];
    var after := Splice(rows, at, removed, added);
    assert rows == prior + taken + rest;
    FlattenThree(prior, added, rest, after);
    FlattenThree(prior, taken, rest, rows);
  }

  lemma {:induction false} FlattenThree(a: seq<seq<int>>, b: seq<seq<int>>, c: seq<seq<int>>, all: seq<seq<int>>)
    requires all == a + b + c
    ensures Flatten(all) == Flatten(a) + Flatten(b) + Flatten(c)
  {
    FlattenConcat(a + b, c, all);
    FlattenConcat(a, b, a + b);
  }

  lemma {:induction false} FlattenOne(x: seq<int>)
    ensures Flatten([x]) == x
  {
  }

  lemma {:induction false} FlattenPair(x: seq<int>, y: seq<int>)
    ensures Flatten([x, y]) == x + y
  {
    FlattenConcat([x], [y], [x] + [y]);
    FlattenOne(x);
    FlattenOne(y);
    assert [x] + [y] == [x, y];
  }

  lemma {:induction false} SpliceMembers<T>(items: seq<T>, at: nat, removed: nat, added: seq<T>)
    requires at + removed <= |items|
    ensures forall item <- Splice(items, at, removed, added) :: item in items || item in added
  {
  }

  lemma {:induction false} UpdateMembers<T>(items: seq<T>, at: nat, item: T)
    requires at < |items|
    ensures forall x <- items[at := item] :: x in items || x == item
  {
  }

  /** Clamping a caret that is in bounds only moves it back to a boundary. */
  lemma {:induction false} ClampSettles(seg: Segmenter, b: Buffer)
    requires InBounds(b)
    ensures var c := ClampCursor(seg, b);
            && c == b.(column := Snap(seg, b.lines[b.line], b.column)) && c.column <= b.column
            && Boundary(seg, c.lines[c.line], c.column)
            && (Boundary(seg, b.lines[b.line], b.column) ==> c == b)
  {
  }

  lemma {:induction false} UnbrokenEdit(line: string, from: nat, end: nat, text: string)
    requires from <= end <= |line| && Unbroken(line) && Unbroken(text)
    ensures Unbroken(line[..from] + text + line[end..])
  {
    forall c <- line[..from] + text + line[end..] ensures !LineBreak(c) { assert c in line || c in text; }
  }

  lemma {:induction false} InsertKeeps(seg: Segmenter, n: nat, b: Buffer, text: string)
    requires Inv(seg, n, b) && Unbroken(text)
    ensures Inv(seg, n, InsertText(seg, b, text)) && InsertText(seg, b, text).provenance == b.provenance
  {
    var line := b.lines[b.line];
    var line' := line[..b.column] + text + line[b.column..];
    assert line in b.lines;
    UnbrokenEdit(line, b.column, b.column, text);
    UpdateMembers(b.lines, b.line, line');
    ClampSettles(seg, b.(lines := b.lines[b.line := line'], column := b.column + |text|));
  }

  lemma {:induction false} BackspaceKeeps(seg: Segmenter, hunks: Hunks, n: nat, b: Buffer)
    requires Inv(seg, n, b)
    ensures Inv(seg, n, DeleteBackwards(seg, hunks, b))
    ensures Owned(hunks, b.provenance) ==> Owned(hunks, DeleteBackwards(seg, hunks, b).provenance)
  {
    if b.column > 0 {
      EraseKeeps(seg, hunks, n, b);
    } else if b.line > 0 && Single(hunks, MergedSources(b)) {
      JoinKeeps(seg, hunks, n, b);
    }
  }

  lemma {:induction false} EraseKeeps(seg: Segmenter, hunks: Hunks, n: nat, b: Buffer)
    requires Inv(seg, n, b) && b.column > 0
    ensures Inv(seg, n, DeleteBackwards(seg, hunks, b))
  {
    var line := b.lines[b.line];
    var previous := Previous(seg, line, b.column);
    PreviousIsNearest(seg, line, b.column);
    var line' := line[..previous] + line[b.column..];
    assert line in b.lines && line[..previous] + "" + line[b.column..] == line';
    UnbrokenEdit(line, previous, b.column, "");
    UpdateMembers(b.lines, b.line, line');
    ClampSettles(seg, b.(lines := b.lines[b.line := line'], column := previous));
  }

  /** A splice that lists the same document lines keeps everything about the rows. */
  lemma {:induction false} RowsSplice(hunks: Hunks, rows: seq<seq<int>>, at: nat, removed: nat, added: seq<seq<int>>)
    requires at + removed <= |rows| && Flatten(rows[at..at + removed]) == Flatten(added)
    requires Owned(hunks, rows) ==> Owned(hunks, added)
    ensures var rows' := Splice(rows, at, removed, added);
            Flatten(rows') == Flatten(rows) && (Owned(hunks, rows) ==> Owned(hunks, rows'))
  {
    FlattenSplice(rows, at, removed, added);
    SpliceMembers(rows, at, removed, added);
  }

  lemma {:induction false} LinesSplice(lines: seq<string>, at: nat, removed: nat, added: seq<string>)
    requires at + removed <= |lines|
    requires (forall line <- lines :: Unbroken(line)) && (forall line <- added :: Unbroken(line))
    ensures forall line <- Splice(lines, at, removed, added) :: Unbroken(line)
  {
  }

  /** Two lines made one: the merged row, before the caret is clamped. */
  function Joined(b: Buffer): Buffer
    requires InBounds(b) && b.line > 0
  {
    var at, previous := b.line - 1, b.lines[b.line - 1];
    Buffer(Splice(b.lines, at, 2, [previous + b.lines[b.line]]), Splice(b.provenance, at, 2, [MergedSources(b)]),
           at, |previous|)
  }

  /** One line made two, before the caret is clamped. */
  function Parted(b: Buffer): Buffer
    requires InBounds(b)
  {
    var line := b.lines[b.line];
    Buffer(Splice(b.lines, b.line, 1, [line[..b.column], line[b.column..]]),
           Splice(b.provenance, b.line, 1, [b.provenance[b.line], []]), b.line + 1, 0)
  }

  /** The buffer with the grapheme before the caret gone, before the caret is clamped. */
  function Erased(seg: Segmenter, b: Buffer): Buffer
    requires InBounds(b) && b.column > 0
  {
    PreviousIsNearest(seg, b.lines[b.line], b.column);
    var line, previous := b.lines[b.line], Previous(seg, b.lines[b.line], b.column);
    b.(lines := b.lines[b.line := line[..previous] + line[b.column..]], column := previous)
  }

  lemma {:induction false} EraseTaken(seg: Segmenter, hunks: Hunks, b: Buffer)
    requires InBounds(b) && b.column > 0
    ensures DeleteBackwards(seg, hunks, b) == ClampCursor(seg, Erased(seg, b))
  {
  }

  lemma {:induction false} JoinTaken(seg: Segmenter, hunks: Hunks, b: Buffer)
    requires InBounds(b) && b.column == 0 && b.line > 0 && Single(hunks, MergedSources(b))
    ensures DeleteBackwards(seg, hunks, b) == ClampCursor(seg, Joined(b))
    ensures DeleteBackwards(seg, hunks, b).lines == Joined(b).lines
  {
  }

  lemma {:induction false} JoinedRows(hunks: Hunks, b: Buffer)
    requires InBounds(b) && b.line > 0 && Single(hunks, MergedSources(b))
    ensures Flatten(Joined(b).provenance) == Flatten(b.provenance)
    ensures Owned(hunks, b.provenance) ==> Owned(hunks, Joined(b).provenance)
  {
    var at, merged := b.line - 1, MergedSources(b);
    FlattenPair(b.provenance[at], b.provenance[b.line]);
    FlattenOne(merged);
    assert b.provenance[at..at + 2] == [b.provenance[at], b.provenance[b.line]];
    RowsSplice(hunks, b.provenance, at, 2, [merged]);
  }

  lemma {:induction false} JoinedLines(b: Buffer)
    requires InBounds(b) && b.line > 0 && forall line <- b.lines :: Unbroken(line)
    ensures forall line <- Joined(b).lines :: Unbroken(line)
    ensures InBounds(Joined(b)) && Joined(b).lines[b.line - 1] == b.lines[b.line - 1] + b.lines[b.line]
  {
    var x, y := b.lines[b.line - 1], b.lines[b.line];
    assert x in b.lines && y in b.lines && Unbroken(x + y);
    LinesSplice(b.lines, b.line - 1, 2, [x + y]);
  }

  lemma {:induction false} JoinKeeps(seg: Segmenter, hunks: Hunks, n: nat, b: Buffer)
    requires Inv(seg, n, b) && b.column == 0 && b.line > 0 && Single(hunks, MergedSources(b))
    ensures Inv(seg, n, DeleteBackwards(seg, hunks, b))
    ensures Owned(hunks, b.provenance) ==> Owned(hunks, DeleteBackwards(seg, hunks, b).provenance)
  {
    JoinedRows(hunks, b);
    JoinedLines(b);
    ClampSettles(seg, Joined(b));
    assert DeleteBackwards(seg, hunks, b) == ClampCursor(seg, Joined(b));
  }

  lemma {:induction false} PartedRows(hunks: Hunks, b: Buffer)
    requires InBounds(b)
    ensures Flatten(Parted(b).provenance) == Flatten(b.provenance)
    ensures Owned(hunks, b.provenance) ==> Owned(hunks, Parted(b).provenance)
  {
    var sources := b.provenance[b.line];
    FlattenPair(sources, []);
    FlattenOne(sources);
    assert sources + [] == sources && b.provenance[b.line..b.line + 1] == [sources];
    assert sources in b.provenance && Owners(hunks, []) == {};
    RowsSplice(hunks, b.provenance, b.line, 1, [sources, []]);
  }

  lemma {:induction false} PartedLines(b: Buffer)
    requires InBounds(b) && forall line <- b.lines :: Unbroken(line)
    ensures forall line <- Parted(b).lines :: Unbroken(line)
    ensures InBounds(Parted(b)) && Parted(b).lines[b.line + 1] == b.lines[b.line][b.column..]
  {
    var line := b.lines[b.line];
    assert line in b.lines && Unbroken(line[..b.column]) && Unbroken(line[b.column..]);
    LinesSplice(b.lines, b.line, 1, [line[..b.column], line[b.column..]]);
  }

  lemma {:induction false} SplitKeeps(seg: Segmenter, hunks: Hunks, n: nat, b: Buffer)
    requires Inv(seg, n, b)
    ensures Inv(seg, n, SplitLine(seg, b)) && SplitLine(seg, b) == Parted(b)
    ensures Owned(hunks, b.provenance) ==> Owned(hunks, SplitLine(seg, b).provenance)
  {
    PartedRows(hunks, b);
    PartedLines(b);
    CaretsAreBoundaries(seg, b.lines[b.line][b.column..], 0);
    ClampSettles(seg, Parted(b));
    assert SplitLine(seg, b) == ClampCursor(seg, Parted(b));
  }

  lemma {:induction false} MoveKeeps(seg: Segmenter, n: nat, b: Buffer, towards: Direction)
    requires Inv(seg, n, b)
    ensures Inv(seg, n, MoveCursor(seg, b, towards)) && MoveCursor(seg, b, towards).provenance == b.provenance
  {
  }

  lemma {:induction false} MoveStaysInBounds(seg: Segmenter, b: Buffer, towards: Direction)
    requires InBounds(b)
    ensures var b' := MoveCursor(seg, b, towards);
            && b' == b.(line := b'.line, column := b'.column)
            && InBounds(b') && Boundary(seg, b.lines[b'.line], b'.column)
  {
  }

  lemma {:induction false} TypeKeeps(seg: Segmenter, n: nat, b: Buffer, key: Key)
    requires Inv(seg, n, b) && PrintableCharacter(seg, key).Some?
    ensures var after := InsertText(seg, b, PrintableCharacter(seg, key).value);
            Inv(seg, n, after) && after.provenance == b.provenance
  {
    assert WellSegmented(key.sequence, seg(key.sequence));
    OneGraphemeNoBreak(seg, key.sequence);
    InsertKeeps(seg, n, b, key.sequence);
  }

  /** A result that keeps the invariant, and keeps rows from belonging to two hunks. */
  ghost predicate Kept(seg: Segmenter, hunks: Hunks, n: nat, b: Buffer, after: Buffer) {
    Inv(seg, n, after) && (Owned(hunks, b.provenance) ==> Owned(hunks, after.provenance))
  }

  /** What a key does to the buffer, as one of the operations or nothing. */
  lemma {:induction false} KeyDoes(seg: Segmenter, hunks: Hunks, b: Buffer, key: Key, after: Buffer)
    requires InBounds(b) && after == OnKey(seg, hunks, b, key).0
    ensures || after == b
            || (exists towards :: after == MoveCursor(seg, b, towards))
            || after == DeleteBackwards(seg, hunks, b)
            || after == SplitLine(seg, b)
            || (PrintableCharacter(seg, key).Some? && after == InsertText(seg, b, PrintableCharacter(seg, key).value))
  {
    if key.name == "up" { assert after == b || after == MoveCursor(seg, b, Up); }
    else if key.name == "down" { assert after == b || after == MoveCursor(seg, b, Down); }
    else if key.name == "left" { assert after == b || after == MoveCursor(seg, b, Left); }
    else if key.name == "right" { assert after == b || after == MoveCursor(seg, b, Right); }
  }

  /** Every key keeps the invariant, and rows that belong to at most one hunk. */
  lemma {:induction false} KeyKeeps(seg: Segmenter, hunks: Hunks, n: nat, b: Buffer, key: Key)
    requires Inv(seg, n, b)
    ensures Kept(seg, hunks, n, b, OnKey(seg, hunks, b, key).0)
  {
    var after := OnKey(seg, hunks, b, key).0;
    KeyDoes(seg, hunks, b, key, after);
    if towards :| after == MoveCursor(seg, b, towards) {
      MoveKeeps(seg, n, b, towards);
    } else if after == DeleteBackwards(seg, hunks, b) {
      BackspaceKeeps(seg, hunks, n, b);
    } else if after == SplitLine(seg, b) {
      SplitKeeps(seg, hunks, n, b);
    } else if after != b {
      TypeKeeps(seg, n, b, key);
    }
  }

  /** No key ever takes the caret out of the buffer, whatever the hunks are. */
  lemma {:induction false} KeyStaysInBounds(seg: Segmenter, hunks: Hunks, b: Buffer, key: Key)
    requires InBounds(b)
    ensures InBounds(OnKey(seg, hunks, b, key).0)
  {
    var after := OnKey(seg, hunks, b, key).0;
    KeyDoes(seg, hunks, b, key, after);
    if towards :| after == MoveCursor(seg, b, towards) {
      MoveStaysInBounds(seg, b, towards);
    } else if after == DeleteBackwards(seg, hunks, b) {
      BackspaceStaysInBounds(seg, hunks, b);
    } else if after == SplitLine(seg, b) {
      SplitStaysInBounds(seg, b);
    } else if after != b {
      InsertStaysInBounds(seg, b, PrintableCharacter(seg, key).value);
    }
  }

  lemma {:induction false} InsertStaysInBounds(seg: Segmenter, b: Buffer, text: string)
    requires InBounds(b)
    ensures InBounds(InsertText(seg, b, text))
  {
  }

  lemma {:induction false} SplitStaysInBounds(seg: Segmenter, b: Buffer)
    requires InBounds(b)
    ensures InBounds(SplitLine(seg, b))
  {
    ClampSettles(seg, Parted(b));
  }

  lemma {:induction false} BackspaceStaysInBounds(seg: Segmenter, hunks: Hunks, b: Buffer)
    requires InBounds(b)
    ensures InBounds(DeleteBackwards(seg, hunks, b))
  {
  }

  // ---- Undoing a split, and walking back ----

  lemma {:induction false} SpliceBack<T>(items: seq<T>, at: nat, x: T, y: T, z: T)
    requires at < |items| && items[at] == z
    ensures Splice(Splice(items, at, 1, [x, y]), at, 2, [z]) == items
  {
  }

  /**
   * Splitting a line and pressing backspace restores the lines, the provenance and the caret, exactly when the
   * line does not already belong to two hunks (as in no session over a diff's hunks it does).
   */
  lemma {:induction false} SplitThenBackspace(seg: Segmenter, hunks: Hunks, n: nat, b: Buffer)
    requires Inv(seg, n, b)
    ensures InBounds(SplitLine(seg, b))
    ensures DeleteBackwards(seg, hunks, SplitLine(seg, b)) == b <==> Single(hunks, b.provenance[b.line])
  {
    SplitKeeps(seg, hunks, n, b);
    PartedThenJoined(b);
    ClampSettles(seg, b);
    var s := Parted(b);
    if Single(hunks, b.provenance[b.line]) {
      assert DeleteBackwards(seg, hunks, s) == ClampCursor(seg, Joined(s));
    }
  }

  lemma {:induction false} PartedThenJoined(b: Buffer)
    requires InBounds(b)
    ensures InBounds(Parted(b)) && Joined(Parted(b)) == b && MergedSources(Parted(b)) == b.provenance[b.line]
  {
    var line, sources := b.lines[b.line], b.provenance[b.line];
    var head, tail := line[..b.column], line[b.column..];
    var s := Parted(b);
    assert s.lines[s.line] == tail && s.lines[s.line - 1] == head && head + tail == line;
    assert s.provenance[s.line] == [] && s.provenance[s.line - 1] == sources && sources + [] == sources;
    SpliceBack(b.lines, b.line, head, tail, line);
    SpliceBack(b.provenance, b.line, sources, [], sources);
  }

  lemma {:induction false} OverLeft(seg: Segmenter, b: Buffer)
    requires InBounds(b) && b.column == 0 && b.line > 0
    ensures MoveCursor(seg, b, Left) == b.(line := b.line - 1, column := |b.lines[b.line - 1]|)
  {
    ClampSettles(seg, Leftwards(seg, b));
  }

  lemma {:induction false} OverRight(seg: Segmenter, b: Buffer)
    requires InBounds(b) && b.column == |b.lines[b.line]| && b.line < |b.lines| - 1
    ensures MoveCursor(seg, b, Right) == b.(line := b.line + 1, column := 0)
  {
    CaretsAreBoundaries(seg, b.lines[b.line + 1], 0);
    ClampSettles(seg, Rightwards(seg, b));
  }

  /** Away from the end of the document, a step right and a step left cancel. */
  lemma {:induction false} RightThenLeft(seg: Segmenter, b: Buffer)
    requires InBounds(b) && Boundary(seg, b.lines[b.line], b.column)
    requires b.line < |b.lines| - 1 || b.column < |b.lines[b.line]|
    ensures MoveCursor(seg, MoveCursor(seg, b, Right), Left) == b
  {
    var line := b.lines[b.line];
    if b.column < |line| {
      var next := Following(seg, line, b.column);
      FollowingIsNearest(seg, line, b.column);
      CaretsAreBoundaries(seg, line, b.column);
      StepRight(seg, b, next);
      StepLeft(seg, b.(column := next), b.column);
    } else {
      OverRight(seg, b);
      OverLeft(seg, b.(line := b.line + 1, column := 0));
    }
  }

  /** Away from the start of the document, a step left and a step right cancel. */
  lemma {:induction false} LeftThenRight(seg: Segmenter, b: Buffer)
    requires InBounds(b) && Boundary(seg, b.lines[b.line], b.column)
    requires b.line > 0 || b.column > 0
    ensures MoveCursor(seg, MoveCursor(seg, b, Left), Right) == b
  {
    if b.column > 0 {
      StepBack(seg, b);
    } else {
      OverLeft(seg, b);
      OverRight(seg, b.(line := b.line - 1, column := |b.lines[b.line - 1]|));
    }
  }

  /** Down to a line with enough graphemes and up again returns; on the way the caret keeps its grapheme column. */
  lemma {:induction false} DownThenUp(seg: Segmenter, b: Buffer)
    requires InBounds(b) && Boundary(seg, b.lines[b.line], b.column) && b.line < |b.lines| - 1
    requires Column(seg, b.lines[b.line], b.column) <= |seg(b.lines[b.line + 1])|
    ensures var d := MoveCursor(seg, b, Down);
            && InBounds(d) && d.line == b.line + 1
            && Column(seg, d.lines[d.line], d.column) == Column(seg, b.lines[b.line], b.column)
            && MoveCursor(seg, d, Up) == b
  {
    var line, next := b.lines[b.line], b.lines[b.line + 1];
    var column := Column(seg, line, b.column);
    MoveStaysInBounds(seg, b, Down);
    ColumnOfStart(seg, next, column);
    ColumnRoundTrip(seg, line, b.column);
  }

  lemma {:induction false} StepLeft(seg: Segmenter, b: Buffer, previous: nat)
    requires InBounds(b) && Boundary(seg, b.lines[b.line], b.column) && b.column > 0
    requires previous == Previous(seg, b.lines[b.line], b.column)
    ensures previous < b.column && Boundary(seg, b.lines[b.line], previous)
    ensures MoveCursor(seg, b, Left) == b.(column := previous)
  {
    PreviousIsNearest(seg, b.lines[b.line], b.column);
    CaretsAreBoundaries(seg, b.lines[b.line], b.column);
    ClampSettles(seg, b.(column := previous));
  }

  lemma {:induction false} StepRight(seg: Segmenter, b: Buffer, next: nat)
    requires InBounds(b) && b.column < |b.lines[b.line]| && next == Following(seg, b.lines[b.line], b.column)
    requires next <= |b.lines[b.line]| && Boundary(seg, b.lines[b.line], next)
    ensures MoveCursor(seg, b, Right) == b.(column := next)
  {
    ClampSettles(seg, b.(column := next));
  }

  lemma {:induction false} StepBack(seg: Segmenter, b: Buffer)
    requires InBounds(b) && Boundary(seg, b.lines[b.line], b.column) && b.column > 0
    ensures MoveCursor(seg, MoveCursor(seg, b, Left), Right) == b
  {
    var previous := Previous(seg, b.lines[b.line], b.column);
    PreviousThenFollowing(seg, b.lines[b.line], b.column);
    StepLeft(seg, b, previous);
    StepRight(seg, b.(column := previous), b.column);
  }
}
