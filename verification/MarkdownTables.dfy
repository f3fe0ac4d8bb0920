/** Formatting the Markdown tables of a document in place, stably. */
module MarkdownTables {
  import opened Text

  type Row = seq<string>

  /** `line.slice(1, -1)`: everything between the first and the last character. */
  function Inside(line: string): string { if |line| <= 2 then "" else line[1..|line| - 1] }

  /** `text.split(/(?<!\\)\|/)`: cut at each bar not preceded by a backslash; `escaped` says one came just before. */
  function SplitBars(text: string, escaped: bool): (cells: seq<string>)
    ensures |cells| >= 1
  {
    if text == "" then [""]
    else if text[0] == '|' && !escaped then [""] + SplitBars(text[1..], false)
    else
      var rest := SplitBars(text[1..], text[0] == '\\');
      [[text[0]] + rest[0]] + rest[1..]
  }

  function TrimAll(cells: seq<string>): Row {
    if cells == [] then [] else [Trim(cells[0])] + TrimAll(cells[1..])
  }

  function Cells(line: string): Row { TrimAll(SplitBars(Inside(line), false)) }

  function CellRows(lines: seq<string>): seq<Row> {
    if lines == [] then [] else [Cells(lines[0])] + CellRows(lines[1..])
  }

  /** `^:?-+:?$` */
  predicate SeparatorCell(cell: string) {
    var left := if StartsWith(cell, ":") then cell[1..] else cell;
    var dashes := if EndsWith(left, ":") then left[..|left| - 1] else left;
    dashes != "" && forall c <- dashes :: c == '-'
  }

  predicate Separator(row: Row) { forall cell <- row :: SeparatorCell(cell) }

  function Max(a: nat, b: nat): nat { if a > b then a else b }

  /** `row[column]?.length ?? 0` */
  function CellLength(row: Row, column: nat): nat { if column < |row| then |row[column]| else 0 }

  /** The widest cell of a column over the rows that are not separators, and at least 3. */
  function Width(rows: seq<Row>, column: nat): nat {
    if rows == [] then 3
    else if Separator(rows[0]) then Width(rows[1..], column)
    else Max(CellLength(rows[0], column), Width(rows[1..], column))
  }

  function Widths(rows: seq<Row>): seq<nat>
    requires rows != []
  {
    seq(|rows[0]|, (column: nat) => Width(rows, column))
  }

  function Repeat(c: char, n: nat): string { seq(n, _ => c) }

  /** `cell.padEnd(width)` */
  function PadEnd(cell: string, width: nat): string {
    if |cell| < width then cell + Repeat(' ', width - |cell|) else cell
  }

  /** One row's cells as written: dashes for a separator, padded cells otherwise. */
  function Written(row: Row, widths: seq<nat>, separator: bool): (cells: Row)
    requires |row| == |widths|
    ensures |cells| == |row|
    ensures forall i | 0 <= i < |row| :: cells[i] == if separator then Repeat('-', widths[i]) else PadEnd(row[i], widths[i])
  {
    if row == [] then []
    else [if separator then Repeat('-', widths[0]) else PadEnd(row[0], widths[0])] + Written(row[1..], widths[1..], separator)
  }

  function FormatRow(row: Row, widths: seq<nat>): string
    requires |row| == |widths|
  {
    "| " + Join(Written(row, widths, Separator(row)), " | ") + " |"
  }

  function FormatRows(rows: seq<Row>, widths: seq<nat>): (lines: seq<string>)
    requires forall i | 0 <= i < |rows| :: |rows[i]| == |widths|
    ensures |lines| == |rows|
    ensures forall i | 0 <= i < |rows| :: lines[i] == FormatRow(rows[i], widths)
  {
    if rows == [] then [] else [FormatRow(rows[0], widths)] + FormatRows(rows[1..], widths)
  }

  /** A table is rewritten when all its rows have as many cells as its first. */
  predicate Even(rows: seq<Row>) {
    forall i | 0 <= i < |rows| :: |rows[i]| == |rows[0]|
  }

  /** One run of lines that start with a bar. */
  function FormatTable(table: seq<string>): (lines: seq<string>)
    requires table != []
  {
    var rows := CellRows(table);
    CellRowsAt(table);
    if Even(rows) then FormatRows(rows, Widths(rows)) else table
  }

  /** How many lines at the front start with a bar. */
  function RunLength(lines: seq<string>): (n: nat)
    ensures n <= |lines|
    ensures forall i | 0 <= i < n :: StartsWith(lines[i], "|")
    ensures n < |lines| ==> !StartsWith(lines[n], "|")
  {
    if lines == [] || !StartsWith(lines[0], "|") then 0 else 1 + RunLength(lines[1..])
  }

  function FormatLines(lines: seq<string>): seq<string>
    decreases |lines|
  {
    if lines == [] then []
    else if !StartsWith(lines[0], "|") then [lines[0]] + FormatLines(lines[1..])
    else
      var n := RunLength(lines);
      FormatTable(lines[..n]) + FormatLines(lines[n..])
  }

  function FormatMarkdown(markdown: string): string { Join(FormatLines(Split(markdown, '\n')), "\n") }

  // ---- The loop, in place ----

  lemma {:induction false} CellRowsAt(lines: seq<string>)
    ensures |CellRows(lines)| == |lines|
    ensures forall i | 0 <= i < |lines| :: CellRows(lines)[i] == Cells(lines[i])
  {
    if lines == [] {
    } else {
      CellRowsAt(lines[1..]);
    }
  }

  lemma {:induction false} RunIs(lines: seq<string>, n: nat)
    requires n <= |lines| && forall i | 0 <= i < n :: StartsWith(lines[i], "|")
    requires n < |lines| ==> !StartsWith(lines[n], "|")
    ensures RunLength(lines) == n
  {
  }

  /** The lines before `start` are formatted, and formatting the others gives what is wanted of the document. */
  ghost predicate Ahead(lines: seq<string>, start: nat, wanted: seq<string>) {
    start <= |lines| && wanted == lines[..start] + FormatLines(lines[start..])
  }

  /** Passing a line that is not part of a table. */
  lemma {:induction false} SkipLine(lines: seq<string>, start: nat, wanted: seq<string>)
    requires start < |lines| && !StartsWith(lines[start], "|") && Ahead(lines, start, wanted)
    ensures Ahead(lines, start + 1, wanted)
  {
    var rest := FormatLines(lines[start + 1..]);
    assert lines[start..][1..] == lines[start + 1..];
    assert FormatLines(lines[start..]) == [lines[start]] + rest;
    assert lines[..start] + ([lines[start]] + rest) == lines[..start + 1] + rest;
  }

  /** Formatting lines that start with a run. */
  lemma {:induction false} RunFormats(lines: seq<string>, n: nat, table: seq<string>, after: seq<string>)
    requires 0 < n <= |lines| && (forall i | 0 <= i < n :: StartsWith(lines[i], "|"))
    requires n < |lines| ==> !StartsWith(lines[n], "|")
    requires table == lines[..n] && after == lines[n..]
    ensures FormatLines(lines) == FormatTable(table) + FormatLines(after) && |FormatTable(table)| == n
  {
    RunIs(lines, n);
    TableLength(table);
  }

  /** The same for a run in the middle. */
  lemma {:induction false} RunAhead(lines: seq<string>, start: nat, end: nat, tail: seq<string>)
    requires start < end <= |lines| && forall i | start <= i < end :: StartsWith(lines[i], "|")
    requires end < |lines| ==> !StartsWith(lines[end], "|")
    requires tail == lines[start..]
    ensures FormatLines(tail) == FormatTable(lines[start..end]) + FormatLines(lines[end..])
    ensures |FormatTable(lines[start..end])| == end - start
  {
    SliceOfTail(lines, start, end, tail);
    RunFormats(tail, end - start, lines[start..end], lines[end..]);
  }

  lemma {:induction false} SliceOfTail(lines: seq<string>, start: nat, end: nat, tail: seq<string>)
    requires start <= end <= |lines| && tail == lines[start..]
    ensures tail[..end - start] == lines[start..end] && tail[end - start..] == lines[end..]
    ensures forall i | 0 <= i < |tail| :: tail[i] == lines[start + i]
  {
  }

  /** Splicing the formatted rows over a run. */
  lemma {:induction false} SpliceRun(
      lines: seq<string>, start: nat, end: nat, formatted: seq<string>, after: seq<string>, wanted: seq<string>)
    requires start < end <= |lines| && forall i | start <= i < end :: StartsWith(lines[i], "|")
    requires end < |lines| ==> !StartsWith(lines[end], "|")
    requires formatted == FormatTable(lines[start..end]) && after == lines[..start] + formatted + lines[end..]
    requires Ahead(lines, start, wanted)
    ensures |after| == |lines| && Ahead(after, end, wanted)
  {
    RunAhead(lines, start, end, lines[start..]);
    Spliced(lines, start, end, formatted, after, FormatLines(lines[end..]));
  }

  lemma {:induction false} Spliced<T>(
      lines: seq<T>, start: nat, end: nat, formatted: seq<T>, after: seq<T>, rest: seq<T>)
    requires start < end <= |lines| && |formatted| == end - start
    requires after == lines[..start] + formatted + lines[end..]
    ensures |after| == |lines| && after[end..] == lines[end..]
    ensures lines[..start] + (formatted + rest) == after[..end] + rest
  {
  }

  lemma {:induction false} NothingDone(lines: seq<string>, wanted: seq<string>)
    requires wanted == FormatLines(lines)
    ensures Ahead(lines, 0, wanted)
  {
    assert lines[0..] == lines && lines[..0] + wanted == wanted;
  }

  lemma {:induction false} AllDone(lines: seq<string>, wanted: seq<string>)
    requires Ahead(lines, |lines|, wanted)
    ensures wanted == lines
  {
    assert lines[|lines|..] == [] && lines[..|lines|] + [] == lines;
  }

  /** `formatMarkdownTables` as written: walk to each run of bar lines and splice its formatted rows over it. */
  method FormatMarkdownTables(markdown: string) returns (text: string)
    ensures text == FormatMarkdown(markdown)
  {
    var lines := Split(markdown, '\n');
    ghost var wanted := FormatLines(lines);
    NothingDone(lines, wanted);
    var start := 0;
    while start < |lines|
      invariant Ahead(lines, start, wanted)
      decreases |lines| - start
    {
      if !StartsWith(lines[start], "|") {
        SkipLine(lines, start, wanted);
        start := start + 1;
        continue;
      }
      var end := start;
      while end < |lines| && StartsWith(lines[end], "|")
        invariant start <= end <= |lines|
        invariant forall i | start <= i < end :: StartsWith(lines[i], "|")
      {
        end := end + 1;
      }
      var formatted := FormatTable(lines[start..end]);
      var spliced := lines[..start] + formatted + lines[end..];
      SpliceRun(lines, start, end, formatted, spliced, wanted);
      lines := spliced;
      start := end;
    }
    AllDone(lines, wanted);
    text := Join(lines, "\n");
  }

  lemma {:induction false} TableLength(table: seq<string>)
    requires table != []
    ensures |FormatTable(table)| == |table|
  {
    CellRowsAt(table);
  }

  // ---- Reading a written row back ----

  /** A text that `SplitBars` leaves whole. */
  predicate Unbarred(text: string, escaped: bool) { SplitBars(text, escaped) == [text] }

  /** Whether a bar right after the text would be escaped. */
  function EscapedAfter(text: string, escaped: bool): bool {
    if text == "" then escaped else text[|text| - 1] == '\\'
  }

  lemma {:induction false} UnbarredTail(text: string, escaped: bool)
    requires text != "" && Unbarred(text, escaped)
    ensures Unbarred(text[1..], text[0] == '\\') && !(text[0] == '|' && !escaped)
  {
    assert |SplitBars(text, escaped)| == 1 && |SplitBars(text[1..], false)| >= 1;
    var rest := SplitBars(text[1..], text[0] == '\\');
    assert SplitBars(text, escaped)[0] == [text[0]] + rest[0];
    assert rest[0] == text[1..] by { assert ([text[0]] + rest[0])[1..] == rest[0]; }
    assert rest == [rest[0]];
  }

  lemma {:induction false} EscapedTail(text: string, escaped: bool)
    requires text != ""
    ensures EscapedAfter(text[1..], text[0] == '\\') == EscapedAfter(text, escaped)
  {
  }

  lemma {:induction false} GrowFirst(text: string, tail: string, escaped: bool, pieces: seq<string>)
    requires text != "" && !(text[0] == '|' && !escaped) && tail == text[1..]
    requires pieces == SplitBars(tail, text[0] == '\\')
    ensures SplitBars(text, escaped) == [[text[0]] + pieces[0]] + pieces[1..]
  {
  }

  lemma {:induction false} GrowJoined(c: char, tail: string, b: string, escaped: bool, rest: seq<string>)
    requires !(c == '|' && !escaped) && rest != []
    requires SplitBars(tail + b, c == '\\') == [tail + rest[0]] + rest[1..]
    ensures SplitBars([c] + tail + b, escaped) == [[c] + tail + rest[0]] + rest[1..]
  {
    var text := [c] + tail + b;
    assert text[1..] == tail + b;
    GrowFirst(text, tail + b, escaped, [tail + rest[0]] + rest[1..]);
    assert [c] + (tail + rest[0]) == [c] + tail + rest[0];
  }

  lemma {:induction false} UnbarredJoin(a: string, b: string, escaped: bool, rest: seq<string>)
    requires Unbarred(a, escaped) && rest == SplitBars(b, EscapedAfter(a, escaped))
    ensures SplitBars(a + b, escaped) == [a + rest[0]] + rest[1..]
  {
    if a == "" {
      assert a + b == b && a + rest[0] == rest[0];
    } else {
      var c, tail := a[0], a[1..];
      UnbarredTail(a, escaped);
      EscapedTail(a, escaped);
      UnbarredJoin(tail, b, c == '\\', rest);
      GrowJoined(c, tail, b, escaped, rest);
      assert a == [c] + tail;
    }
  }

  /** Every piece of a split is whole on its own. */
  lemma {:induction false} PiecesUnbarred(text: string, escaped: bool)
    ensures var pieces := SplitBars(text, escaped);
            Unbarred(pieces[0], escaped) && forall i | 1 <= i < |pieces| :: Unbarred(pieces[i], false)
  {
    if text == "" {
    } else {
      var rest := SplitBars(text[1..], text[0] == '\\');
      if text[0] == '|' && !escaped {
        PiecesUnbarred(text[1..], false);
      } else {
        PiecesUnbarred(text[1..], text[0] == '\\');
        assert ([text[0]] + rest[0])[1..] == rest[0];
      }
    }
  }

  lemma {:induction false} UnbarredPrefix(text: string, n: nat, escaped: bool)
    requires n <= |text| && Unbarred(text, escaped)
    ensures Unbarred(text[..n], escaped)
  {
    if n == 0 {
    } else {
      UnbarredTail(text, escaped);
      UnbarredPrefix(text[1..], n - 1, text[0] == '\\');
      assert text[..n][1..] == text[1..][..n - 1];
      assert [text[0]] + text[..n][1..] == text[..n];
    }
  }

  lemma {:induction false} UnbarredTrimStart(text: string)
    requires Unbarred(text, false)
    ensures Unbarred(TrimStart(text), false)
  {
    if text != "" && Blank(text[0]) {
      UnbarredTail(text, false);
      UnbarredTrimStart(text[1..]);
    }
  }

  lemma {:induction false} UnbarredTrim(text: string)
    requires Unbarred(text, false)
    ensures Unbarred(Trim(text), false)
  {
    UnbarredTrimStart(text);
    var start := TrimStart(text);
    UnbarredPrefix(start, |TrimEnd(start)|, false);
    assert start[..|TrimEnd(start)|] == TrimEnd(start);
  }

  /** A cell as reading gives it: trimmed, with every bar escaped. */
  predicate Clean(cell: string) { Trim(cell) == cell && Unbarred(cell, false) }

  lemma {:induction false} TrimEndStays(text: string)
    requires text == "" || !Blank(text[|text| - 1])
    ensures TrimEnd(text) == text
  {
  }

  lemma {:induction false} TrimStartFirst(text: string)
    ensures TrimStart(text) == text || (TrimStart(text) == "" || !Blank(TrimStart(text)[0]))
    ensures text != "" && !Blank(text[0]) ==> TrimStart(text) == text
  {
  }

  lemma {:induction false} TrimTwice(text: string)
    ensures Trim(Trim(text)) == Trim(text)
  {
  }

  lemma {:induction false} TrimAllAt(cells: seq<string>)
    ensures |TrimAll(cells)| == |cells| && forall i | 0 <= i < |cells| :: TrimAll(cells)[i] == Trim(cells[i])
  {
    if cells == [] {
    } else {
      TrimAllAt(cells[1..]);
    }
  }

  lemma {:induction false} CellsAreClean(line: string)
    ensures |Cells(line)| >= 1 && forall i | 0 <= i < |Cells(line)| :: Clean(Cells(line)[i])
  {
    var pieces := SplitBars(Inside(line), false);
    PiecesUnbarred(Inside(line), false);
    TrimAllAt(pieces);
    forall i | 0 <= i < |pieces| ensures Clean(Cells(line)[i]) {
      UnbarredTrim(pieces[i]);
      TrimTwice(pieces[i]);
    }
  }

  lemma {:induction false} TrimEndBlanks(text: string, n: nat)
    requires text == "" || !Blank(text[|text| - 1])
    ensures TrimEnd(text + Repeat(' ', n)) == text
    decreases n
  {
    var all := text + Repeat(' ', n);
    if n == 0 {
      assert all == text;
      TrimEndStays(text);
    } else {
      assert all[..|all| - 1] == text + Repeat(' ', n - 1);
      TrimEndBlanks(text, n - 1);
    }
  }

  lemma {:induction false} TrimStartBlanks(n: nat)
    ensures TrimStart(Repeat(' ', n)) == ""
  {
    if n == 0 {
    } else {
      assert Repeat(' ', n)[1..] == Repeat(' ', n - 1);
      TrimStartBlanks(n - 1);
    }
  }

  /** A trimmed cell survives a space before it and any padding after it. */
  lemma {:induction false} TrimPadded(cell: string, n: nat)
    requires Trim(cell) == cell
    ensures Trim(" " + cell + Repeat(' ', n)) == cell
  {
    var padded := cell + Repeat(' ', n);
    assert (" " + cell + Repeat(' ', n))[1..] == padded;
    if cell == "" {
      assert padded == Repeat(' ', n);
      TrimStartBlanks(n);
    } else {
      TrimmedEnds(cell);
      TrimStartFirst(padded);
      TrimEndBlanks(cell, n);
    }
  }

  lemma {:induction false} TrimmedEnds(cell: string)
    requires Trim(cell) == cell && cell != ""
    ensures !Blank(cell[0]) && !Blank(cell[|cell| - 1])
  {
  }

  /** One cell between spaces and a bar, before the rest of the row. */
  lemma {:induction false} WrittenFirst(cell: string, rest: string, pieces: seq<string>, all: string)
    requires Unbarred(cell, false) && pieces == SplitBars(rest, false) && all == " " + cell + " |" + rest
    ensures SplitBars(all, false) == [" " + cell + " "] + pieces
  {
    var left, bar := " " + cell + " ", "|" + rest;
    UnbarredSpaces(cell);
    assert all == left + bar && bar[1..] == rest && left + "" == left;
    assert SplitBars(bar, EscapedAfter(left, false)) == [""] + pieces;
    UnbarredJoin(left, bar, false, [""] + pieces);
  }

  /** A written row between its outer bars: a space, the cells joined by spaced bars, a space. */
  lemma {:induction false} WrittenSplits(cells: Row, text: string)
    requires cells != [] && (forall i | 0 <= i < |cells| :: Unbarred(cells[i], false))
    requires text == " " + Join(cells, " | ") + " "
    ensures SplitBars(text, false) == Spaced(cells)
    decreases |cells|
  {
    var cell, others := cells[0], cells[1..];
    if others == [] {
      UnbarredSpaces(cell);
      assert text == " " + cell + " " && Spaced(others) == [];
    } else {
      var rest := " " + Join(others, " | ") + " ";
      WrittenSplits(others, rest);
      assert text == " " + cell + " |" + rest;
      WrittenFirst(cell, rest, Spaced(others), text);
    }
  }

  function Spaced(cells: Row): Row {
    if cells == [] then [] else [" " + cells[0] + " "] + Spaced(cells[1..])
  }

  lemma {:induction false} UnbarredSpaces(cell: string)
    requires Unbarred(cell, false)
    ensures Unbarred(" " + cell + " ", false)
  {
    UnbarredJoin(cell, " ", false, SplitBars(" ", EscapedAfter(cell, false)));
    PlainUnbarred(" ", EscapedAfter(cell, false));
    assert SplitBars(cell + " ", false) == [cell + " "];
    assert (" " + cell + " ")[1..] == cell + " ";
    assert " " + (cell + " ") == " " + cell + " ";
  }

  lemma {:induction false} SpacedAt(cells: Row)
    ensures |Spaced(cells)| == |cells| && forall i | 0 <= i < |cells| :: Spaced(cells)[i] == " " + cells[i] + " "
  {
    if cells == [] {
    } else {
      SpacedAt(cells[1..]);
    }
  }

  /** Reading a written row gives the written cells, trimmed. */
  lemma {:induction false} WrittenReads(cells: Row)
    requires cells != [] && forall i | 0 <= i < |cells| :: Unbarred(cells[i], false)
    ensures var line := "| " + Join(cells, " | ") + " |";
            |Cells(line)| == |cells| && forall i | 0 <= i < |cells| :: Cells(line)[i] == Trim(" " + cells[i] + " ")
  {
    var line := "| " + Join(cells, " | ") + " |";
    assert Inside(line) == " " + Join(cells, " | ") + " ";
    WrittenSplits(cells, Inside(line));
    SpacedAt(cells);
    TrimAllAt(Spaced(cells));
  }

  lemma {:induction false} PlainUnbarred(text: string, escaped: bool)
    requires forall c <- text :: c != '|'
    ensures Unbarred(text, escaped)
  {
    if text == "" {
    } else {
      assert text[0] in text && forall c <- text[1..] :: c in text;
      PlainUnbarred(text[1..], text[0] == '\\');
      assert [text[0]] + text[1..] == text;
    }
  }

  lemma {:induction false} PadUnbarred(cell: string, width: nat)
    requires Unbarred(cell, false)
    ensures Unbarred(PadEnd(cell, width), false)
  {
    if |cell| < width {
      var pad := Repeat(' ', width - |cell|);
      PlainUnbarred(pad, EscapedAfter(cell, false));
      UnbarredJoin(cell, pad, false, SplitBars(pad, EscapedAfter(cell, false)));
    }
  }

  /** A padded cell reads back as the cell. */
  lemma {:induction false} PaddedReads(cell: string, width: nat)
    requires Clean(cell)
    ensures Trim(" " + PadEnd(cell, width) + " ") == cell
  {
    var n := if |cell| < width then width - |cell| else 0;
    assert " " + PadEnd(cell, width) + " " == " " + cell + Repeat(' ', n + 1);
    TrimPadded(cell, n + 1);
  }

  lemma {:induction false} DashesRead(width: nat)
    requires width > 0
    ensures Unbarred(Repeat('-', width), false) && Trim(" " + Repeat('-', width) + " ") == Repeat('-', width)
    ensures SeparatorCell(Repeat('-', width))
  {
    var dashes := Repeat('-', width);
    PlainUnbarred(dashes, false);
    TrimStartFirst(dashes);
    TrimEndStays(dashes);
    assert " " + dashes + " " == " " + dashes + Repeat(' ', 1);
    TrimPadded(dashes, 1);
  }

  /** What a formatted row reads back as: its own cells, or dashes for a separator. */
  lemma {:induction false} FormattedReads(row: Row, widths: seq<nat>)
    requires row != [] && |row| == |widths| && (forall i | 0 <= i < |row| :: Clean(row[i]) && widths[i] >= 3)
    ensures var cells := Cells(FormatRow(row, widths));
            && |cells| == |row|
            && forall i | 0 <= i < |row| :: cells[i] == if Separator(row) then Repeat('-', widths[i]) else row[i]
  {
    var written := Written(row, widths, Separator(row));
    forall i | 0 <= i < |row|
      ensures Unbarred(written[i], false)
      ensures Trim(" " + written[i] + " ") == if Separator(row) then Repeat('-', widths[i]) else row[i]
    {
      DashesRead(widths[i]);
      PadUnbarred(row[i], widths[i]);
      PaddedReads(row[i], widths[i]);
    }
    WrittenReads(written);
  }

  // ---- Widths, lengths, idempotence ----

  lemma {:induction false} WidthBounds(rows: seq<Row>, column: nat)
    ensures Width(rows, column) >= 3
    ensures forall i | 0 <= i < |rows| && !Separator(rows[i]) :: CellLength(rows[i], column) <= Width(rows, column)
  {
    if rows == [] {
    } else {
      WidthBounds(rows[1..], column);
    }
  }

  lemma {:induction false} WidthDepends(rows: seq<Row>, rows': seq<Row>, column: nat)
    requires |rows| == |rows'|
    requires forall i | 0 <= i < |rows| :: Separator(rows'[i]) == Separator(rows[i])
    requires forall i | 0 <= i < |rows| && !Separator(rows[i]) :: rows'[i] == rows[i]
    ensures Width(rows', column) == Width(rows, column)
  {
    if rows == [] {
    } else {
      WidthDepends(rows[1..], rows'[1..], column);
    }
  }

  /** The length of a row written at these widths. */
  function Extent(widths: seq<nat>): nat {
    if widths == [] then 0 else if |widths| == 1 then widths[0] else widths[0] + 3 + Extent(widths[1..])
  }

  lemma {:induction false} JoinedLength(cells: Row, widths: seq<nat>)
    requires |cells| == |widths| && forall i | 0 <= i < |cells| :: |cells[i]| == widths[i]
    ensures |Join(cells, " | ")| == Extent(widths)
  {
    if |cells| > 1 { JoinedLength(cells[1..], widths[1..]); }
  }

  /** A table as formatting sees it: its rows, evenly many cells each, and the widths it writes them at. */
  ghost predicate Rewritten(table: seq<string>, rows: seq<Row>, widths: seq<nat>) {
    && table != [] && rows == CellRows(table) && |rows| == |table| && Even(rows) && widths == Widths(rows)
    && (forall i | 0 <= i < |rows| :: rows[i] != [] && |rows[i]| == |widths|)
    && (forall i, j | 0 <= i < |rows| && 0 <= j < |widths| :: Clean(rows[i][j]) && widths[j] >= 3)
    && (forall i, j | 0 <= i < |rows| && 0 <= j < |widths| && !Separator(rows[i]) :: |rows[i][j]| <= widths[j])
  }

  lemma {:induction false} TableShape(table: seq<string>) returns (rows: seq<Row>, widths: seq<nat>)
    requires table != [] && Even(CellRows(table))
    ensures Rewritten(table, rows, widths) && FormatTable(table) == FormatRows(rows, widths)
  {
    CellRowsAt(table);
    rows, widths := CellRows(table), Widths(CellRows(table));
    forall i | 0 <= i < |rows| ensures rows[i] != [] && forall j | 0 <= j < |rows[i]| :: Clean(rows[i][j]) {
      CellsAreClean(table[i]);
    }
    forall j | 0 <= j < |widths|
      ensures widths[j] >= 3 && forall i | 0 <= i < |rows| && !Separator(rows[i]) :: |rows[i][j]| <= widths[j]
    {
      WidthBounds(rows, j);
      forall i | 0 <= i < |rows| && !Separator(rows[i]) ensures |rows[i][j]| <= widths[j] {
        assert CellLength(rows[i], j) == |rows[i][j]|;
      }
    }
  }

  /** All rows of a rewritten table have the same length. */
  lemma {:induction false} RowsAreEven(table: seq<string>, i: nat, j: nat)
    requires table != [] && Even(CellRows(table)) && i < |table| && j < |table|
    ensures |FormatTable(table)| == |table| && |FormatTable(table)[i]| == |FormatTable(table)[j]|
  {
    var rows, widths := TableShape(table);
    RowLength(rows[i], widths);
    RowLength(rows[j], widths);
  }

  lemma {:induction false} RowLength(row: Row, widths: seq<nat>)
    requires |row| == |widths| && (!Separator(row) ==> forall j | 0 <= j < |row| :: |row[j]| <= widths[j])
    ensures |FormatRow(row, widths)| == Extent(widths) + 4
  {
    JoinedLength(Written(row, widths, Separator(row)), widths);
  }

  /** One row of a rewritten table: its cells, and the widths they are written at. */
  lemma {:induction false} RowShape(table: seq<string>, i: nat) returns (row: Row, widths: seq<nat>)
    requires table != [] && Even(CellRows(table)) && i < |table|
    ensures row == Cells(table[i]) && row != [] && |row| == |widths|
    ensures |CellRows(table)| == |table| && widths == Widths(CellRows(table))
    ensures forall j | 0 <= j < |row| :: Clean(row[j]) && widths[j] >= 3
    ensures |FormatTable(table)| == |table| && FormatTable(table)[i] == FormatRow(row, widths)
  {
    var rows, all := TableShape(table);
    CellRowsAt(table);
    row, widths := rows[i], all;
  }

  /** Each cell is dashes of its column's width. */
  predicate Dashes(row: Row, widths: seq<nat>) {
    |row| == |widths| && forall j | 0 <= j < |row| :: row[j] == Repeat('-', widths[j])
  }

  /**
   * A rewritten table keeps every cell of its non-separator rows, and its separators stay separators; a separator
   * keeps its own cells, alignment colons too, exactly when they are already dashes of the columns' widths.
   */
  lemma {:induction false} CellsSurvive(table: seq<string>, i: nat)
    requires table != [] && Even(CellRows(table)) && i < |table|
    ensures |FormatTable(table)| == |table| == |CellRows(table)|
    ensures var after, before := Cells(FormatTable(table)[i]), Cells(table[i]);
            && |after| == |before| && Separator(after) == Separator(before)
            && (if Separator(before) then
                  Dashes(after, Widths(CellRows(table))) && (after == before <==> Dashes(before, Widths(CellRows(table))))
                else after == before)
  {
    var row, widths := RowShape(table, i);
    RowSurvives(row, widths, Cells(FormatRow(row, widths)));
  }

  lemma {:induction false} RowSurvives(row: Row, widths: seq<nat>, after: Row)
    requires row != [] && |row| == |widths| && (forall i | 0 <= i < |row| :: Clean(row[i]) && widths[i] >= 3)
    requires after == Cells(FormatRow(row, widths))
    ensures |after| == |row| && Separator(after) == Separator(row)
    ensures !Separator(row) ==> after == row
    ensures Separator(row) ==> Dashes(after, widths)
  {
    FormattedReads(row, widths);
    if Separator(row) {
      forall cell <- after ensures SeparatorCell(cell) {
        var j :| 0 <= j < |after| && after[j] == cell;
        DashesRead(widths[j]);
      }
    }
  }

  /** Rows that read back with the same separators and the same other cells are written the same. */
  lemma {:induction false} SameWriting(rows: seq<Row>, rows': seq<Row>, widths: seq<nat>)
    requires rows != [] && |rows'| == |rows| && widths == Widths(rows)
    requires forall i | 0 <= i < |rows| :: |rows[i]| == |rows'[i]| == |widths| && Separator(rows'[i]) == Separator(rows[i])
    requires forall i | 0 <= i < |rows| && !Separator(rows[i]) :: rows'[i] == rows[i]
    ensures Widths(rows') == widths && FormatRows(rows', widths) == FormatRows(rows, widths)
  {
    forall j | 0 <= j < |widths| ensures Widths(rows')[j] == widths[j] { WidthDepends(rows, rows', j); }
    forall i | 0 <= i < |rows| ensures FormatRow(rows'[i], widths) == FormatRow(rows[i], widths) {
      if Separator(rows[i]) {
        assert Written(rows'[i], widths, true) == Written(rows[i], widths, true);
      }
    }
  }

  /** Formatting a formatted table changes nothing. */
  lemma {:induction false} TableIsStable(table: seq<string>)
    requires table != []
    ensures |FormatTable(table)| == |table| && FormatTable(FormatTable(table)) == FormatTable(table)
  {
    TableLength(table);
    if Even(CellRows(table)) {
      var rows, widths := TableShape(table);
      ReadBack(table, FormatTable(table), rows);
      SameWriting(rows, CellRows(FormatTable(table)), widths);
    }
  }

  lemma {:induction false} ReadBack(table: seq<string>, lines: seq<string>, rows: seq<Row>)
    requires table != [] && Even(CellRows(table)) && rows == CellRows(table) && lines == FormatTable(table)
    ensures |CellRows(lines)| == |rows| == |table| == |lines|
    ensures forall i | 0 <= i < |rows| ::
              |CellRows(lines)[i]| == |rows[i]| && Separator(CellRows(lines)[i]) == Separator(rows[i])
    ensures forall i | 0 <= i < |rows| && !Separator(rows[i]) :: CellRows(lines)[i] == rows[i]
    ensures Even(CellRows(lines))
  {
    CellRowsAt(table);
    CellRowsAt(lines);
    TableLength(table);
    var rows' := CellRows(lines);
    forall i | 0 <= i < |rows|
      ensures |rows'[i]| == |rows[i]| && Separator(rows'[i]) == Separator(rows[i])
      ensures !Separator(rows[i]) ==> rows'[i] == rows[i]
    {
      CellsSurvive(table, i);
    }
  }

  lemma {:induction false} TableBars(table: seq<string>)
    requires table != [] && forall i | 0 <= i < |table| :: StartsWith(table[i], "|")
    ensures |FormatTable(table)| == |table|
    ensures forall i | 0 <= i < |table| :: StartsWith(FormatTable(table)[i], "|")
  {
    CellRowsAt(table);
    if Even(CellRows(table)) {
      var rows, widths := TableShape(table);
      forall i | 0 <= i < |table| ensures StartsWith(FormatTable(table)[i], "|") {
        assert FormatRow(rows[i], widths)[..1] == "|";
      }
    }
  }

  /** Formatting any lines twice is formatting them once. */
  lemma {:induction false} FormatIsIdempotent(lines: seq<string>)
    ensures FormatLines(FormatLines(lines)) == FormatLines(lines)
    ensures lines != [] && !StartsWith(lines[0], "|") ==> FormatLines(lines) != [] && FormatLines(lines)[0] == lines[0]
    decreases |lines|
  {
    if lines == [] {
    } else {
      if !StartsWith(lines[0], "|") {
        FormatIsIdempotent(lines[1..]);
        assert ([lines[0]] + FormatLines(lines[1..]))[1..] == FormatLines(lines[1..]);
      } else {
        var n := RunLength(lines);
        var table, rest := lines[..n], lines[n..];
        FormatIsIdempotent(rest);
        TableBars(table);
        TableIsStable(table);
        var formatted, tail := FormatTable(table), FormatLines(rest);
        var all := formatted + tail;
        RunIs(all, n);
        assert all[..n] == formatted && all[n..] == tail;
        assert StartsWith(all[0], "|");
      }
    }
  }

  lemma {:induction false} FormattedUnbroken(lines: seq<string>)
    requires forall line <- lines :: '\n' !in line
    ensures forall line <- FormatLines(lines) :: '\n' !in line
    ensures lines != [] ==> FormatLines(lines) != []
    decreases |lines|
  {
    if lines == [] {
    } else {
      assert lines[0] in lines;
      if !StartsWith(lines[0], "|") {
        assert forall line <- lines[1..] :: line in lines;
        FormattedUnbroken(lines[1..]);
      } else {
        var n := RunLength(lines);
        assert forall line <- lines[n..] :: line in lines;
        FormattedUnbroken(lines[n..]);
        forall line <- lines[..n] ensures '\n' !in line { assert line in lines; }
        TableUnbroken(lines[..n]);
      }
    }
  }

  lemma {:induction false} TableUnbroken(table: seq<string>)
    requires table != [] && forall line <- table :: '\n' !in line
    ensures |FormatTable(table)| == |table| && forall line <- FormatTable(table) :: '\n' !in line
  {
    if Even(CellRows(table)) {
      var rows, widths := TableShape(table);
      CellRowsAt(table);
      forall i | 0 <= i < |table| ensures '\n' !in FormatTable(table)[i] {
        assert table[i] in table;
        CellsUnbroken(table[i]);
        RowUnbroken(rows[i], widths);
      }
    }
  }

  lemma {:induction false} RowUnbroken(row: Row, widths: seq<nat>)
    requires |row| == |widths| && forall cell <- row :: '\n' !in cell
    ensures '\n' !in FormatRow(row, widths)
  {
    var written := Written(row, widths, Separator(row));
    forall j | 0 <= j < |written| ensures '\n' !in written[j] { assert row[j] in row; }
    JoinUnbroken(written);
  }

  lemma {:induction false} JoinUnbroken(cells: Row)
    requires forall j | 0 <= j < |cells| :: '\n' !in cells[j]
    ensures '\n' !in Join(cells, " | ")
  {
    if |cells| > 1 { JoinUnbroken(cells[1..]); }
  }

  lemma {:induction false} PiecesUnbroken(text: string, escaped: bool)
    requires '\n' !in text
    ensures forall piece <- SplitBars(text, escaped) :: '\n' !in piece
  {
    if text == "" {
    } else {
      assert text[0] in text && forall c <- text[1..] :: c in text;
      PiecesUnbroken(text[1..], if text[0] == '|' && !escaped then false else text[0] == '\\');
    }
  }

  lemma {:induction false} TrimStartUnbroken(text: string)
    requires '\n' !in text
    ensures '\n' !in TrimStart(text)
  {
    if text != "" && Blank(text[0]) {
      assert forall c <- text[1..] :: c in text;
      TrimStartUnbroken(text[1..]);
    }
  }

  lemma {:induction false} CellsUnbroken(line: string)
    requires '\n' !in line
    ensures forall cell <- Cells(line) :: '\n' !in cell
  {
    var inside := Inside(line);
    assert forall c <- inside :: c in line;
    PiecesUnbroken(inside, false);
    var pieces := SplitBars(inside, false);
    TrimAllAt(pieces);
    forall i | 0 <= i < |pieces| ensures '\n' !in Cells(line)[i] {
      assert pieces[i] in pieces;
      TrimStartUnbroken(pieces[i]);
    }
  }

  /** `formatMarkdownTables` is stable under itself. */
  lemma {:induction false} FormattingIsStable(markdown: string)
    ensures FormatMarkdown(FormatMarkdown(markdown)) == FormatMarkdown(markdown)
  {
    var lines := Split(markdown, '\n');
    SplitPieces(markdown, '\n');
    FormattedUnbroken(lines);
    SplitJoin(FormatLines(lines), '\n');
    FormatIsIdempotent(lines);
  }
}
