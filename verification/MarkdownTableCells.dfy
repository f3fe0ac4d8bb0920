/** When rewriting a table keeps what its rows say, and the rows whose last character it loses. */
module MarkdownTableCells {
  import opened Text
  import opened MarkdownTables

  /** The row ends in a bar of its own, one that is neither escaped nor the bar it opens with. */
  predicate ClosesRow(line: string) {
    |line| >= 2 && line[|line| - 1] == '|' && line[|line| - 2] != '\\'
  }

  /** A row's cells by its text alone: its closing bar is left off only when it has one. */
  function OwnCells(line: string): Row
    requires line != ""
  {
    TrimAll(SplitBars(if ClosesRow(line) then line[1..|line| - 1] else line[1..], false))
  }

  /** The last character is all that `line.slice(1, -1)` takes off at the end: a bar of its own, or white space. */
  predicate LastIsSpare(line: string)
    requires line != ""
  {
    |line| == 1 || ClosesRow(line) || Blank(line[|line| - 1])
  }

  /** A character that cuts nothing runs on in the last piece. */
  lemma {:induction false} SplitBarsPush(text: string, c: char, escaped: bool, pieces: seq<string>)
    requires pieces == SplitBars(text, escaped) && (c != '|' || EscapedAfter(text, escaped))
    ensures SplitBars(text + [c], escaped) == pieces[..|pieces| - 1] + [pieces[|pieces| - 1] + [c]]
  {
    if text == "" {
      assert text + [c] == [c] && [c][1..] == "" && [c] + "" == [c] && "" + [c] == [c];
    } else {
      var bar := text[0] == '|' && !escaped;
      var after := if bar then false else text[0] == '\\';
      var rest := SplitBars(text[1..], after);
      assert (text + [c])[1..] == text[1..] + [c];
      SplitBarsPush(text[1..], c, after, rest);
      PushFirst(text[0], rest, c, bar, pieces);
    }
  }

  lemma {:induction false} PushFirst(first: char, rest: seq<string>, c: char, bar: bool, pieces: seq<string>)
    requires rest != []
    requires pieces == if bar then [""] + rest else [[first] + rest[0]] + rest[1..]
    ensures var more := rest[..|rest| - 1] + [rest[|rest| - 1] + [c]];
            (if bar then [""] + more else [[first] + more[0]] + more[1..])
            == pieces[..|pieces| - 1] + [pieces[|pieces| - 1] + [c]]
  {
    if !bar && |rest| == 1 {
      assert [first] + (rest[0] + [c]) == [first] + rest[0] + [c];
    }
  }

  /** Trimmed, a text one character longer is the same exactly when that character is white space. */
  lemma {:induction false} TrimPush(text: string, c: char)
    ensures Trim(text + [c]) == Trim(text) <==> Blank(c)
  {
    TrimStartPush(text, c);
    var start := TrimStart(text);
    assert (start + [c])[..|start|] == start;
    if Blank(c) {
      assert start != "" ==> TrimEnd(start + [c]) == TrimEnd(start);
    } else {
      assert TrimEnd(start + [c]) == start + [c];
    }
  }

  lemma {:induction false} TrimStartPush(text: string, c: char)
    ensures TrimStart(text + [c]) == if TrimStart(text) == "" && Blank(c) then "" else TrimStart(text) + [c]
  {
    if text == "" {
      assert text + [c] == [c];
    } else {
      assert (text + [c])[1..] == text[1..] + [c];
      TrimStartPush(text[1..], c);
    }
  }

  lemma {:induction false} SameButLast(a: Row, b: Row, last: nat)
    requires |a| == |b| == last + 1 && forall i | 0 <= i < last :: a[i] == b[i]
    ensures a == b <==> a[last] == b[last]
  {
  }

  lemma {:induction false} LastCellPush(pieces: seq<string>, c: char, more: seq<string>)
    requires pieces != [] && more == pieces[..|pieces| - 1] + [pieces[|pieces| - 1] + [c]]
    ensures TrimAll(more) == TrimAll(pieces) <==> Blank(c)
  {
    var last, grown, cells := |pieces| - 1, TrimAll(more), TrimAll(pieces);
    TrimAllAt(pieces);
    TrimAllAt(more);
    TrimPush(pieces[last], c);
    assert more[last] == pieces[last] + [c];
    forall i | 0 <= i < last ensures grown[i] == cells[i] { assert more[i] == pieces[i]; }
    SameButLast(grown, cells, last);
  }

  /** What the code reads of a row is what the row says exactly when it ends in a bar of its own or in white space. */
  lemma {:induction false} ReadsOwnCells(line: string)
    requires StartsWith(line, "|")
    ensures Cells(line) == OwnCells(line) <==> LastIsSpare(line)
  {
    if |line| == 1 {
      assert line[1..] == "";
    } else if ClosesRow(line) {
      assert Inside(line) == line[1..|line| - 1];
    } else {
      var inside, c := Inside(line), line[|line| - 1];
      assert line[1..] == inside + [c];
      assert c == '|' ==> |line| > 2 && EscapedAfter(inside, false);
      SplitBarsPush(inside, c, false, SplitBars(inside, false));
      LastCellPush(SplitBars(inside, false), c, SplitBars(inside + [c], false));
    }
  }

  /** A written row closes, so it says what the code reads of it. */
  lemma {:induction false} FormattedCloses(row: Row, widths: seq<nat>, line: string)
    requires |row| == |widths| && line == FormatRow(row, widths)
    ensures StartsWith(line, "|") && OwnCells(line) == Cells(line)
  {
    var body := "| " + Join(Written(row, widths, Separator(row)), " | ");
    assert line == body + " |" && line[0] == body[0];
    assert ClosesRow(line);
    ReadsOwnCells(line);
  }

  /**
   * A row of a rewritten table that the code reads as no separator still says what it said exactly when its last
   * character is a bar of its own or white space; any other last character, an escaped bar too, is lost from its last
   * cell. One that the code reads as a separator does exactly when it said dashes of the columns' widths.
   */
  lemma {:induction false} RowKeptExactly(table: seq<string>, i: nat)
    requires table != [] && Even(CellRows(table)) && i < |table| && StartsWith(table[i], "|")
    ensures |FormatTable(table)| == |table| == |CellRows(table)| && FormatTable(table)[i] != ""
    ensures OwnCells(FormatTable(table)[i]) == OwnCells(table[i])
            <==> if Separator(Cells(table[i])) then Dashes(OwnCells(table[i]), Widths(CellRows(table)))
                 else LastIsSpare(table[i])
  {
    CellsSurvive(table, i);
    var row, widths := RowShape(table, i);
    FormattedCloses(row, widths, FormatTable(table)[i]);
    ReadsOwnCells(table[i]);
    DashesAreOne(OwnCells(FormatTable(table)[i]), OwnCells(table[i]), widths);
  }

  lemma {:induction false} DashesAreOne(a: Row, b: Row, widths: seq<nat>)
    ensures Dashes(a, widths) && Dashes(b, widths) ==> a == b
  {
  }

  /** Unless both the row and what the code reads of it are separators, it is the last character that decides. */
  lemma {:induction false} LastCharacterDecides(table: seq<string>, i: nat)
    requires table != [] && Even(CellRows(table)) && i < |table| && StartsWith(table[i], "|")
    requires !(Separator(Cells(table[i])) && Separator(OwnCells(table[i])))
    ensures |FormatTable(table)| == |table| && FormatTable(table)[i] != ""
    ensures OwnCells(FormatTable(table)[i]) == OwnCells(table[i]) <==> LastIsSpare(table[i])
  {
    RowKeptExactly(table, i);
    CellsSurvive(table, i);
    ReadsOwnCells(table[i]);
    var row, widths := RowShape(table, i);
    FormattedCloses(row, widths, FormatTable(table)[i]);
  }

  // ---- A row without a closing bar ----

  /** A text that is trimmed and holds neither bar nor backslash. */
  predicate Plain(text: string) { Trim(text) == text && forall c <- text :: c != '|' && c != '\\' }

  /** Two texts without bars, with a bar between them, are two cells. */
  lemma {:induction false} TwoCells(a: string, b: string, text: string)
    requires text == a + "|" + b && (forall c <- a :: c != '|' && c != '\\') && forall c <- b :: c != '|'
    ensures TrimAll(SplitBars(text, false)) == [Trim(a), Trim(b)]
  {
    var bar := "|" + b;
    assert text == a + bar && bar[1..] == b && a + "" == a;
    assert a != "" ==> a[|a| - 1] in a;
    PlainUnbarred(a, false);
    PlainUnbarred(b, false);
    UnbarredJoin(a, bar, false, SplitBars(bar, EscapedAfter(a, false)));
    assert SplitBars(text, false) == [a, b];
    TrimAllAt([a, b]);
  }

  /** The same with a space before each and padding after. */
  lemma {:induction false} TwoSpacedCells(a: string, m: nat, b: string, n: nat, text: string)
    requires Plain(a) && Plain(b) && text == " " + a + Repeat(' ', m) + "| " + b + Repeat(' ', n)
    ensures TrimAll(SplitBars(text, false)) == [a, b]
  {
    TrimPadded(a, m);
    TrimPadded(b, n);
    var left, right := " " + a + Repeat(' ', m), " " + b + Repeat(' ', n);
    assert text == left + "|" + right;
    TwoCells(left, right, text);
  }

  /** A table of one row is written at the widths of its own cells, and at the least widths when it is a separator. */
  lemma {:induction false} OneRow(line: string, row: Row, widths: seq<nat>)
    requires row == Cells(line) && widths == Widths([row])
    ensures FormatTable([line]) == [FormatRow(row, widths)]
    ensures forall j | 0 <= j < |row| :: widths[j] == if Separator(row) then 3 else Max(3, |row[j]|)
  {
    OneRowTable([line], [row], row, widths);
    forall j | 0 <= j < |row| ensures widths[j] == if Separator(row) then 3 else Max(3, |row[j]|) {
      OneRowWidth(row, j);
    }
  }

  lemma {:induction false} OneRowTable(table: seq<string>, rows: seq<Row>, row: Row, widths: seq<nat>)
    requires |table| == 1 && rows == [row] && row == Cells(table[0]) && widths == Widths(rows)
    ensures FormatTable(table) == [FormatRow(row, widths)]
  {
    CellRowsAt(table);
    assert CellRows(table) == rows;
  }

  lemma {:induction false} OneRowWidth(row: Row, j: nat)
    requires j < |row|
    ensures Width([row], j) == if Separator(row) then 3 else Max(3, |row[j]|)
  {
    var rows: seq<Row> := [row];
    assert rows[1..] == [] && Width(rows[1..], j) == 3;
    assert rows[0] == row && CellLength(row, j) == |row[j]|;
    assert !Separator(row) ==> Width(rows, j) == Max(CellLength(row, j), 3);
  }

  lemma {:induction false} TwoWritten(row: Row, widths: seq<nat>, a: string, b: string)
    requires |row| == |widths| == 2 && !Separator(row)
    requires a == PadEnd(row[0], widths[0]) && b == PadEnd(row[1], widths[1])
    ensures FormatRow(row, widths) == "| " + a + " | " + b + " |"
  {
    assert Written(row, widths, false) == [a, b];
    assert [a, b][1..] == [b] && Join([a, b], " | ") == a + " | " + b;
    assert "| " + (a + " | " + b) == "| " + a + " | " + b;
  }

  /** What a row of two cells without a closing bar says, and what the code reads of it. */
  lemma {:induction false} OpenRowReads(line: string, a: string, b: string, c: char)
    requires Plain(a) && Plain(b) && Plain(b + [c]) && line == "| " + a + " | " + b + [c]
    ensures OwnCells(line) == [a, b + [c]] && Cells(line) == [a, b]
  {
    assert line[|line| - 1] == c && c in b + [c];
    TwoSpacedCells(a, 1, b + [c], 0, line[1..]);
    TwoSpacedCells(a, 1, b, 0, Inside(line));
  }

  /** A row of two cells without a closing bar says `a` and `b` with `c` after it; it is written back without the `c`. */
  lemma {:induction false} OpenRow(line: string, a: string, b: string, c: char)
    requires Plain(a) && Plain(b) && Plain(b + [c]) && !SeparatorCell(a) && line == "| " + a + " | " + b + [c]
    ensures OwnCells(line) == [a, b + [c]]
    ensures FormatTable([line]) == ["| " + PadEnd(a, Max(3, |a|)) + " | " + PadEnd(b, Max(3, |b|)) + " |"]
    ensures OwnCells(FormatTable([line])[0]) == [a, b]
  {
    OpenRowReads(line, a, b, c);
    var row: Row := [a, b];
    assert a in row;
    OneRow(line, row, Widths([row]));
    TwoWritten(row, Widths([row]), PadEnd(a, Max(3, |a|)), PadEnd(b, Max(3, |b|)));
    CellsSurvive([line], 0);
    FormattedCloses(row, Widths([row]), FormatTable([line])[0]);
  }

  lemma {:induction false} PlainEnds(text: string)
    requires |text| > 0 && !Blank(text[0]) && !Blank(text[|text| - 1]) && forall c <- text :: c != '|' && c != '\\'
    ensures Plain(text)
  {
    TrimStartFirst(text);
    TrimEndStays(text);
  }

  lemma {:induction false} Pads(text: string, n: nat)
    requires |text| + n == 3
    ensures PadEnd(text, Max(3, |text|)) == text + Repeat(' ', n)
  {
    assert Repeat(' ', 0) == "" && text + "" == text;
  }

  /** For one, `| ab | cd` is written back as `| ab  | c   |`. */
  lemma {:induction false} OpenRowLosesCharacter(line: string, a: string, b: string)
    requires a == ['a', 'b'] && b == ['c'] && line == "| " + a + " | " + b + ['d']
    ensures OwnCells(line) == [a, b + ['d']]
    ensures FormatTable([line]) == ["| " + (a + Repeat(' ', 1)) + " | " + (b + Repeat(' ', 2)) + " |"]
    ensures OwnCells(FormatTable([line])[0]) == [a, b]
  {
    PlainEnds(a);
    PlainEnds(b);
    PlainEnds(b + ['d']);
    assert !SeparatorCell(a) by { assert a[0] in a; }
    OpenRow(line, a, b, 'd');
    Pads(a, 1);
    Pads(b, 2);
  }

  // ---- A row read as a separator that is none ----

  /** What a row of one cell without a closing bar says, and what the code reads of it. */
  lemma {:induction false} OpenCellReads(line: string, cell: string, c: char)
    requires Trim(cell) == cell && Trim(cell + [c]) == cell + [c] && (forall d <- cell :: d != '|') && c != '|'
    requires line == "| " + cell + [c]
    ensures OwnCells(line) == [cell + [c]] && Cells(line) == [cell]
  {
    OpenParts(line, cell, c);
    OpenLine(line, " " + (cell + [c]), " " + cell, c);
    OneCell(cell + [c], " " + (cell + [c]));
    OneCell(cell, " " + cell);
  }

  lemma {:induction false} OpenParts(line: string, cell: string, c: char)
    requires line == "| " + cell + [c]
    ensures |line| > 2 && line[|line| - 1] == c
    ensures line[1..] == " " + (cell + [c]) && line[1..|line| - 1] == " " + cell
  {
  }

  lemma {:induction false} OpenLine(line: string, own: string, inside: string, c: char)
    requires |line| > 2 && line[|line| - 1] == c && c != '|' && own == line[1..] && inside == line[1..|line| - 1]
    ensures OwnCells(line) == TrimAll(SplitBars(own, false)) && Cells(line) == TrimAll(SplitBars(inside, false))
  {
  }

  lemma {:induction false} OneCell(cell: string, text: string)
    requires text == " " + cell && Trim(cell) == cell && forall c <- cell :: c != '|'
    ensures TrimAll(SplitBars(text, false)) == [cell]
  {
    PlainUnbarred(text, false);
    assert text == " " + cell + Repeat(' ', 0);
    TrimPadded(cell, 0);
    TrimAllAt([text]);
  }

  /** A row of one cell of dashes and then another character is written back as dashes alone. */
  lemma {:induction false} DashedRowIsErased(line: string, dashes: string, c: char)
    requires SeparatorCell(dashes) && dashes[0] == '-' && Plain(dashes)
    requires Plain(dashes + [c]) && !SeparatorCell(dashes + [c]) && line == "| " + dashes + [c]
    ensures OwnCells(line) == [dashes + [c]]
    ensures FormatTable([line]) == ["| " + Repeat('-', 3) + " |"]
  {
    assert c in dashes + [c];
    OpenCellReads(line, dashes, c);
    var row: Row := [dashes];
    assert Separator(row);
    OneRow(line, row, Widths([row]));
    OneWritten(row, Widths([row]));
  }

  lemma {:induction false} OneWritten(row: Row, widths: seq<nat>)
    requires |row| == |widths| == 1 && Separator(row)
    ensures FormatRow(row, widths) == "| " + Repeat('-', widths[0]) + " |"
  {
    assert Written(row, widths, true) == [Repeat('-', widths[0])];
  }

  /** For one, a row that says `--x` comes back saying `---`. */
  lemma {:induction false} DashedRowExists(line: string, dashes: string)
    requires dashes == ['-', '-'] && line == "| " + dashes + ['x']
    ensures OwnCells(line) == [dashes + ['x']] && FormatTable([line]) == ["| " + Repeat('-', 3) + " |"]
  {
    var own := dashes + ['x'];
    PlainEnds(dashes);
    PlainEnds(own);
    assert own[0] == '-' && own[2] == 'x' && !SeparatorCell(own) by { assert own[2] in own; }
    DashedRowIsErased(line, dashes, 'x');
  }
}
