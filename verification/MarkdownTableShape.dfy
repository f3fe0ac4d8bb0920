/** Which lines the table formatter touches, where it cuts them, and how wide it writes them. */
module MarkdownTableShape {
  import opened Text
  import opened MarkdownTables

  // ---- Which lines are touched ----

  predicate Bar(line: string) { StartsWith(line, "|") }

  /** A run of bar lines, with no bar line right before it or right after. */
  predicate WholeRun(before: seq<string>, table: seq<string>, after: seq<string>) {
    && table != [] && (forall line <- table :: Bar(line))
    && (before != [] ==> !Bar(before[|before| - 1])) && (after != [] ==> !Bar(after[0]))
  }

  /** Each whole run of bar lines is formatted on its own, whatever stands around it. */
  lemma {:induction false} RunFormattedAlone(
    before: seq<string>, table: seq<string>, after: seq<string>, lines: seq<string>)
    requires WholeRun(before, table, after) && lines == before + (table + after)
    ensures FormatLines(lines) == FormatLines(before) + (FormatTable(table) + FormatLines(after))
  {
    RunFirst(table, after, table + after);
    if before == [] {
      assert lines == table + after;
    } else {
      AheadFormats(before, table + after, lines);
    }
  }

  /** Lines that do not end in a bar line are formatted the same whatever follows them. */
  lemma {:induction false} AheadFormats(before: seq<string>, more: seq<string>, lines: seq<string>)
    requires before != [] && !Bar(before[|before| - 1]) && lines == before + more
    ensures FormatLines(lines) == FormatLines(before) + FormatLines(more)
    decreases |before|
  {
    var n := if Bar(before[0]) then RunLength(before) else 1;
    var first, others := before[..n], before[n..];
    if Bar(before[0]) { RunStops(before, n); }
    Regroup(first, others, more);
    assert before == first + others;
    if others == [] {
      assert first == [before[0]] && others + more == more;
      LineFirst(before[0], [], before);
      LineFirst(before[0], more, lines);
    } else {
      AheadFormats(others, more, others + more);
      if Bar(before[0]) {
        RunsFirst(first, others, others + more, before, lines, FormatLines(more));
      } else {
        SkipsFirst(before[0], others, others + more, before, lines, FormatLines(more));
      }
    }
  }

  lemma {:induction false} SkipsFirst(
    line: string, others: seq<string>, rest: seq<string>, before: seq<string>, lines: seq<string>, more: seq<string>)
    requires !Bar(line) && before == [line] + others && lines == [line] + rest
    requires FormatLines(rest) == FormatLines(others) + more
    ensures FormatLines(lines) == FormatLines(before) + more
  {
    LineFirst(line, others, before);
    LineFirst(line, rest, lines);
    Regroup([line], FormatLines(others), more);
  }

  /** A run before two continuations, one of which formats as the other and more. */
  lemma {:induction false} RunsFirst(
    first: seq<string>, others: seq<string>, rest: seq<string>, before: seq<string>, lines: seq<string>,
    more: seq<string>)
    requires first != [] && (forall line <- first :: Bar(line)) && others != [] && !Bar(others[0])
    requires rest != [] && rest[0] == others[0] && before == first + others && lines == first + rest
    requires FormatLines(rest) == FormatLines(others) + more
    ensures FormatLines(lines) == FormatLines(before) + more
  {
    RunFirst(first, others, before);
    RunFirst(first, rest, lines);
    Regroup(FormatTable(first), FormatLines(others), more);
  }

  lemma {:induction false} LineFirst(line: string, rest: seq<string>, lines: seq<string>)
    requires !Bar(line) && lines == [line] + rest
    ensures FormatLines(lines) == [line] + FormatLines(rest)
  {
    assert lines[0] == line && lines[1..] == rest;
  }

  lemma {:induction false} Regroup<T>(a: seq<T>, b: seq<T>, c: seq<T>)
    ensures a + (b + c) == a + b + c
  {
  }

  /** A run of bars at the front stops before the end of lines that do not end in a bar line. */
  lemma {:induction false} RunStops(lines: seq<string>, n: nat)
    requires lines != [] && Bar(lines[0]) && !Bar(lines[|lines| - 1]) && n == RunLength(lines)
    ensures 0 < n < |lines| && !Bar(lines[n]) && forall line <- lines[..n] :: Bar(line)
  {
    var last := |lines| - 1;
    assert !StartsWith(lines[last], "|");
  }

  lemma {:induction false} RunFirst(table: seq<string>, after: seq<string>, lines: seq<string>)
    requires table != [] && (forall line <- table :: Bar(line)) && (after != [] ==> !Bar(after[0]))
    requires lines == table + after
    ensures FormatLines(lines) == FormatTable(table) + FormatLines(after)
  {
    var n := |table|;
    forall i | 0 <= i < n ensures StartsWith(lines[i], "|") { assert lines[i] in table; }
    assert lines[..n] == table && lines[n..] == after && (n < |lines| ==> lines[n] == after[0]);
    RunFormats(lines, n, table, after);
  }

  /** Every other line stays as it is, where it is. */
  lemma {:induction false} OtherLinesStay(lines: seq<string>)
    ensures |FormatLines(lines)| == |lines|
    ensures forall i | 0 <= i < |lines| && !Bar(lines[i]) :: FormatLines(lines)[i] == lines[i]
    decreases |lines|
  {
    if lines == [] {
    } else if !Bar(lines[0]) {
      OtherLinesStay(lines[1..]);
    } else {
      var n := RunLength(lines);
      OtherLinesStay(lines[n..]);
      TableLength(lines[..n]);
      RestStays(lines, n, FormatTable(lines[..n]), FormatLines(lines[n..]));
    }
  }

  lemma {:induction false} RestStays(lines: seq<string>, n: nat, formatted: seq<string>, rest: seq<string>)
    requires n <= |lines| && |formatted| == n && |rest| == |lines| - n
    requires forall i | 0 <= i < n :: Bar(lines[i])
    requires forall i | 0 <= i < |rest| && !Bar(lines[n..][i]) :: rest[i] == lines[n..][i]
    ensures forall i | 0 <= i < |lines| && !Bar(lines[i]) :: (formatted + rest)[i] == lines[i]
  {
    forall i | 0 <= i < |lines| && !Bar(lines[i]) ensures (formatted + rest)[i] == lines[i] {
      assert i >= n && lines[n..][i - n] == lines[i];
    }
  }

  /** A table whose rows have not all as many cells is left alone. */
  lemma {:induction false} UnevenStays(table: seq<string>, i: nat)
    requires table != [] && i < |table| && |Cells(table[i])| != |Cells(table[0])|
    ensures FormatTable(table) == table
  {
    CellRowsAt(table);
    assert |CellRows(table)[i]| != |CellRows(table)[0]|;
  }

  // ---- Where rows are cut ----

  /** The character there comes right after a backslash. */
  predicate BarAt(piece: string, escaped: bool, k: nat)
    requires k < |piece|
  {
    if k == 0 then escaped else piece[k - 1] == '\\'
  }

  /** Every bar in the piece comes right after a backslash, the first perhaps after one that stood before it. */
  predicate Escaped(piece: string, escaped: bool) {
    forall k | 0 <= k < |piece| && piece[k] == '|' :: BarAt(piece, escaped, k)
  }

  /** Joined by bars the pieces are the text; no piece holds a bar of its own, and none is cut at an escaped one. */
  lemma {:induction false} CutsExactly(text: string, escaped: bool, pieces: seq<string>)
    requires pieces == SplitBars(text, escaped)
    ensures Join(pieces, "|") == text
    ensures Escaped(pieces[0], escaped) && forall i | 1 <= i < |pieces| :: Escaped(pieces[i], false)
    ensures forall i | 0 <= i < |pieces| - 1 ::
              if pieces[i] == "" then i > 0 || !escaped else pieces[i][|pieces[i]| - 1] != '\\'
  {
    if text == "" {
    } else if text[0] == '|' && !escaped {
      var rest := SplitBars(text[1..], false);
      CutsExactly(text[1..], false, rest);
      BarCut(text, rest, pieces);
    } else {
      var c, after := text[0], text[0] == '\\';
      var rest := SplitBars(text[1..], after);
      CutsExactly(text[1..], after, rest);
      assert pieces == [[c] + rest[0]] + rest[1..];
      JoinGrow(c, rest, "|", text[1..]);
      assert [c] + text[1..] == text;
      CharGrows(c, rest[0], after, escaped);
      CutGrows(c, after, rest, pieces);
    }
  }

  lemma {:induction false} BarCut(text: string, rest: seq<string>, pieces: seq<string>)
    requires text != "" && text[0] == '|' && rest != [] && Join(rest, "|") == text[1..] && pieces == [""] + rest
    ensures Join(pieces, "|") == text && pieces[1..] == rest
  {
    JoinCons("", rest, "|");
    assert "" + "|" + text[1..] == text;
  }

  lemma {:induction false} BarMoves(c: char, piece: string, after: bool, escaped: bool, k: nat)
    requires Escaped(piece, after) && after == (c == '\\') && (c == '|' ==> escaped)
    requires k <= |piece| && ([c] + piece)[k] == '|'
    ensures BarAt([c] + piece, escaped, k)
  {
    if k > 0 {
      assert BarAt(piece, after, k - 1);
      assert ([c] + piece)[k - 1] == if k == 1 then c else piece[k - 2];
    }
  }

  lemma {:induction false} CharGrows(c: char, piece: string, after: bool, escaped: bool)
    requires Escaped(piece, after) && after == (c == '\\') && (c == '|' ==> escaped)
    ensures Escaped([c] + piece, escaped)
  {
    var all := [c] + piece;
    forall k | 0 <= k < |all| && all[k] == '|' ensures BarAt(all, escaped, k) { BarMoves(c, piece, after, escaped, k); }
  }

  lemma {:induction false} CutGrows(c: char, after: bool, rest: seq<string>, pieces: seq<string>)
    requires rest != [] && pieces == [[c] + rest[0]] + rest[1..] && after == (c == '\\')
    requires forall i | 0 <= i < |rest| - 1 ::
               if rest[i] == "" then i > 0 || !after else rest[i][|rest[i]| - 1] != '\\'
    ensures forall i | 0 <= i < |pieces| - 1 ::
              if pieces[i] == "" then i > 0 else pieces[i][|pieces[i]| - 1] != '\\'
  {
    forall i | 0 <= i < |pieces| - 1
      ensures if pieces[i] == "" then i > 0 else pieces[i][|pieces[i]| - 1] != '\\'
    {
      if i == 0 {
        var all := [c] + rest[0];
        assert all[|all| - 1] == if rest[0] == "" then c else rest[0][|rest[0]| - 1];
      } else {
        assert pieces[i] == rest[i];
      }
    }
  }

  // ---- How wide columns are ----

  /** A column is as wide as its longest cell in the rows that are no separators, and at least 3. */
  lemma {:induction false} WidthExactly(rows: seq<Row>, column: nat)
    ensures Width(rows, column) >= 3
    ensures forall i | 0 <= i < |rows| && !Separator(rows[i]) && column < |rows[i]| ::
              |rows[i][column]| <= Width(rows, column)
    ensures Width(rows, column) == 3
            || exists i | 0 <= i < |rows| ::
                 !Separator(rows[i]) && column < |rows[i]| && |rows[i][column]| == Width(rows, column)
  {
    WidthBounds(rows, column);
    forall i | 0 <= i < |rows| && !Separator(rows[i]) && column < |rows[i]|
      ensures |rows[i][column]| <= Width(rows, column)
    {
      assert CellLength(rows[i], column) == |rows[i][column]|;
    }
    WidthReached(rows, column);
  }

  ghost predicate Reached(rows: seq<Row>, column: nat, width: nat) {
    exists i | 0 <= i < |rows| :: !Separator(rows[i]) && column < |rows[i]| && |rows[i][column]| == width
  }

  lemma {:induction false} WidthReached(rows: seq<Row>, column: nat)
    ensures Width(rows, column) == 3 || Reached(rows, column, Width(rows, column))
  {
    if rows == [] {
    } else {
      var rest := rows[1..];
      WidthReached(rest, column);
      if Width(rows, column) == Width(rest, column) && Reached(rest, column, Width(rest, column)) {
        var i :| 0 <= i < |rest| && !Separator(rest[i]) && column < |rest[i]| && |rest[i][column]| == Width(rest, column);
        assert rows[i + 1] == rest[i];
      } else if Width(rows, column) != Width(rest, column) {
        assert column < |rows[0]| && |rows[0][column]| == Width(rows, column);
      }
    }
  }

  // ---- Which cells make a separator ----

  /** Dashes with a colon before them or after them, both or neither. */
  ghost predicate Ruled(cell: string, before: string, n: nat, after: string) {
    && n > 0 && (before == "" || before == ":") && (after == "" || after == ":")
    && cell == before + Repeat('-', n) + after
  }

  lemma {:induction false} SeparatorCellExactly(cell: string)
    ensures SeparatorCell(cell) <==> exists before, n, after :: Ruled(cell, before, n, after)
  {
    if SeparatorCell(cell) { RuledParts(cell); }
    if before, n, after :| Ruled(cell, before, n, after) { RuledReads(cell, before, n, after); }
  }

  lemma {:induction false} AllDashes(dashes: string)
    requires forall c <- dashes :: c == '-'
    ensures dashes == Repeat('-', |dashes|)
  {
    assert forall k | 0 <= k < |dashes| :: dashes[k] == '-' by {
      forall k | 0 <= k < |dashes| ensures dashes[k] == '-' { assert dashes[k] in dashes; }
    }
  }

  /** A leading colon comes off, if there is one. */
  lemma {:induction false} ColonFirst(cell: string, before: string, left: string)
    requires (before == "" || before == ":") && left != "" && left[0] != ':' && cell == before + left
    ensures (if StartsWith(cell, ":") then cell[1..] else cell) == left
  {
    if before == "" {
      assert cell == left;
    } else {
      assert cell[..1] == ":" && cell[1..] == left;
    }
  }

  /** And so does a final one. */
  lemma {:induction false} ColonLast(left: string, dashes: string, after: string)
    requires (after == "" || after == ":") && dashes != "" && dashes[|dashes| - 1] != ':' && left == dashes + after
    ensures (if EndsWith(left, ":") then left[..|left| - 1] else left) == dashes
  {
    if after == "" {
      assert left == dashes && left[|left| - 1..] == [left[|left| - 1]];
    } else {
      assert left[|left| - 1..] == ":" && left[..|left| - 1] == dashes;
    }
  }

  lemma {:induction false} RuledReads(cell: string, before: string, n: nat, after: string)
    requires Ruled(cell, before, n, after)
    ensures SeparatorCell(cell)
  {
    var dashes := Repeat('-', n);
    var left := dashes + after;
    assert dashes[0] == '-' && dashes[n - 1] == '-' && left[0] == dashes[0];
    Regroup(before, dashes, after);
    ColonFirst(cell, before, left);
    ColonLast(left, dashes, after);
  }

  lemma {:induction false} RuledParts(cell: string)
    requires SeparatorCell(cell)
    ensures exists before, n, after :: Ruled(cell, before, n, after)
  {
    var left := if StartsWith(cell, ":") then cell[1..] else cell;
    var before := if StartsWith(cell, ":") then ":" else "";
    var dashes := if EndsWith(left, ":") then left[..|left| - 1] else left;
    var after := if EndsWith(left, ":") then ":" else "";
    AllDashes(dashes);
    FirstPart(cell, before, left);
    LastPart(left, dashes, after);
    Regroup(before, dashes, after);
    assert Ruled(cell, before, |dashes|, after);
  }

  lemma {:induction false} FirstPart(cell: string, before: string, left: string)
    requires left == (if StartsWith(cell, ":") then cell[1..] else cell)
    requires before == if StartsWith(cell, ":") then ":" else ""
    ensures cell == before + left
  {
  }

  lemma {:induction false} LastPart(left: string, dashes: string, after: string)
    requires dashes == (if EndsWith(left, ":") then left[..|left| - 1] else left)
    requires after == if EndsWith(left, ":") then ":" else ""
    ensures left == dashes + after
  {
  }
}
