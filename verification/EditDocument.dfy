/** Loading a document into editable lines and writing it back with its own line terminator. */
module EditDocument {
  import opened Text
  import opened Graphemes
  import opened EditBuffer

  const CRLF := "\r\n"

  type Newline = s: string | s == "\n" || s == "\r" || s == CRLF witness "\n"

  /** The terminator a break starts with: `\r\n` wins over a bare `\r`. */
  function BreakAt(text: string): (nl: Newline)
    requires text != "" && LineBreak(text[0])
    ensures nl <= text
  {
    if text[0] == '\n' then "\n" else if |text| > 1 && text[1] == '\n' then CRLF else "\r"
  }

  /** `text.split(/\r\n|\r|\n/)`. */
  function SplitLines(text: string): (lines: seq<string>)
    ensures |lines| >= 1
    decreases |text|
  {
    if text == "" then [""]
    else if LineBreak(text[0]) then [""] + SplitLines(text[|BreakAt(text)|..])
    else
      var rest := SplitLines(text[1..]);
      [[text[0]] + rest[0]] + rest[1..]
  }

  /** The terminators between those lines. */
  function Breaks(text: string): (breaks: seq<Newline>)
    ensures |breaks| + 1 == |SplitLines(text)|
    decreases |text|
  {
    if text == "" then []
    else if LineBreak(text[0]) then [BreakAt(text)] + Breaks(text[|BreakAt(text)|..])
    else Breaks(text[1..])
  }

  function SplitDocumentLines(text: string): (lines: seq<string>)
    ensures |lines| >= 1
  {
    var lines := SplitLines(text);
    if |lines| > 1 && lines[|lines| - 1] == "" then lines[..|lines| - 1] else lines
  }

  predicate IncludesCrLf(text: string) {
    exists i | 0 <= i < |text| - 1 :: text[i] == '\r' && text[i + 1] == '\n'
  }

  function DetectNewline(text: string): Newline {
    if IncludesCrLf(text) then CRLF else if '\r' in text then "\r" else "\n"
  }

  predicate EndsWithNewline(text: string) { text != "" && LineBreak(text[|text| - 1]) }

  /** The buffer as one document. */
  function Render(lines: seq<string>, newline: Newline, endsWithNewline: bool): string {
    Join(lines, newline) + (if endsWithNewline then newline else "")
  }

  /** What writing a document gives when nothing was typed; also the text a new session counts as saved. */
  function Rewritten(text: string): string {
    Render(SplitDocumentLines(text), DetectNewline(text), EndsWithNewline(text))
  }

  /** Each of the first `n` document lines on a row of its own. */
  function OwnRows(n: nat): seq<seq<int>> { seq(n, i => [i + 1]) }

  function LoadBuffer(text: string, cursorLine: int): Buffer {
    var lines := SplitDocumentLines(text);
    Buffer(lines, OwnRows(|lines|), Clamp(cursorLine, 0, |lines| - 1), 0)
  }

  /** A session opens at the start of the line it was asked for, or of the nearest line the document has. */
  lemma {:induction false} OpensAtLine(text: string, cursorLine: int)
    ensures var b := LoadBuffer(text, cursorLine);
            && 0 <= b.line < |b.lines| && b.column == 0
            && (0 <= cursorLine < |b.lines| ==> b.line == cursorLine)
            && (cursorLine < 0 ==> b.line == 0) && (cursorLine >= |b.lines| ==> b.line == |b.lines| - 1)
  {
  }

  // ---- Lines and terminators together are the text ----

  lemma {:induction false} LinesUnbroken(text: string)
    ensures forall line <- SplitLines(text) :: Unbroken(line)
    decreases |text|
  {
    if text == "" {
    } else {
      if LineBreak(text[0]) {
        LinesUnbroken(text[|BreakAt(text)|..]);
      } else {
        LinesUnbroken(text[1..]);
        var rest := SplitLines(text[1..]);
        assert Unbroken(rest[0]) && Unbroken([text[0]] + rest[0]);
      }
    }
  }

  /** When every terminator is `nl`, joining the lines with `nl` gives the text back. */
  lemma {:induction false} JoinLines(text: string, nl: Newline, lines: seq<string>, breaks: seq<Newline>)
    requires lines == SplitLines(text) && breaks == Breaks(text) && forall b <- breaks :: b == nl
    ensures Join(lines, nl) == text
    decreases |text|
  {
    if text == "" {
    } else {
      if LineBreak(text[0]) {
        var tail := text[|BreakAt(text)|..];
        assert breaks[0] in breaks && forall b <- breaks[1..] :: b in breaks;
        JoinLines(tail, nl, SplitLines(tail), breaks[1..]);
        JoinCons("", SplitLines(tail), nl);
        assert text == "" + nl + tail;
      } else {
        JoinLines(text[1..], nl, SplitLines(text[1..]), breaks);
        JoinGrow(text[0], SplitLines(text[1..]), nl, text[1..]);
        assert text == [text[0]] + text[1..];
      }
    }
  }

  lemma {:induction false} UnbrokenIsOneLine(line: string)
    requires Unbroken(line)
    ensures SplitLines(line) == [line] && Breaks(line) == []
    decreases |line|
  {
    if line == "" {
    } else {
      assert line[0] in line;
      assert forall c <- line[1..] :: c in line;
      UnbrokenIsOneLine(line[1..]);
      assert [line[0]] + line[1..] == line;
    }
  }

  /** A terminator at the front comes off, unless it is a bare `\r` that a `\n` would complete. */
  lemma {:induction false} PeelBreak(nl: Newline, more: string, text: string)
    requires text == nl + more && (nl == "\r" ==> more == "" || more[0] != '\n')
    ensures LineBreak(text[0]) && BreakAt(text) == nl && text[|nl|..] == more
    ensures SplitLines(text) == [""] + SplitLines(more) && Breaks(text) == [nl] + Breaks(more)
  {
    assert text[0] == nl[0] && (|nl| == 2 ==> text[1] == nl[1]);
    assert |nl| == 1 && more != "" ==> text[1] == more[0];
  }

  /** A character at the front joins the first line. */
  lemma {:induction false} PeelChar(text: string, tail: string, lines: seq<string>)
    requires text != "" && !LineBreak(text[0]) && tail == text[1..] && lines == SplitLines(tail)
    ensures SplitLines(text) == [[text[0]] + lines[0]] + lines[1..] && Breaks(text) == Breaks(tail)
  {
  }

  /** Reading an unbroken line, a terminator and more text: the first line and terminator come off exactly. */
  lemma {:induction false} PeelLine(line: string, nl: Newline, more: string, text: string)
    requires Unbroken(line) && (nl == "\r" ==> more == "" || more[0] != '\n') && text == line + nl + more
    ensures SplitLines(text) == [line] + SplitLines(more)
    ensures Breaks(text) == [nl] + Breaks(more)
    decreases |line|
  {
    if line == "" {
      assert text == nl + more;
      PeelBreak(nl, more, text);
    } else {
      var tail := line[1..];
      var rest := tail + nl + more;
      UnbrokenTail(line);
      FirstOff(line, nl, more, text, rest);
      PeelLine(tail, nl, more, rest);
      PeelChar(text, rest, [tail] + SplitLines(more));
      GrowLine(line, tail, SplitLines(more));
    }
  }

  lemma {:induction false} FirstOff(line: string, nl: string, more: string, text: string, rest: string)
    requires line != "" && text == line + nl + more && rest == line[1..] + nl + more
    ensures text != "" && text[0] == line[0] && text[1..] == rest
  {
  }

  lemma {:induction false} UnbrokenTail(line: string)
    requires Unbroken(line) && line != ""
    ensures !LineBreak(line[0]) && Unbroken(line[1..])
  {
    assert line[0] in line && forall c <- line[1..] :: c in line;
  }

  lemma {:induction false} GrowLine(line: string, tail: string, others: seq<string>)
    requires line != "" && tail == line[1..]
    ensures [[line[0]] + ([tail] + others)[0]] + ([tail] + others)[1..] == [line] + others
  {
    assert [line[0]] + tail == line;
  }

  lemma {:induction false} NoLoneReturn(line: string, rest: seq<string>, nl: Newline, more: string)
    requires Unbroken(line) && more == Join([line] + rest, nl) && nl == "\r" && more != ""
    ensures more[0] != '\n'
  {
    if rest == [] {
      assert more == line;
    } else {
      JoinCons(line, rest, nl);
    }
    assert more[0] == if line == "" then '\r' else line[0];
    assert line != "" ==> line[0] in line;
  }

  /** Joined unbroken lines read back as those lines, every terminator being the joiner. */
  lemma {:induction false} SplitJoined(lines: seq<string>, nl: Newline, text: string)
    requires lines != [] && (forall line <- lines :: Unbroken(line)) && text == Join(lines, nl)
    ensures SplitLines(text) == lines
    ensures forall b <- Breaks(text) :: b == nl
  {
    if |lines| == 1 {
      UnbrokenIsOneLine(lines[0]);
    } else {
      var line, rest := lines[0], lines[1..];
      var more := Join(rest, nl);
      assert line in lines && forall other <- rest :: other in lines;
      SplitJoined(rest, nl, more);
      assert rest[0] in lines && rest == [rest[0]] + rest[1..];
      if nl == "\r" && more != "" { NoLoneReturn(rest[0], rest[1..], nl, more); }
      PeelLine(line, nl, more, text);
      assert lines == [line] + rest;
    }
  }

  // ---- Which terminator is detected ----

  lemma {:induction false} DetectedAmongBreaks(text: string)
    ensures IncludesCrLf(text) <==> CRLF in Breaks(text)
    ensures '\r' in text <==> CRLF in Breaks(text) || "\r" in Breaks(text)
    decreases |text|
  {
    if text == "" {
    } else {
      var skip := if LineBreak(text[0]) then |BreakAt(text)| else 1;
      var tail := text[skip..];
      DetectedAmongBreaks(tail);
      assert text == text[..skip] + tail;
      assert '\r' in text <==> text[0] == '\r' || '\r' in tail;
      CrLfAtFront(text, skip);
    }
  }

  lemma {:induction false} CrLfAtFront(text: string, skip: nat)
    requires text != "" && skip == if LineBreak(text[0]) then |BreakAt(text)| else 1
    ensures IncludesCrLf(text) <==> (LineBreak(text[0]) && BreakAt(text) == CRLF) || IncludesCrLf(text[skip..])
  {
  }

  lemma {:induction false} DetectUniform(text: string, nl: Newline)
    requires Breaks(text) != [] && forall b <- Breaks(text) :: b == nl
    ensures DetectNewline(text) == nl
  {
    DetectedAmongBreaks(text);
    assert Breaks(text)[0] in Breaks(text);
  }

  /** The lines end in an empty one, after a break. */
  predicate EndsEmpty(lines: seq<string>) { |lines| > 1 && lines[|lines| - 1] == "" }

  lemma {:induction false} EndsConsBreak(lines: seq<string>, tail: string)
    requires lines == SplitLines(tail)
    ensures EndsEmpty([""] + lines) <==> tail == "" || EndsEmpty(lines)
  {
    if lines == [""] && tail != "" { JoinLines(tail, "\n", lines, Breaks(tail)); }
  }

  lemma {:induction false} EndsConsChar(c: char, lines: seq<string>)
    requires lines != []
    ensures EndsEmpty([[c] + lines[0]] + lines[1..]) <==> EndsEmpty(lines)
  {
  }

  lemma {:induction false} EndsTail(text: string, skip: nat)
    requires 0 < skip <= |text|
    ensures text[skip..] != "" ==> (EndsWithNewline(text) <==> EndsWithNewline(text[skip..]))
  {
  }

  /** A terminator alone is one break. */
  lemma {:induction false} WholeBreak(text: string)
    requires text != "" && LineBreak(text[0]) && text[|BreakAt(text)|..] == ""
    ensures EndsWithNewline(text)
  {
  }

  lemma {:induction false} EndsAfterBreak(text: string)
    ensures EndsWithNewline(text) <==> EndsEmpty(SplitLines(text))
    decreases |text|
  {
    if text == "" {
    } else if LineBreak(text[0]) {
      var tail := text[|BreakAt(text)|..];
      EndsAfterBreak(tail);
      EndsTail(text, |BreakAt(text)|);
      EndsConsBreak(SplitLines(tail), tail);
      if tail == "" { WholeBreak(text); }
      assert SplitLines(text) == [""] + SplitLines(tail);
    } else {
      var tail := text[1..];
      EndsAfterBreak(tail);
      EndsTail(text, 1);
      EndsConsChar(text[0], SplitLines(tail));
      PeelChar(text, tail, SplitLines(tail));
    }
  }

  /** Dropping the empty tail and writing a final terminator is joining all the lines. */
  lemma {:induction false} RewrittenIsJoined(text: string)
    ensures Rewritten(text) == Join(SplitLines(text), DetectNewline(text))
  {
    EndsAfterBreak(text);
    RenderIsJoined(SplitLines(text), DetectNewline(text));
  }

  lemma {:induction false} RenderIsJoined(lines: seq<string>, nl: Newline)
    requires lines != []
    ensures |lines| > 1 && lines[|lines| - 1] == "" ==> Render(lines[..|lines| - 1], nl, true) == Join(lines, nl)
    ensures Render(lines, nl, false) == Join(lines, nl)
  {
    if |lines| > 1 && lines[|lines| - 1] == "" {
      var kept := lines[..|lines| - 1];
      JoinConcat(kept, [""], nl);
      assert lines == kept + [""];
      assert Join(kept, nl) + nl + "" == Join(kept, nl) + nl;
    }
    assert Join(lines, nl) + "" == Join(lines, nl);
  }

  /** Every line terminator of the document is the one that will be written. */
  predicate Uniform(text: string) {
    forall b <- Breaks(text) :: b == DetectNewline(text)
  }

  /** Writing an unedited document gives it back byte for byte exactly when its terminators are uniform. */
  lemma {:induction false} RewritingIsIdentityExactlyWhenUniform(text: string)
    ensures Rewritten(text) == text <==> Uniform(text)
  {
    var nl := DetectNewline(text);
    RewrittenIsJoined(text);
    if Uniform(text) { JoinLines(text, nl, SplitLines(text), Breaks(text)); }
    LinesUnbroken(text);
    SplitJoined(SplitLines(text), nl, Join(SplitLines(text), nl));
  }

  /** Whatever was typed, the session's text is uniform: loading and writing it again changes nothing. */
  lemma {:induction false} RenderedIsStable(lines: seq<string>, nl: Newline, ends: bool)
    requires lines != [] && forall line <- lines :: Unbroken(line)
    ensures Rewritten(Render(lines, nl, ends)) == Render(lines, nl, ends)
  {
    var text := Render(lines, nl, ends);
    var all := if ends then lines + [""] else lines;
    if ends {
      JoinConcat(lines, [""], nl);
      assert Join(lines, nl) + nl + "" == text;
    } else {
      assert text == Join(lines, nl);
    }
    SplitJoined(all, nl, text);
    if Breaks(text) != [] { DetectUniform(text, nl); }
    RewritingIsIdentityExactlyWhenUniform(text);
  }

  // ---- Every session ----

  function Session(seg: Segmenter, hunks: Hunks, text: string, cursorLine: int, keys: seq<Key>): (b: Buffer)
    ensures InBounds(b)
  {
    if keys == [] then LoadBuffer(text, cursorLine)
    else
      var before := Session(seg, hunks, text, cursorLine, keys[..|keys| - 1]);
      KeyStaysInBounds(seg, hunks, before, keys[|keys| - 1]);
      OnKey(seg, hunks, before, keys[|keys| - 1]).0
  }

  /** No line of a document of `n` lines lies in two hunks. */
  ghost predicate Disjoint(hunks: Hunks, n: nat) {
    forall i, j, source | 0 <= i < j < |hunks| && 1 <= source <= n ::
      !(hunks[i].Holds(source) && hunks[j].Holds(source))
  }

  lemma {:induction false} FlattenRows(rows: seq<seq<int>>, from: int)
    requires forall i | 0 <= i < |rows| :: rows[i] == [from + i]
    ensures |Flatten(rows)| == |rows| && forall i | 0 <= i < |rows| :: Flatten(rows)[i] == from + i
  {
    if rows == [] {
    } else {
      FlattenRows(rows[1..], from + 1);
    }
  }

  lemma {:induction false} LoadedInv(seg: Segmenter, text: string, cursorLine: int)
    ensures Inv(seg, |SplitDocumentLines(text)|, LoadBuffer(text, cursorLine))
  {
    var b := LoadBuffer(text, cursorLine);
    LoadedRows(|b.lines|);
    LinesUnbroken(text);
    forall line <- b.lines ensures Unbroken(line) { assert line in SplitLines(text); }
    CaretsAreBoundaries(seg, b.lines[b.line], 0);
  }

  lemma {:induction false} LoadedRows(n: nat)
    ensures Flatten(OwnRows(n)) == UpTo(n)
  {
    FlattenRows(OwnRows(n), 1);
  }

  lemma {:induction false} LoadedOwners(hunks: Hunks, text: string, cursorLine: int)
    requires Disjoint(hunks, |SplitDocumentLines(text)|)
    ensures Owned(hunks, LoadBuffer(text, cursorLine).provenance)
  {
    var rows := LoadBuffer(text, cursorLine).provenance;
    forall row <- rows ensures Single(hunks, row) {
      var i :| 0 <= i < |rows| && row == rows[i];
      OneLineOneOwner(hunks, |rows|, i + 1);
    }
  }

  lemma {:induction false} OneLineOneOwner(hunks: Hunks, n: nat, source: int)
    requires Disjoint(hunks, n) && 1 <= source <= n
    ensures Single(hunks, [source])
  {
    var owners := Owners(hunks, [source]);
    if owners != {} {
      var i :| i in owners;
      forall j <- owners ensures j == i { assert hunks[i].Holds(source) && hunks[j].Holds(source); }
      assert owners == {i};
    }
  }

  /**
   * For every run of keys on any document: provenance lists each document line on exactly one row and in order,
   * the caret stands on a boundary of an existing line, and lines hold no breaks. When the hunks share no line of
   * the document, no row ever belongs to two of them.
   */
  lemma {:induction false} SessionKeeps(seg: Segmenter, hunks: Hunks, text: string, cursorLine: int, keys: seq<Key>)
    ensures var b := Session(seg, hunks, text, cursorLine, keys);
            && Inv(seg, |SplitDocumentLines(text)|, b)
            && (Disjoint(hunks, |SplitDocumentLines(text)|) ==> Owned(hunks, b.provenance))
  {
    if keys == [] {
      LoadedInv(seg, text, cursorLine);
      if Disjoint(hunks, |SplitDocumentLines(text)|) { LoadedOwners(hunks, text, cursorLine); }
    } else {
      var init := keys[..|keys| - 1];
      SessionKeeps(seg, hunks, text, cursorLine, init);
      KeyKeeps(seg, hunks, |SplitDocumentLines(text)|, Session(seg, hunks, text, cursorLine, init), keys[|keys| - 1]);
    }
  }

  /** In any session over hunks that share no line of the document, backspace undoes Enter: lines, provenance and caret. */
  lemma {:induction false} SessionSplitUndone(
    seg: Segmenter, hunks: Hunks, text: string, cursorLine: int, keys: seq<Key>)
    requires Disjoint(hunks, |SplitDocumentLines(text)|)
    ensures InBounds(SplitLine(seg, Session(seg, hunks, text, cursorLine, keys)))
    ensures var b := Session(seg, hunks, text, cursorLine, keys);
            DeleteBackwards(seg, hunks, SplitLine(seg, b)) == b
  {
    var b := Session(seg, hunks, text, cursorLine, keys);
    SessionKeeps(seg, hunks, text, cursorLine, keys);
    assert b.provenance[b.line] in b.provenance;
    SplitStaysInBounds(seg, b);
    SplitThenBackspace(seg, hunks, |SplitDocumentLines(text)|, b);
  }

  /** Whatever was typed into whatever document, the text a session would write loads and writes back unchanged. */
  lemma {:induction false} SessionTextIsStable(
      seg: Segmenter, hunks: Hunks, text: string, cursorLine: int, keys: seq<Key>)
    ensures var b := Session(seg, hunks, text, cursorLine, keys);
            var written := Render(b.lines, DetectNewline(text), EndsWithNewline(text));
            Rewritten(written) == written
  {
    SessionKeeps(seg, hunks, text, cursorLine, keys);
    RenderedIsStable(Session(seg, hunks, text, cursorLine, keys).lines, DetectNewline(text), EndsWithNewline(text));
  }
}
