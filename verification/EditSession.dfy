/** One file's live edit session: its buffer edited in place, and its mailbox. */
module EditSession {
  import opened Wrappers
  import opened Graphemes
  import opened EditBuffer
  import opened EditDocument
  import Mailbox

  class EditSession {
    const seg: Segmenter
    const hunks: Hunks
    const newline: Newline
    const endsWithNewline: bool
    var lines: seq<string>
    var provenance: seq<seq<int>>
    var savedText: string
    var cursorLine: int
    var cursorColumn: int
    // The mailbox: a parked reader, a held request, and whether the session is over.
    var pending: bool
    var queued: Option<Mailbox.Request>
    var ended: bool

    ghost function Buf(): Buffer
      reads this
    {
      Buffer(lines, provenance, cursorLine, cursorColumn)
    }

    ghost function Box(): Mailbox.Mailbox
      reads this
    {
      Mailbox.Mailbox(pending, queued, ended)
    }

    constructor (seg: Segmenter, hunks: Hunks, text: string, cursorLine: int)
      ensures this.seg == seg && this.hunks == hunks
      ensures newline == DetectNewline(text) && endsWithNewline == EndsWithNewline(text)
      ensures Buf() == LoadBuffer(text, cursorLine) && Box() == Mailbox.EMPTY
      ensures savedText == Rewritten(text)
    {
      var loaded := SplitDocumentLines(text);
      var terminator, ends := DetectNewline(text), EndsWithNewline(text);
      this.seg, this.hunks := seg, hunks;
      newline, endsWithNewline := terminator, ends;
      lines := loaded;
      provenance := OwnRows(|loaded|);
      savedText := Render(loaded, terminator, ends);
      this.cursorLine, cursorColumn := Clamp(cursorLine, 0, |loaded| - 1), 0;
      pending, queued, ended := false, None, false;
      new;
      assert Buf() == LoadBuffer(text, cursorLine);
      assert Box() == Mailbox.EMPTY;
    }

    /** What a save would write: the lines joined by the document's own terminator. */
    method Text() returns (text: string)
      ensures text == Render(lines, newline, endsWithNewline)
      ensures lines != [] && (forall line <- lines :: Unbroken(line)) ==> Rewritten(text) == text
    {
      text := Render(lines, newline, endsWithNewline);
      if lines != [] && (forall line <- lines :: Unbroken(line)) { RenderedIsStable(lines, newline, endsWithNewline); }
    }

    method Post(request: Mailbox.Request) returns (handed: Option<Mailbox.Request>)
      modifies this`pending, this`queued, this`ended
      ensures (Box(), handed) == Mailbox.Post(old(Box()), request)
    {
      if ended { return None; }
      if request.End? { ended := true; }
      if pending {
        pending := false;
        return Some(request);
      }
      queued := if request.End? then Some(Mailbox.End) else Some(queued.GetOr(Mailbox.Save));
      handed := None;
    }

    method Next() returns (answer: Option<Mailbox.Request>)
      modifies this`pending, this`queued
      ensures (Box(), answer) == Mailbox.Next(old(Box()))
    {
      if queued.Some? {
        answer := queued;
        queued := None;
        return;
      }
      if ended { return Some(Mailbox.End); }
      pending := true;
      answer := None;
    }

    method ClampCursor()
      requires lines != []
      modifies this`cursorLine, this`cursorColumn
      ensures Buf() == EditBuffer.ClampCursor(seg, old(Buf()))
    {
      cursorLine := Clamp(cursorLine, 0, |lines| - 1);
      var line := lines[cursorLine];
      cursorColumn := SnapGraphemeBoundary(seg, line, Clamp(cursorColumn, 0, |line|));
    }

    method InsertText(text: string)
      requires InBounds(Buf())
      modifies this`lines, this`cursorLine, this`cursorColumn
      ensures Buf() == EditBuffer.InsertText(seg, old(Buf()), text)
    {
      var line := lines[cursorLine];
      lines := lines[cursorLine := line[..cursorColumn] + text + line[cursorColumn..]];
      cursorColumn := cursorColumn + |text|;
      ClampCursor();
    }

    method DeleteBackwards()
      requires InBounds(Buf())
      modifies this`lines, this`provenance, this`cursorLine, this`cursorColumn
      ensures Buf() == EditBuffer.DeleteBackwards(seg, hunks, old(Buf()))
    {
      ghost var b := Buf();
      var line := lines[cursorLine];
      if cursorColumn > 0 {
        EraseTaken(seg, hunks, b);
        var previousColumn := PreviousGraphemeBoundary(seg, line, cursorColumn);
        PreviousIsNearest(seg, line, cursorColumn);
        lines := lines[cursorLine := line[..previousColumn] + line[cursorColumn..]];
        cursorColumn := previousColumn;
        assert Buf() == Erased(seg, b);
        ClampCursor();
        return;
      }
      if cursorLine == 0 { return; }
      var mergedSources := provenance[cursorLine - 1] + provenance[cursorLine];
      if |Owners(hunks, mergedSources)| > 1 { return; }
      JoinTaken(seg, hunks, b);
      var previous := lines[cursorLine - 1];
      lines := Splice(lines, cursorLine - 1, 2, [previous + line]);
      provenance := Splice(provenance, cursorLine - 1, 2, [mergedSources]);
      cursorLine := cursorLine - 1;
      cursorColumn := |previous|;
      assert Buf() == Joined(b);
      ClampCursor();
    }

    method SplitLine()
      requires InBounds(Buf())
      modifies this`lines, this`provenance, this`cursorLine, this`cursorColumn
      ensures Buf() == EditBuffer.SplitLine(seg, old(Buf()))
    {
      var line := lines[cursorLine];
      lines := Splice(lines, cursorLine, 1, [line[..cursorColumn], line[cursorColumn..]]);
      provenance := Splice(provenance, cursorLine, 1, [provenance[cursorLine], []]);
      cursorLine := cursorLine + 1;
      cursorColumn := 0;
      ClampCursor();
    }

    method MoveCursor(towards: Direction)
      requires InBounds(Buf())
      modifies this`cursorLine, this`cursorColumn
      ensures Buf() == EditBuffer.MoveCursor(seg, old(Buf()), towards)
    {
      ghost var b := Buf();
      var line := lines[cursorLine];
      if towards.Up? || towards.Down? {
        var column := GraphemeColumn(seg, line, cursorColumn);
        cursorLine := Clamp(cursorLine + (if towards.Down? then 1 else -1), 0, |lines| - 1);
        cursorColumn := BoundaryAtGraphemeColumn(seg, lines[cursorLine], column);
        assert Buf() == Vertically(seg, b, towards.Down?);
        return;
      }
      if towards.Left? {
        if cursorColumn == 0 && cursorLine > 0 {
          cursorLine := cursorLine - 1;
          cursorColumn := |lines[cursorLine]|;
        } else {
          cursorColumn := PreviousGraphemeBoundary(seg, line, cursorColumn);
        }
        assert Buf() == Leftwards(seg, b);
        ClampCursor();
        return;
      }
      if cursorColumn >= |line| && cursorLine < |lines| - 1 {
        cursorLine := cursorLine + 1;
        cursorColumn := 0;
      } else {
        cursorColumn := NextGraphemeBoundary(seg, line, cursorColumn);
      }
      assert Buf() == Rightwards(seg, b);
      ClampCursor();
    }

    /** The mode's key handler, once the session is known to own the key's file. */
    method OnKey(key: Key) returns (answer: KeyAnswer, handed: Option<Mailbox.Request>)
      requires InBounds(Buf())
      modifies this
      ensures savedText == old(savedText) && InBounds(Buf())
      ensures (Buf(), answer) == EditBuffer.OnKey(seg, hunks, old(Buf()), key)
      ensures (Box(), handed) == if answer.SaveRequested? then Mailbox.Post(old(Box()), Mailbox.Save) else (old(Box()), None)
    {
      KeyStaysInBounds(seg, hunks, Buf(), key);
      handed := None;
      if key.isSave {
        handed := Post(Mailbox.Save);
        return SaveRequested, handed;
      }
      if key.sequence == "]" || key.sequence == "?" || key.sequence == "q" { return Passed, None; }
      if key.name == "up" { MoveCursor(Up); }
      else if key.name == "down" { MoveCursor(Down); }
      else if key.name == "left" { MoveCursor(Left); }
      else if key.name == "right" { MoveCursor(Right); }
      else if key.name == "backspace" { DeleteBackwards(); }
      else if key.isEnter { SplitLine(); }
      else {
        var character := PrintableCharacter(seg, key);
        if character.None? { return Passed, None; }
        InsertText(character.value);
      }
      answer := Edited;
    }
  }
}
