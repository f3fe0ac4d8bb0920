/** What each key does to the document, in terms of its flat text and the caret's offset. */
module EditKeys {
  import opened Wrappers
  import opened Graphemes
  import opened EditBuffer
  import opened EditDocument
  import opened EditFlat

  // ---- Which key it is ----

  /** Keys the host keeps for itself: hunk navigation, help and quit. */
  predicate HostOwned(key: Key) { key.sequence == "]" || key.sequence == "?" || key.sequence == "q" }

  /** A key the editor may act on. */
  predicate ForEditor(key: Key) { !key.isSave && !HostOwned(key) }

  predicate Arrow(key: Key) { key.name == "up" || key.name == "down" || key.name == "left" || key.name == "right" }

  predicate IsEnterKey(key: Key) { ForEditor(key) && key.isEnter && !Arrow(key) && key.name != "backspace" }

  predicate IsBackspaceKey(key: Key) { ForEditor(key) && key.name == "backspace" }

  predicate IsArrowKey(key: Key, name: string) { ForEditor(key) && key.name == name }

  /** No modifier, and a sequence of one grapheme that is no control character. */
  predicate Types(seg: Segmenter, key: Key) {
    && !key.ctrl && !key.meta && !key.option && |seg(key.sequence)| == 1
    && key.sequence != "" && key.sequence[0] >= ' ' && key.sequence[0] != '\U{7f}'
  }

  predicate IsTypingKey(seg: Segmenter, key: Key) {
    ForEditor(key) && !Arrow(key) && key.name != "backspace" && !key.isEnter && Types(seg, key)
  }

  lemma {:induction false} TypesPrints(seg: Segmenter, key: Key)
    ensures PrintableCharacter(seg, key) == if Types(seg, key) then Some(key.sequence) else None
  {
    if |seg(key.sequence)| == 1 { assert WellSegmented(key.sequence, seg(key.sequence)); }
  }

  // ---- What it does ----

  /** Enter inserts the document's terminator at the offset and moves past it. */
  lemma {:induction false} EnterInserts(seg: Segmenter, hunks: Hunks, b: Buffer, key: Key, nl: Newline)
    requires InBounds(b) && IsEnterKey(key)
    ensures var (b', answer) := OnKey(seg, hunks, b, key);
            && answer.Edited? && InBounds(b')
            && Replaced(Flat(b, nl), Offset(b, nl), Offset(b, nl), nl, Flat(b', nl))
            && Offset(b', nl) == Offset(b, nl) + |nl|
  {
    SplitIsFlatNewline(seg, b, nl);
    SplitMovesPast(seg, b, nl);
  }

  lemma {:induction false} BackspaceIs(seg: Segmenter, hunks: Hunks, b: Buffer, key: Key)
    requires InBounds(b) && IsBackspaceKey(key)
    ensures OnKey(seg, hunks, b, key) == (DeleteBackwards(seg, hunks, b), Edited)
  {
  }

  /** Inside a line, backspace removes the grapheme before the offset. */
  lemma {:induction false} BackspaceErasesGrapheme(seg: Segmenter, hunks: Hunks, b: Buffer, key: Key, nl: Newline)
    requires InBounds(b) && IsBackspaceKey(key) && b.column > 0
    ensures var (b', answer) := OnKey(seg, hunks, b, key);
            var o := Offset(b, nl);
            && answer.Edited?
            && Replaced(Flat(b, nl), o - b.column + Previous(seg, b.lines[b.line], b.column), o, "", Flat(b', nl))
  {
    BackspaceIs(seg, hunks, b, key);
    BackspaceIsFlatErasure(seg, hunks, b, nl);
  }

  /** `after` is `flat` without the text `what`, which stood from `from` to `to`. */
  predicate Removed(flat: string, from: int, to: int, what: string, after: string) {
    Replaced(flat, from, to, "", after) && flat[from..to] == what
  }

  /** At the start of a line it removes the terminator before the offset, if one hunk at most owns the two lines. */
  lemma {:induction false} BackspaceErasesTerminator(seg: Segmenter, hunks: Hunks, b: Buffer, key: Key, nl: Newline)
    requires InBounds(b) && IsBackspaceKey(key) && b.column == 0 && b.line > 0
    requires |Owners(hunks, MergedSources(b))| <= 1
    ensures var (b', answer) := OnKey(seg, hunks, b, key);
            var o := Offset(b, nl);
            && answer.Edited?
            && Removed(Flat(b, nl), o - |nl|, o, nl, Flat(b', nl))
  {
    BackspaceIs(seg, hunks, b, key);
    JoinIsFlatErasure(seg, hunks, b, nl);
  }

  /** At the start of the document, or where the join is refused, it changes nothing. */
  lemma {:induction false} BackspaceDoesNothing(seg: Segmenter, hunks: Hunks, b: Buffer, key: Key)
    requires InBounds(b) && IsBackspaceKey(key) && b.column == 0
    requires b.line == 0 || |Owners(hunks, MergedSources(b))| > 1
    ensures OnKey(seg, hunks, b, key) == (b, Edited)
  {
    BackspaceIs(seg, hunks, b, key);
  }

  /** A printable key inserts its own sequence at the offset. */
  lemma {:induction false} TypingInserts(seg: Segmenter, hunks: Hunks, b: Buffer, key: Key, nl: Newline)
    requires InBounds(b) && IsTypingKey(seg, key)
    ensures var (b', answer) := OnKey(seg, hunks, b, key);
            && answer.Edited? && InBounds(b') && b'.line == b.line
            && Replaced(Flat(b, nl), Offset(b, nl), Offset(b, nl), key.sequence, Flat(b', nl))
            && Offset(b', nl) <= Offset(b, nl) + |key.sequence|
            && (Offset(b', nl) == Offset(b, nl) + |key.sequence|
                <==> Boundary(seg, b'.lines[b'.line], b.column + |key.sequence|))
  {
    TypesPrints(seg, key);
    InsertIsFlatInsertion(seg, b, key.sequence, nl);
    InsertMovesPast(seg, b, key.sequence, nl);
    InsertStaysOnLine(seg, b, key.sequence);
  }

  lemma {:induction false} InsertStaysOnLine(seg: Segmenter, b: Buffer, text: string)
    requires InBounds(b)
    ensures InsertText(seg, b, text).line == b.line
  {
  }

  /** Up and down move to the next line that way, if there is one, and keep the grapheme column or the line's end. */
  lemma {:induction false} VerticalKeyMoves(seg: Segmenter, hunks: Hunks, b: Buffer, key: Key)
    requires InBounds(b) && (IsArrowKey(key, "up") || IsArrowKey(key, "down"))
    ensures var (b', answer) := OnKey(seg, hunks, b, key);
            && answer.Edited? && b'.lines == b.lines && b'.provenance == b.provenance && InBounds(b')
            && (key.name == "up" ==> b'.line == if b.line > 0 then b.line - 1 else 0)
            && (key.name == "down" ==> b'.line == if b.line + 1 < |b.lines| then b.line + 1 else b.line)
            && b'.column == AtColumn(seg, b.lines[b'.line], Column(seg, b.lines[b.line], b.column))
  {
    MoveStaysInBounds(seg, b, if key.name == "up" then Up else Down);
  }

  /** Right moves the offset on by one grapheme, or past the terminator, and at the end of the document not at all. */
  lemma {:induction false} RightKeyMoves(seg: Segmenter, hunks: Hunks, b: Buffer, key: Key, nl: Newline)
    requires InBounds(b) && Boundary(seg, b.lines[b.line], b.column) && IsArrowKey(key, "right")
    ensures var (b', answer) := OnKey(seg, hunks, b, key);
            var line := b.lines[b.line];
            && answer.Edited? && b'.lines == b.lines && b'.provenance == b.provenance && InBounds(b')
            && Offset(b', nl) == Offset(b, nl)
                                 + (if b.column < |line| then Following(seg, line, b.column) - b.column
                                    else if b.line + 1 < |b.lines| then |nl| else 0)
  {
    MoveStaysInBounds(seg, b, Right);
    if b.column < |b.lines[b.line]| {
      RightInLine(seg, b, nl);
    } else if b.line + 1 < |b.lines| {
      RightToNextLine(seg, b, nl);
    } else {
      EndStays(seg, b);
    }
  }

  /** Left moves it back by one grapheme, or before the terminator, and at the start of the document not at all. */
  lemma {:induction false} LeftKeyMoves(seg: Segmenter, hunks: Hunks, b: Buffer, key: Key, nl: Newline)
    requires InBounds(b) && Boundary(seg, b.lines[b.line], b.column) && IsArrowKey(key, "left")
    ensures var (b', answer) := OnKey(seg, hunks, b, key);
            var line := b.lines[b.line];
            && answer.Edited? && b'.lines == b.lines && b'.provenance == b.provenance && InBounds(b')
            && Offset(b', nl) == Offset(b, nl)
                                 - (if b.column > 0 then b.column - Previous(seg, line, b.column)
                                    else if b.line > 0 then |nl| else 0)
  {
    MoveStaysInBounds(seg, b, Left);
    if b.column > 0 {
      StepLeft(seg, b, Previous(seg, b.lines[b.line], b.column));
    } else if b.line > 0 {
      OverLeft(seg, b);
      LineAbove(b, nl);
    } else {
      StartStays(seg, b);
    }
  }

  lemma {:induction false} EndStays(seg: Segmenter, b: Buffer)
    requires InBounds(b) && b.column == |b.lines[b.line]| && b.line + 1 == |b.lines|
    ensures MoveCursor(seg, b, Right) == b
  {
  }

  lemma {:induction false} StartStays(seg: Segmenter, b: Buffer)
    requires InBounds(b) && b.column == 0 && b.line == 0
    ensures MoveCursor(seg, b, Left) == b
  {
    CaretsAreBoundaries(seg, b.lines[0], 0);
    ClampSettles(seg, b);
  }

  // ---- Which document lines the rows present ----

  lemma {:induction false} TwoForOne<T>(items: seq<T>, at: nat, x: T, y: T, all: seq<T>)
    requires at < |items| && all == items[..at] + [x, y] + items[at + 1..]
    ensures |all| == |items| + 1 && all[at] == x && all[at + 1] == y
    ensures forall r | 0 <= r < at :: all[r] == items[r]
    ensures forall r | at + 1 < r < |all| :: all[r] == items[r - 1]
  {
  }

  lemma {:induction false} PartedShape(seg: Segmenter, b: Buffer)
    requires InBounds(b)
    ensures SplitLine(seg, b).provenance
            == b.provenance[..b.line] + [b.provenance[b.line], []] + b.provenance[b.line + 1..]
  {
    ClampSettles(seg, Parted(b));
    assert SplitLine(seg, b) == ClampCursor(seg, Parted(b));
  }

  lemma {:induction false} EnterIs(seg: Segmenter, hunks: Hunks, b: Buffer, key: Key)
    requires InBounds(b) && IsEnterKey(key)
    ensures OnKey(seg, hunks, b, key) == (SplitLine(seg, b), Edited)
  {
  }

  /** Enter leaves the document lines of the row with its first half; the second half presents none. */
  lemma {:induction false} EnterKeepsSources(seg: Segmenter, hunks: Hunks, b: Buffer, key: Key)
    requires InBounds(b) && IsEnterKey(key)
    ensures var b' := OnKey(seg, hunks, b, key).0;
            && |b'.provenance| == |b.provenance| + 1
            && b'.provenance[b.line] == b.provenance[b.line] && b'.provenance[b.line + 1] == []
            && (forall r | 0 <= r < b.line :: b'.provenance[r] == b.provenance[r])
            && forall r | b.line + 1 < r < |b'.provenance| :: b'.provenance[r] == b.provenance[r - 1]
  {
    EnterIs(seg, hunks, b, key);
    PartedShape(seg, b);
    TwoForOne(b.provenance, b.line, b.provenance[b.line], [], SplitLine(seg, b).provenance);
  }

  /** A join puts the document lines of both rows on one, and moves the rows below up. */
  lemma {:induction false} JoinMergesSources(seg: Segmenter, hunks: Hunks, b: Buffer, key: Key)
    requires InBounds(b) && IsBackspaceKey(key) && b.column == 0 && b.line > 0
    requires |Owners(hunks, MergedSources(b))| <= 1
    ensures var b' := OnKey(seg, hunks, b, key).0;
            && |b'.provenance| == |b.provenance| - 1 && b'.line == b.line - 1
            && (forall r | 0 <= r < b.line - 1 :: b'.provenance[r] == b.provenance[r])
            && b'.provenance[b.line - 1] == b.provenance[b.line - 1] + b.provenance[b.line]
            && forall r | b.line <= r < |b'.provenance| :: b'.provenance[r] == b.provenance[r + 1]
  {
    BackspaceIs(seg, hunks, b, key);
    JoinTaken(seg, hunks, b);
    JoinedShape(seg, b);
  }

  lemma {:induction false} JoinedShape(seg: Segmenter, b: Buffer)
    requires InBounds(b) && b.line > 0
    ensures InBounds(Joined(b)) && ClampCursor(seg, Joined(b)).provenance == Joined(b).provenance
    ensures ClampCursor(seg, Joined(b)).line == b.line - 1
    ensures Joined(b).provenance == b.provenance[..b.line - 1] + [MergedSources(b)] + b.provenance[b.line + 1..]
  {
    ClampSettles(seg, Joined(b));
  }

  /** No other key changes what the rows present. */
  lemma {:induction false} OtherKeysKeepSources(seg: Segmenter, hunks: Hunks, b: Buffer, key: Key)
    requires InBounds(b) && !IsEnterKey(key) && !(IsBackspaceKey(key) && b.column == 0)
    ensures OnKey(seg, hunks, b, key).0.provenance == b.provenance
  {
    TypesPrints(seg, key);
    if IsBackspaceKey(key) {
      BackspaceIs(seg, hunks, b, key);
      EraseTaken(seg, hunks, b);
    }
  }

  // ---- How it is answered ----

  /** The editor acts on the key. */
  predicate Acts(seg: Segmenter, key: Key) {
    ForEditor(key) && (Arrow(key) || key.name == "backspace" || key.isEnter || Types(seg, key))
  }

  /** Save and passed keys leave the buffer alone, and are exactly the save key and the keys the editor has no use for. */
  lemma {:induction false} KeyAnswers(seg: Segmenter, hunks: Hunks, b: Buffer, key: Key)
    requires InBounds(b)
    ensures var (b', answer) := OnKey(seg, hunks, b, key);
            && (answer.SaveRequested? <==> key.isSave)
            && (answer.Edited? <==> Acts(seg, key))
            && (!answer.Edited? ==> b' == b)
  {
    TypesPrints(seg, key);
  }
}
