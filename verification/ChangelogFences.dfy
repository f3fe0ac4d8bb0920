/** What opens and closes a fence in changelog Markdown, and what a fence hides, in terms of the lines alone. */
module ChangelogFences {
  import opened Text
  import opened Wrappers
  import opened ChangelogBlocks

  predicate FenceChar(c: char) { c == '`' || c == '~' }

  /** Blanks and then three or more of the character, whatever follows. */
  ghost predicate FenceLine(line: string, c: char) {
    FenceChar(c) && exists n: nat | n + 3 <= |line| :: AllBlank(line[..n]) && line[n..n + 3] == [c, c, c]
  }

  /** The line neither opens nor closes any fence. */
  ghost predicate NoFence(line: string) { forall c :: !FenceLine(line, c) }

  predicate AllBlank(text: string) { forall c <- text :: Blank(c) }

  lemma {:induction false} StartAfter(line: string, n: nat)
    requires n < |line| && AllBlank(line[..n]) && !Blank(line[n])
    ensures TrimStart(line) == line[n..]
  {
    if n == 0 {
      assert line[0..] == line;
    } else {
      assert line[0] in line[..n];
      var rest := line[1..];
      assert rest[..n - 1] == line[..n][1..] && rest[n - 1..] == line[n..];
      assert forall c <- rest[..n - 1] :: c in line[..n];
      StartAfter(rest, n - 1);
    }
  }

  /** Leading white space is some number of blanks. */
  lemma {:induction false} StartIsAfter(line: string) returns (n: nat)
    ensures n <= |line| && TrimStart(line) == line[n..] && AllBlank(line[..n])
  {
    if line != "" && Blank(line[0]) {
      var m := StartIsAfter(line[1..]);
      n := m + 1;
      assert line[..n] == [line[0]] + line[1..][..m] && line[n..] == line[1..][m..];
    } else {
      n := 0;
      assert line[0..] == line;
    }
  }

  lemma {:induction false} ThreeStart(text: string, c: char)
    ensures StartsWith(text, [c, c, c]) <==> |text| >= 3 && text[..3] == [c, c, c]
  {
  }

  /** A line that is a fence of one character is none of the other. */
  lemma {:induction false} FenceReads(line: string, c: char)
    requires FenceLine(line, c)
    ensures Delimiter(line) == Some(c)
  {
    var n: nat :| n + 3 <= |line| && AllBlank(line[..n]) && line[n..n + 3] == [c, c, c];
    assert line[n..n + 3][0] == c && !Blank(c);
    StartAfter(line, n);
    assert line[n..][..3] == [c, c, c];
    ThreeStart(line[n..], c);
    assert line[n..][0] == c;
  }

  lemma {:induction false} DelimiterIsFence(line: string, c: char)
    requires Delimiter(line) == Some(c)
    ensures FenceLine(line, c)
  {
    var n := StartIsAfter(line);
    ThreeStart(line[n..], c);
    assert line[n..][..3] == line[n..n + 3];
  }

  /** A delimiter is exactly such a line. */
  lemma {:induction false} DelimiterExactly(line: string, c: char)
    ensures Delimiter(line) == Some(c) <==> FenceLine(line, c)
  {
    if FenceLine(line, c) { FenceReads(line, c); }
    if Delimiter(line) == Some(c) { DelimiterIsFence(line, c); }
  }

  // ---- Which lines are outside ----

  /** An opening line of one character, and lines up to the end none of which closes it. */
  ghost predicate OpenFrom(lines: seq<string>, o: nat, c: char)
    requires o <= |lines|
  {
    o < |lines| && FenceLine(lines[o], c) && forall i | o < i < |lines| :: !FenceLine(lines[i], c)
  }

  /**
   * The lines leave no fence open: they end with a line that is no fence after lines that leave none open, or with the
   * line that closes the fence opened after lines that leave none open.
   */
  ghost predicate Quiet(lines: seq<string>)
    decreases |lines|
  {
    lines == [] ||
    var init, last := lines[..|lines| - 1], lines[|lines| - 1];
    || (Quiet(init) && NoFence(last))
    || (exists o: nat, c | o < |init| :: Quiet(init[..o]) && OpenFrom(init, o, c) && FenceLine(last, c))
  }

  /** The lines leave open a fence of the character. */
  ghost predicate LeavesOpen(lines: seq<string>, c: char) {
    exists o: nat | o < |lines| :: Quiet(lines[..o]) && OpenFrom(lines, o, c)
  }

  /** Inside a fence, only a fence of its own character matters. */
  lemma {:induction false} ScanInside(lines: seq<string>, o: nat, c: char)
    requires o < |lines| && Scan(None, lines[..o]).None? && OpenFrom(lines, o, c)
    ensures Scan(None, lines) == Some(c)
    decreases |lines|
  {
    var init, last := lines[..|lines| - 1], lines[|lines| - 1];
    if o == |lines| - 1 {
      DelimiterExactly(last, c);
    } else {
      assert init[..o] == lines[..o];
      ScanInside(init, o, c);
      DelimiterExactly(last, c);
    }
  }

  lemma {:induction false} QuietScans(lines: seq<string>)
    requires Quiet(lines)
    ensures Scan(None, lines).None?
    decreases |lines|
  {
    if lines == [] {
    } else {
      var init, last := lines[..|lines| - 1], lines[|lines| - 1];
      if o: nat, c :| o < |init| && Quiet(init[..o]) && OpenFrom(init, o, c) && FenceLine(last, c) {
        QuietScans(init[..o]);
        ScanInside(init, o, c);
        DelimiterExactly(last, c);
      } else {
        QuietScans(init);
        if Delimiter(last).Some? { DelimiterIsFence(last, Delimiter(last).value); }
      }
    }
  }

  lemma {:induction false} ScansQuiet(lines: seq<string>)
    ensures Scan(None, lines).None? ==> Quiet(lines)
    ensures Scan(None, lines).Some? ==> LeavesOpen(lines, Scan(None, lines).value)
    decreases |lines|
  {
    if lines == [] {
    } else {
      var init, last := lines[..|lines| - 1], lines[|lines| - 1];
      ScansQuiet(init);
      var fence := Scan(None, init);
      if fence.None? {
        LineAfterQuiet(init, last, lines);
      } else {
        LineInside(init, last, lines, fence.value);
      }
    }
  }

  lemma {:induction false} LineAfterQuiet(init: seq<string>, last: string, lines: seq<string>)
    requires lines == init + [last] && Scan(None, init).None? && Quiet(init)
    ensures Scan(None, lines).None? ==> Quiet(lines)
    ensures Scan(None, lines).Some? ==> LeavesOpen(lines, Scan(None, lines).value)
  {
    ScanPush(None, init, last);
    assert lines[..|init|] == init;
    if Delimiter(last).Some? {
      DelimiterIsFence(last, Delimiter(last).value);
      assert OpenFrom(lines, |init|, Delimiter(last).value);
    } else {
      forall c ensures !FenceLine(last, c) { DelimiterExactly(last, c); }
      assert NoFence(last);
    }
  }

  lemma {:induction false} LineInside(init: seq<string>, last: string, lines: seq<string>, c: char)
    requires lines == init + [last] && Scan(None, init) == Some(c) && LeavesOpen(init, c)
    ensures Scan(None, lines).None? ==> Quiet(lines)
    ensures Scan(None, lines).Some? ==> LeavesOpen(lines, Scan(None, lines).value)
  {
    ScanPush(None, init, last);
    DelimiterExactly(last, c);
    var o: nat :| o < |init| && Quiet(init[..o]) && OpenFrom(init, o, c);
    assert lines[..|init|] == init && lines[..o] == init[..o];
    if !FenceLine(last, c) {
      assert OpenFrom(lines, o, c);
    }
  }

  /** No fence is open after the lines exactly when they are quiet. */
  lemma {:induction false} QuietExactly(lines: seq<string>)
    ensures Scan(None, lines).None? <==> Quiet(lines)
  {
    if Quiet(lines) { QuietScans(lines); }
    ScansQuiet(lines);
  }

  /** The headings of a split are exactly the lines with the marker up to which the lines are quiet. */
  lemma {:induction false} HeadingsOutsideFences(lines: seq<string>, marker: string, i: nat)
    ensures i in Headings(lines, marker) <==> i < |lines| && StartsWith(lines[i], marker) && Quiet(lines[..i + 1])
  {
    HeadingsExact(lines, marker, i);
    if i < |lines| { QuietExactly(lines[..i + 1]); }
  }

  // ---- What a fence hides ----

  /**
   * A fence after quiet lines: neither the line that opens it nor any line inside it is a heading or starts an entry,
   * whatever the marker; and right after the line that closes it, a line with the marker is one.
   */
  lemma {:induction false} FenceHides(
    before: seq<string>, open: string, inside: seq<string>, close: string, after: seq<string>, c: char, marker: string,
    lines: seq<string>)
    requires lines == before + [open] + inside + [close] + after
    requires Quiet(before) && FenceLine(open, c) && FenceLine(close, c) && forall line <- inside :: !FenceLine(line, c)
    ensures forall i | |before| <= i <= |before| + |inside| :: i !in Headings(lines, marker)
    ensures after != [] && StartsWith(after[0], marker) && NoFence(after[0]) ==>
              |before| + |inside| + 2 in Headings(lines, marker)
  {
    var o, n := |before|, |before| + |inside| + 1;
    FenceShape(before, open, inside, close, after, c, lines);
    FenceHidesAt(lines, o, n, c, marker);
    assert after != [] ==> lines[n + 1] == lines[n + 1..][0];
  }

  /** The same by the places of the two lines. */
  lemma {:induction false} FenceHidesAt(lines: seq<string>, o: nat, n: nat, c: char, marker: string)
    requires o < n < |lines| && Quiet(lines[..o]) && FenceLine(lines[o], c) && FenceLine(lines[n], c)
    requires forall j | o < j < n :: !FenceLine(lines[j], c)
    ensures forall i | o <= i < n :: i !in Headings(lines, marker)
    ensures n + 1 < |lines| && StartsWith(lines[n + 1], marker) && NoFence(lines[n + 1]) ==>
              n + 1 in Headings(lines, marker)
  {
    forall i | o <= i < n ensures i !in Headings(lines, marker) { InsideHidden(lines, o, i, c, marker); }
    FenceCloses(lines, o, n, c);
    if n + 1 < |lines| && StartsWith(lines[n + 1], marker) && NoFence(lines[n + 1]) {
      QuietPush(lines, n);
      HeadingsOutsideFences(lines, marker, n + 1);
    }
  }

  lemma {:induction false} FenceShape(
    before: seq<string>, open: string, inside: seq<string>, close: string, after: seq<string>, c: char,
    lines: seq<string>)
    requires lines == before + [open] + inside + [close] + after && forall line <- inside :: !FenceLine(line, c)
    ensures var o, n := |before|, |before| + |inside| + 1;
            && n < |lines| && lines[..o] == before && lines[o] == open && lines[n] == close && lines[n + 1..] == after
            && forall j | o < j < n :: !FenceLine(lines[j], c)
  {
    var o, n := |before|, |before| + |inside| + 1;
    forall j | o < j < n ensures !FenceLine(lines[j], c) {
      assert lines[j] == inside[j - o - 1] && inside[j - o - 1] in inside;
    }
  }

  lemma {:induction false} QuietPush(lines: seq<string>, n: nat)
    requires n + 1 < |lines| && Quiet(lines[..n + 1]) && NoFence(lines[n + 1])
    ensures Quiet(lines[..n + 2])
  {
    assert lines[..n + 2][..n + 1] == lines[..n + 1] && lines[..n + 2][n + 1] == lines[n + 1];
  }

  lemma {:induction false} InsideHidden(lines: seq<string>, o: nat, i: nat, c: char, marker: string)
    requires o <= i < |lines| && Quiet(lines[..o]) && FenceLine(lines[o], c)
    requires forall j | o < j <= i :: !FenceLine(lines[j], c)
    ensures i !in Headings(lines, marker)
  {
    var up := lines[..i + 1];
    assert up[..o] == lines[..o];
    QuietScans(lines[..o]);
    ScanInside(up, o, c);
    HeadingsExact(lines, marker, i);
  }

  lemma {:induction false} FenceCloses(lines: seq<string>, o: nat, n: nat, c: char)
    requires o < n < |lines| && Quiet(lines[..o]) && FenceLine(lines[o], c) && FenceLine(lines[n], c)
    requires forall j | o < j < n :: !FenceLine(lines[j], c)
    ensures Quiet(lines[..n + 1])
  {
    var up := lines[..n + 1];
    assert up[..n] == lines[..n] && up[n] == lines[n] && lines[..n][..o] == lines[..o];
    assert OpenFrom(up[..n], o, c);
  }

  // ---- The other lines of a section ----

  /** A link reference, trimmed: a bracketed name, a colon, white space and more. */
  ghost predicate Reference(text: string, name: string, gap: string, target: string) {
    && name != "" && ']' !in name && gap != "" && AllBlank(gap) && target != "" && !Blank(target[0])
    && text == "[" + name + "]:" + gap + target
  }

  lemma {:induction false} ReferenceReads(text: string, name: string, gap: string, target: string)
    requires Reference(text, name, gap, target)
    ensures var close := IndexOf(text, ']');
            && StartsWith(text, "[") && close == |name| + 1 && close + 2 < |text| && text[close + 1] == ':'
            && text[close + 2..] == gap + target
  {
    var rest := ":" + gap + target;
    assert text == ("[" + name) + [']'] + rest;
    IndexOfFirst("[" + name, ']', rest);
    assert text[..1] == "[";
  }

  /** The lines dropped from entries are exactly link references. */
  lemma {:induction false} LinkReferenceExactly(line: string)
    ensures IsLinkReference(line) <==> exists name, gap, target :: Reference(Trim(line), name, gap, target)
  {
    var text := Trim(line);
    if name, gap, target :| Reference(text, name, gap, target) {
      ReferenceReads(text, name, gap, target);
      assert gap[0] in gap;
      GapEnds(gap, target);
    }
    if IsLinkReference(line) { var name, gap, target := ReferenceParts(text); }
  }

  lemma {:induction false} GapEnds(gap: string, target: string)
    requires AllBlank(gap) && target != "" && !Blank(target[0])
    ensures TrimStart(gap + target) == target
  {
    var all := gap + target;
    assert all[..|gap|] == gap && all[|gap|..] == target && all[|gap|] == target[0];
    StartAfter(all, |gap|);
  }

  lemma {:induction false} ReferenceParts(text: string) returns (name: string, gap: string, target: string)
    requires var close := IndexOf(text, ']');
             && StartsWith(text, "[") && close > 1 && close + 2 < |text| && text[close + 1] == ':'
             && Blank(text[close + 2]) && TrimStart(text[close + 2..]) != ""
    ensures Reference(text, name, gap, target)
  {
    var close := IndexOf(text, ']');
    var rest := text[close + 2..];
    var n := StartIsAfter(rest);
    name, gap, target := text[1..close], rest[..n], rest[n..];
    assert !Blank(target[0]) && target[0] == rest[n] && rest[0] == text[close + 2];
    assert forall c <- name :: c in text[..close];
    assert text == "[" + name + "]:" + rest && rest == gap + target;
  }

  /** An indented bullet is white space, a dash or an asterisk, and a space. */
  lemma {:induction false} SubBulletExactly(line: string)
    ensures IsSubBullet(line)
            <==> exists n: nat :: 0 < n && n + 2 <= |line| && AllBlank(line[..n]) && line[n] in "-*" && line[n + 1] == ' '
  {
    var m := StartIsAfter(line);
    if n: nat :| 0 < n && n + 2 <= |line| && AllBlank(line[..n]) && line[n] in "-*" && line[n + 1] == ' ' {
      StartAfter(line, n);
    }
  }
}
