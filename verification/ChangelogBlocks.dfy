/** Splitting changelog Markdown at headings without being misled by fenced code. */
module ChangelogBlocks {
  import opened Text
  import opened Wrappers

  /** The open fence's character, if a fence is open. */
  type Fence = Option<char>

  /** The character of a fence delimiter line: white space, then three or more backticks or tildes. */
  function Delimiter(line: string): Fence {
    var text := TrimStart(line);
    if StartsWith(text, "```") then Some('`') else if StartsWith(text, "~~~") then Some('~') else None
  }

  /** The fence after a line: a delimiter opens one, and only its own character closes it. */
  function AfterLine(fence: Fence, line: string): Fence {
    var delimiter := Delimiter(line);
    if delimiter.None? then fence
    else if fence.None? then delimiter
    else if delimiter == fence then None
    else fence
  }

  /** The fence after all the lines. */
  function Scan(fence: Fence, lines: seq<string>): Fence {
    if lines == [] then fence else AfterLine(Scan(fence, lines[..|lines| - 1]), lines[|lines| - 1])
  }

  /** The last of the lines starts with the marker and lies outside any fence. */
  predicate EndsInHeading(lines: seq<string>, marker: string)
    requires lines != []
  {
    Scan(None, lines).None? && StartsWith(lines[|lines| - 1], marker)
  }

  /** A line that starts with the marker, outside any fence, in a scan of the lines from their first. */
  predicate IsHeading(lines: seq<string>, i: nat, marker: string)
    requires i < |lines|
  {
    EndsInHeading(lines[..i + 1], marker)
  }

  lemma {:induction false} ScanPush(fence: Fence, lines: seq<string>, line: string)
    ensures Scan(fence, lines + [line]) == AfterLine(Scan(fence, lines), line)
  {
    assert (lines + [line])[..|lines|] == lines;
  }

  /** `blocks.at(-1)?.push(line)`. */
  function Append(blocks: seq<seq<string>>, line: string): seq<seq<string>> {
    if blocks == [] then [] else blocks[..|blocks| - 1] + [blocks[|blocks| - 1] + [line]]
  }

  /** The blocks of lines that `splitOnHeadings` builds. */
  function Blocks(lines: seq<string>, marker: string): seq<seq<string>> {
    if lines == [] then []
    else
      var init, line := lines[..|lines| - 1], lines[|lines| - 1];
      if EndsInHeading(lines, marker) then Blocks(init, marker) + [[line[|marker|..]]]
      else Append(Blocks(init, marker), line)
  }

  function JoinBlocks(blocks: seq<seq<string>>): seq<string> {
    if blocks == [] then [] else [Join(blocks[0], "\n")] + JoinBlocks(blocks[1..])
  }

  /** One turn of the loop: the fence and the blocks after one more line. */
  lemma {:induction false} NextBlock(lines: seq<string>, i: nat, marker: string, fence: Fence, blocks: seq<seq<string>>)
    requires i < |lines| && fence == Scan(None, lines[..i]) && blocks == Blocks(lines[..i], marker)
    ensures Scan(None, lines[..i + 1]) == AfterLine(fence, lines[i])
    ensures Blocks(lines[..i + 1], marker)
            == if AfterLine(fence, lines[i]).None? && StartsWith(lines[i], marker) then blocks + [[lines[i][|marker|..]]]
               else Append(blocks, lines[i])
  {
    var more := lines[..i + 1];
    assert more == lines[..i] + [lines[i]] && more[..|more| - 1] == lines[..i];
    ScanPush(None, lines[..i], lines[i]);
  }

  /** `splitOnHeadings` as written, on the text. */
  method SplitOnHeadings(markdown: string, marker: string) returns (texts: seq<string>)
    ensures texts == JoinBlocks(Blocks(Split(markdown, '\n'), marker))
  {
    var lines := Split(markdown, '\n');
    var blocks: seq<seq<string>> := [];
    var fence: Fence := None;
    for i := 0 to |lines|
      invariant fence == Scan(None, lines[..i]) && blocks == Blocks(lines[..i], marker)
    {
      var line := lines[i];
      NextBlock(lines, i, marker, fence, blocks);
      var delimiter := Delimiter(line);
      if delimiter.Some? {
        if fence.None? { fence := delimiter; }
        else if delimiter == fence { fence := None; }
      }
      if fence.None? && StartsWith(line, marker) {
        blocks := blocks + [[line[|marker|..]]];
      } else {
        blocks := Append(blocks, line);
      }
    }
    assert lines[..|lines|] == lines;
    texts := JoinBlocks(blocks);
  }

  // ---- One scan of the lines ----

  /** Which lines are headings. */
  function Flags(lines: seq<string>, marker: string): (flags: seq<bool>)
    ensures |flags| == |lines|
  {
    if lines == [] then [] else Flags(lines[..|lines| - 1], marker) + [EndsInHeading(lines, marker)]
  }

  lemma {:induction false} FlagAt(lines: seq<string>, marker: string, i: nat)
    requires i < |lines|
    ensures Flags(lines, marker)[i] <==> IsHeading(lines, i, marker)
    decreases |lines|
  {
    var last := |lines| - 1;
    if i == last {
      assert lines[..i + 1] == lines;
    } else {
      FlagAt(lines[..last], marker, i);
      assert lines[..last][..i + 1] == lines[..i + 1];
    }
  }

  /** Where the flags are up, from one place up to another. */
  function Found(flags: seq<bool>, from: nat, end: nat): (found: seq<nat>)
    requires from <= end <= |flags|
    ensures forall i | 0 <= i < |found| :: from <= found[i] < end && flags[found[i]]
    ensures forall i, j | 0 <= i < j < |found| :: found[i] < found[j]
    ensures forall x | from <= x < end && flags[x] :: x in found
    decreases end
  {
    if from == end then []
    else Found(flags, from, end - 1) + (if flags[end - 1] then [end - 1] else [])
  }

  /** The headings of a split, in order. */
  function Headings(lines: seq<string>, marker: string): seq<nat> { Found(Flags(lines, marker), 0, |lines|) }

  /** They are exactly the lines that one scan calls headings. */
  lemma {:induction false} HeadingsExact(lines: seq<string>, marker: string, x: nat)
    ensures x in Headings(lines, marker) <==> x < |lines| && IsHeading(lines, x, marker)
  {
    if x < |lines| { FlagAt(lines, marker, x); }
  }

  lemma {:induction false} FoundPush(flags: seq<bool>, flag: bool, end: nat)
    requires end <= |flags|
    ensures Found(flags + [flag], 0, end) == Found(flags, 0, end)
  {
    if end == 0 {
    } else {
      FoundPush(flags, flag, end - 1);
    }
  }

  lemma {:induction false} HeadingsPush(lines: seq<string>, line: string, marker: string, more: seq<string>)
    requires more == lines + [line]
    ensures Headings(more, marker)
            == if EndsInHeading(more, marker) then Headings(lines, marker) + [|lines|] else Headings(lines, marker)
  {
    assert more[..|lines|] == lines;
    FoundPush(Flags(lines, marker), EndsInHeading(more, marker), |lines|);
  }

  // ---- Each block is a stretch of lines ----

  /** Where the stretch that starts at the `k`-th heading found stops. */
  function StretchEnd(found: seq<nat>, end: nat, k: nat): nat {
    if k + 1 < |found| then found[k + 1] else end
  }

  predicate IsStretch(lines: seq<string>, found: seq<nat>, end: nat, marker: string, k: nat) {
    k < |found| && found[k] < StretchEnd(found, end, k) <= |lines| && StartsWith(lines[found[k]], marker)
  }

  /** A heading without its marker, and the lines up to the next. */
  function Stretch(lines: seq<string>, found: seq<nat>, end: nat, marker: string, k: nat): seq<string>
    requires IsStretch(lines, found, end, marker, k)
  {
    [lines[found[k]][|marker|..]] + lines[found[k] + 1..StretchEnd(found, end, k)]
  }

  ghost predicate BlockIs(lines: seq<string>, found: seq<nat>, marker: string, k: nat, block: seq<string>) {
    IsStretch(lines, found, |lines|, marker, k) && block == Stretch(lines, found, |lines|, marker, k)
  }

  /** The blocks are the stretches from each heading to the next. */
  ghost predicate Sliced(lines: seq<string>, blocks: seq<seq<string>>, found: seq<nat>, marker: string) {
    |blocks| == |found| && forall k | 0 <= k < |blocks| :: BlockIs(lines, found, marker, k, blocks[k])
  }

  /** A stretch that has ended is not changed by a line after it. */
  lemma {:induction false} BlockStays(
    lines: seq<string>, line: string, found: seq<nat>, found': seq<nat>, marker: string, k: nat, block: seq<string>)
    requires BlockIs(lines, found, marker, k, block)
    requires k + 1 < |found'| && found'[k] == found[k] && found'[k + 1] == StretchEnd(found, |lines|, k)
    ensures BlockIs(lines + [line], found', marker, k, block)
  {
    var from, end := found[k] + 1, StretchEnd(found, |lines|, k);
    assert (lines + [line])[from..end] == lines[from..end];
  }

  /** The last stretch takes in one more line. */
  lemma {:induction false} BlockGrows(
    lines: seq<string>, line: string, found: seq<nat>, marker: string, k: nat, block: seq<string>)
    requires |found| == k + 1 && BlockIs(lines, found, marker, k, block)
    ensures BlockIs(lines + [line], found, marker, k, block + [line])
  {
    var from, n := found[k] + 1, |lines|;
    assert (lines + [line])[from..n + 1] == lines[from..n] + [line];
  }

  lemma {:induction false} SlicedHeading(
    lines: seq<string>, line: string, blocks: seq<seq<string>>, found: seq<nat>, marker: string)
    requires Sliced(lines, blocks, found, marker) && StartsWith(line, marker)
    ensures Sliced(lines + [line], blocks + [[line[|marker|..]]], found + [|lines|], marker)
  {
    forall k | 0 <= k < |blocks| ensures BlockIs(lines + [line], found + [|lines|], marker, k, blocks[k]) {
      BlockStays(lines, line, found, found + [|lines|], marker, k, blocks[k]);
    }
    assert (lines + [line])[|lines| + 1..|lines| + 1] == [];
    assert [line[|marker|..]] + [] == [line[|marker|..]];
  }

  lemma {:induction false} SlicedLine(
    lines: seq<string>, line: string, blocks: seq<seq<string>>, found: seq<nat>, marker: string)
    requires Sliced(lines, blocks, found, marker)
    ensures Sliced(lines + [line], Append(blocks, line), found, marker)
  {
    forall k | 0 <= k < |blocks| ensures BlockIs(lines + [line], found, marker, k, Append(blocks, line)[k]) {
      if k < |blocks| - 1 {
        BlockStays(lines, line, found, found, marker, k, blocks[k]);
      } else {
        BlockGrows(lines, line, found, marker, k, blocks[k]);
      }
    }
  }

  /** Each block is exactly the stretch of lines from its heading to the next. */
  lemma {:induction false} BlocksAreSlices(lines: seq<string>, marker: string)
    ensures Sliced(lines, Blocks(lines, marker), Headings(lines, marker), marker)
  {
    if lines == [] {
    } else {
      var init, line := lines[..|lines| - 1], lines[|lines| - 1];
      BlocksAreSlices(init, marker);
      SliceStep(init, line, lines, marker, Blocks(init, marker), Headings(init, marker));
    }
  }

  lemma {:induction false} SliceStep(
    init: seq<string>, line: string, lines: seq<string>, marker: string, blocks: seq<seq<string>>, found: seq<nat>)
    requires lines == init + [line] && Sliced(init, blocks, found, marker)
    requires blocks == Blocks(init, marker) && found == Headings(init, marker)
    ensures Sliced(lines, Blocks(lines, marker), Headings(lines, marker), marker)
  {
    HeadingsPush(init, line, marker, lines);
    assert lines[..|lines| - 1] == init && lines[|lines| - 1] == line;
    if EndsInHeading(lines, marker) {
      SlicedHeading(init, line, blocks, found, marker);
    } else {
      SlicedLine(init, line, blocks, found, marker);
    }
  }

  // ---- Nothing from the first heading on is lost ----

  /** Put the marker back on each block's first line, and lay the blocks end to end. */
  function Reattached(blocks: seq<seq<string>>, marker: string): seq<string> {
    if blocks == [] then []
    else
      var last := blocks[|blocks| - 1];
      Reattached(blocks[..|blocks| - 1], marker) + (if last == [] then [] else [marker + last[0]] + last[1..])
  }

  /** A stretch with its marker put back is the lines themselves. */
  lemma {:induction false} StretchReattaches(
    lines: seq<string>, found: seq<nat>, marker: string, k: nat, block: seq<string>)
    requires BlockIs(lines, found, marker, k, block)
    ensures block != [] && [marker + block[0]] + block[1..] == lines[found[k]..StretchEnd(found, |lines|, k)]
  {
    var at, end := found[k], StretchEnd(found, |lines|, k);
    assert block[1..] == lines[at + 1..end] && marker + lines[at][|marker|..] == lines[at];
    assert [lines[at]] + lines[at + 1..end] == lines[at..end];
  }

  lemma {:induction false} RangesMeet<T>(items: seq<T>, a: nat, b: nat, c: nat)
    requires a <= b <= c <= |items|
    ensures items[a..b] + items[b..c] == items[a..c]
  {
  }

  /** Re-attached, the first `k` blocks are the lines from the first heading to the heading after them. */
  lemma {:induction false} ReattachedUpTo(
    lines: seq<string>, blocks: seq<seq<string>>, found: seq<nat>, marker: string, k: nat)
    requires Sliced(lines, blocks, found, marker) && 0 < k <= |blocks|
    ensures found[0] <= StretchEnd(found, |lines|, k - 1) <= |lines|
    ensures Reattached(blocks[..k], marker) == lines[found[0]..StretchEnd(found, |lines|, k - 1)]
  {
    var before, block, at, end := blocks[..k - 1], blocks[k - 1], found[k - 1], StretchEnd(found, |lines|, k - 1);
    StretchReattaches(lines, found, marker, k - 1, block);
    assert blocks[..k][..k - 1] == before;
    if k == 1 {
      assert before == [] && Reattached(before, marker) == [];
    } else {
      ReattachedUpTo(lines, blocks, found, marker, k - 1);
      RangesMeet(lines, found[0], at, end);
    }
  }

  /** Re-attaching the marker to every block gives back every line from the first heading on. */
  lemma {:induction false} BlocksReattach(lines: seq<string>, marker: string)
    ensures var found := Headings(lines, marker);
            Reattached(Blocks(lines, marker), marker) == if found == [] then [] else lines[found[0]..]
  {
    var blocks, found := Blocks(lines, marker), Headings(lines, marker);
    BlocksAreSlices(lines, marker);
    if found != [] {
      ReattachedUpTo(lines, blocks, found, marker, |blocks|);
      assert blocks[..|blocks|] == blocks && lines[found[0]..|lines|] == lines[found[0]..];
    }
  }

  // ---- Every nested scan agrees with one scan of the document ----

  lemma {:induction false} ScanConcat(fence: Fence, a: seq<string>, b: seq<string>)
    ensures Scan(fence, a + b) == Scan(Scan(fence, a), b)
  {
    if b == [] {
      assert a + b == a;
    } else {
      ScanConcat(fence, a, b[..|b| - 1]);
      assert (a + b)[..|a + b| - 1] == a + b[..|b| - 1];
    }
  }

  /** Scanning afresh from a line before which no fence is open, as after any heading, finds the fence of one scan. */
  lemma {:induction false} ScanShift(lines: seq<string>, from: nat, end: nat)
    requires from <= end <= |lines| && Scan(None, lines[..from]).None?
    ensures Scan(None, lines[from..end]) == Scan(None, lines[..end])
  {
    ScanConcat(None, lines[..from], lines[from..end]);
    assert lines[..end] == lines[..from] + lines[from..end];
  }

  /** So each later line is classified as the whole document's scan does. */
  lemma {:induction false} BodyAgrees(lines: seq<string>, from: nat, end: nat, j: nat, m: string)
    requires from <= end <= |lines| && Scan(None, lines[..from]).None? && j < end - from
    ensures IsHeading(lines[from..end], j, m) <==> IsHeading(lines, from + j, m)
  {
    ScanShift(lines, from, from + j + 1);
    assert lines[from..end][..j + 1] == lines[from..from + j + 1];
    assert lines[..from + j + 1][from + j] == lines[from + j];
  }

  // ---- Entries of one section ----

  /** `^\[[^\]]+\]:\s+\S+` on the trimmed line. */
  predicate IsLinkReference(line: string) {
    var text := Trim(line);
    var close := IndexOf(text, ']');
    && StartsWith(text, "[") && close > 1 && close + 2 < |text| && text[close + 1] == ':' && Blank(text[close + 2])
    && TrimStart(text[close + 2..]) != ""
  }

  /** `/^\s+[-*] /`: an indented bullet. */
  predicate IsSubBullet(line: string) {
    var text := TrimStart(line);
    |text| < |line| && |text| >= 2 && (text[0] == '-' || text[0] == '*') && text[1] == ' '
  }

  function Extend(entries: seq<string>, more: string): seq<string>
    requires entries != []
  {
    entries[..|entries| - 1] + [entries[|entries| - 1] + more]
  }

  /** What one line adds to the entries, given the fence after it. */
  function AddLine(entries: seq<string>, line: string, fence: Fence): seq<string> {
    if fence.None? && StartsWith(line, "- ") then entries + [line[2..]]
    else if fence.None? && IsLinkReference(line) then entries
    else if entries == [] then entries
    else if fence.Some? || IsSubBullet(line) then Extend(entries, "\n" + line)
    else if Trim(line) != "" then Extend(entries, " " + Trim(line))
    else entries
  }

  function RawEntries(lines: seq<string>): seq<string> {
    if lines == [] then []
    else AddLine(RawEntries(lines[..|lines| - 1]), lines[|lines| - 1], Scan(None, lines))
  }

  /** One turn of the collecting loop. */
  lemma {:induction false} NextEntries(lines: seq<string>, i: nat, fence: Fence, entries: seq<string>)
    requires i < |lines| && fence == Scan(None, lines[..i]) && entries == RawEntries(lines[..i])
    ensures Scan(None, lines[..i + 1]) == AfterLine(fence, lines[i])
    ensures RawEntries(lines[..i + 1]) == AddLine(entries, lines[i], AfterLine(fence, lines[i]))
  {
    var more := lines[..i + 1];
    assert more == lines[..i] + [lines[i]] && more[..|more| - 1] == lines[..i];
    ScanPush(None, lines[..i], lines[i]);
  }

  /** The collecting loop of `parseEntries`, before each entry's links are stripped. */
  method CollectEntries(body: string) returns (entries: seq<string>)
    ensures entries == RawEntries(Split(body, '\n'))
  {
    var lines := Split(body, '\n');
    entries := [];
    var fence: Fence := None;
    for i := 0 to |lines|
      invariant fence == Scan(None, lines[..i]) && entries == RawEntries(lines[..i])
    {
      var line := lines[i];
      NextEntries(lines, i, fence, entries);
      var delimiter := Delimiter(line);
      if delimiter.Some? {
        if fence.None? { fence := delimiter; }
        else if delimiter == fence { fence := None; }
      }
      if fence.None? && StartsWith(line, "- ") {
        entries := entries + [line[2..]];
        continue;
      }
      if fence.None? && IsLinkReference(line) { continue; }
      if entries == [] { continue; }
      if fence.Some? || IsSubBullet(line) {
        entries := Extend(entries, "\n" + line);
        continue;
      }
      if Trim(line) != "" { entries := Extend(entries, " " + Trim(line)); }
    }
    assert lines[..|lines|] == lines;
  }

  /** What a line adds to the entry it continues, given the fence after it. */
  function Piece(fence: Fence, line: string): string {
    if fence.Some? then "\n" + line
    else if IsLinkReference(line) then ""
    else if IsSubBullet(line) then "\n" + line
    else if Trim(line) != "" then " " + Trim(line)
    else ""
  }

  /** What each line adds, classified by one scan of the section. */
  function Pieces(lines: seq<string>): (pieces: seq<string>)
    ensures |pieces| == |lines|
  {
    if lines == [] then []
    else Pieces(lines[..|lines| - 1]) + [Piece(Scan(None, lines), lines[|lines| - 1])]
  }

  function Concat(parts: seq<string>): string {
    if parts == [] then "" else Concat(parts[..|parts| - 1]) + parts[|parts| - 1]
  }

  /** An entry is the text of the `k`-th bullet found and then what the lines up to the next add. */
  ghost predicate EntryIs(
    lines: seq<string>, pieces: seq<string>, found: seq<nat>, end: nat, k: nat, entry: string)
    requires |pieces| == |lines|
  {
    && k < |found| && found[k] < StretchEnd(found, end, k) <= |lines| && |lines[found[k]]| >= 2
    && entry == lines[found[k]][2..] + Concat(pieces[found[k] + 1..StretchEnd(found, end, k)])
  }

  ghost predicate Bulleted(lines: seq<string>, pieces: seq<string>, found: seq<nat>, entries: seq<string>) {
    && |pieces| == |lines| && |entries| == |found|
    && forall k | 0 <= k < |entries| :: EntryIs(lines, pieces, found, |lines|, k, entries[k])
  }

  /** A line after its end leaves an entry as it is. */
  lemma {:induction false} EntryStays(
    lines: seq<string>, line: string, pieces: seq<string>, piece: string, found: seq<nat>, found': seq<nat>,
    k: nat, entry: string)
    requires |pieces| == |lines| && EntryIs(lines, pieces, found, |lines|, k, entry)
    requires k + 1 < |found'| && found'[k] == found[k] && found'[k + 1] == StretchEnd(found, |lines|, k)
    ensures EntryIs(lines + [line], pieces + [piece], found', |lines| + 1, k, entry)
  {
    var from, end := found[k] + 1, StretchEnd(found, |lines|, k);
    assert (pieces + [piece])[from..end] == pieces[from..end];
  }

  lemma {:induction false} ConcatPush(parts: seq<string>, part: string, more: seq<string>)
    requires more == parts + [part]
    ensures Concat(more) == Concat(parts) + part
  {
    assert more[..|more| - 1] == parts;
  }

  lemma {:induction false} RangePush<T>(items: seq<T>, item: T, from: nat)
    requires from <= |items|
    ensures (items + [item])[from..|items| + 1] == items[from..|items|] + [item]
  {
  }

  /** The last entry takes in one more line. */
  lemma {:induction false} EntryGrows(
    lines: seq<string>, line: string, pieces: seq<string>, piece: string, found: seq<nat>, k: nat, entry: string)
    requires |pieces| == |lines| && |found| == k + 1 && EntryIs(lines, pieces, found, |lines|, k, entry)
    ensures EntryIs(lines + [line], pieces + [piece], found, |lines| + 1, k, entry + piece)
  {
    var from, text := found[k] + 1, lines[found[k]][2..];
    var before := pieces[from..|pieces|];
    RangePush(pieces, piece, from);
    ConcatPush(before, piece, before + [piece]);
    assert text + Concat(before) + piece == text + (Concat(before) + piece);
  }

  lemma {:induction false} BulletedBullet(
    lines: seq<string>, line: string, pieces: seq<string>, piece: string, found: seq<nat>, entries: seq<string>)
    requires Bulleted(lines, pieces, found, entries) && StartsWith(line, "- ")
    ensures Bulleted(lines + [line], pieces + [piece], found + [|lines|], entries + [line[2..]])
  {
    var found' := found + [|lines|];
    forall k | 0 <= k < |entries|
      ensures EntryIs(lines + [line], pieces + [piece], found', |lines| + 1, k, entries[k])
    {
      EntryStays(lines, line, pieces, piece, found, found', k, entries[k]);
    }
    assert (pieces + [piece])[|lines| + 1..|lines| + 1] == [] && line[2..] + "" == line[2..];
  }

  lemma {:induction false} BulletedLine(
    lines: seq<string>, line: string, pieces: seq<string>, piece: string, found: seq<nat>, entries: seq<string>,
    entries': seq<string>)
    requires Bulleted(lines, pieces, found, entries) && |entries'| == |entries|
    requires forall k | 0 <= k < |entries| - 1 :: entries'[k] == entries[k]
    requires entries != [] ==> entries'[|entries| - 1] == entries[|entries| - 1] + piece
    ensures Bulleted(lines + [line], pieces + [piece], found, entries')
  {
    forall k | 0 <= k < |entries|
      ensures EntryIs(lines + [line], pieces + [piece], found, |lines| + 1, k, entries'[k])
    {
      if k < |entries| - 1 {
        EntryStays(lines, line, pieces, piece, found, found, k, entries[k]);
      } else {
        EntryGrows(lines, line, pieces, piece, found, k, entries[k]);
      }
    }
  }

  /** A line that opens no entry adds its piece to the last one, if there is one. */
  lemma {:induction false} LineAdds(entries: seq<string>, line: string, fence: Fence, after: seq<string>)
    requires after == AddLine(entries, line, fence) && !(fence.None? && StartsWith(line, "- "))
    ensures |after| == |entries|
    ensures forall k | 0 <= k < |entries| - 1 :: after[k] == entries[k]
    ensures entries != [] ==> after[|entries| - 1] == entries[|entries| - 1] + Piece(fence, line)
  {
    assert entries != [] ==> entries[|entries| - 1] + "" == entries[|entries| - 1];
  }

  /** The entries of a section are exactly its bullets outside fences, each with the lines that continue it. */
  lemma {:induction false} EntriesAreBullets(lines: seq<string>)
    ensures Bulleted(lines, Pieces(lines), Headings(lines, "- "), RawEntries(lines))
  {
    if lines == [] {
    } else {
      var init, line := lines[..|lines| - 1], lines[|lines| - 1];
      EntriesAreBullets(init);
      EntryStep(init, line, lines, Pieces(init), Headings(init, "- "), RawEntries(init));
    }
  }

  lemma {:induction false} EntryStep(
    init: seq<string>, line: string, lines: seq<string>, pieces: seq<string>, found: seq<nat>, entries: seq<string>)
    requires lines == init + [line] && Bulleted(init, pieces, found, entries)
    requires pieces == Pieces(init) && found == Headings(init, "- ") && entries == RawEntries(init)
    ensures Bulleted(lines, Pieces(lines), Headings(lines, "- "), RawEntries(lines))
  {
    var fence := Scan(None, lines);
    var piece := Piece(fence, line);
    assert lines[..|lines| - 1] == init && lines[|lines| - 1] == line;
    HeadingsPush(init, line, "- ", lines);
    assert Pieces(lines) == pieces + [piece];
    if EndsInHeading(lines, "- ") {
      BulletedBullet(init, line, pieces, piece, found, entries);
    } else {
      LineAdds(entries, line, fence, RawEntries(lines));
      BulletedLine(init, line, pieces, piece, found, entries, RawEntries(lines));
    }
  }
}
