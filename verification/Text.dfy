/** The JavaScript string operations the source relies on, with the laws that relate them. */
module Text {

  /** `s.split(d)` for a one-character delimiter: always at least one piece. */
  function Split(s: string, d: char): (parts: seq<string>)
    ensures |parts| >= 1
  {
    if s == "" then [""]
    else
      var rest := Split(s[1..], d);
      if s[0] == d then [""] + rest else [[s[0]] + rest[0]] + rest[1..]
  }

  /** `parts.join(sep)`. */
  function Join(parts: seq<string>, sep: string): string {
    if |parts| == 0 then ""
    else if |parts| == 1 then parts[0]
    else parts[0] + sep + Join(parts[1..], sep)
  }

  /** `s.indexOf(c)`: the first occurrence, or -1. */
  function IndexOf(s: string, c: char): (i: int)
    ensures -1 <= i < |s|
    ensures i < 0 ==> c !in s
    ensures i >= 0 ==> s[i] == c && c !in s[..i]
  {
    if s == "" then -1
    else if s[0] == c then 0
    else
      var i := IndexOf(s[1..], c);
      if i < 0 then -1 else i + 1
  }

  lemma {:induction false} IndexOfFirst(a: string, c: char, b: string)
    requires c !in a
    ensures IndexOf(a + [c] + b, c) == |a|
  {
    if a == "" {
    } else {
      assert a[0] in a;
      assert forall x <- a[1..] :: x in a;
      IndexOfFirst(a[1..], c, b);
      assert (a + [c] + b)[1..] == a[1..] + [c] + b;
    }
  }

  /** `s.indexOf(c, from)`. */
  function IndexFrom(s: string, c: char, from: nat): (i: int)
    requires from <= |s|
    ensures i == -1 || from <= i < |s|
  {
    var i := IndexOf(s[from..], c);
    if i < 0 then -1 else from + i
  }

  /** `s.startsWith(prefix)`. */
  predicate StartsWith(s: string, prefix: string) {
    prefix <= s
  }

  /** `s.endsWith(suffix)`. */
  predicate EndsWith(s: string, suffix: string) {
    |suffix| <= |s| && s[|s| - |suffix|..] == suffix
  }

  /** The characters JavaScript's `trim` and `\s` treat as white space. */
  predicate Blank(c: char) {
    || c == ' ' || ('\t' <= c <= '\r') || c == '\U{a0}' || c == '\U{1680}' || ('\U{2000}' <= c <= '\U{200a}')
    || c == '\U{2028}' || c == '\U{2029}' || c == '\U{202f}' || c == '\U{205f}' || c == '\U{3000}' || c == '\U{feff}'
  }

  /** By code point: the controls from 9 to 13, the spaces of Unicode, the two separators and the byte order mark. */
  lemma {:induction false} BlankExactly(c: char)
    ensures Blank(c) <==>
            var n := c as int;
            n == 32 || 9 <= n <= 13 || n == 160 || n == 5760 || 8192 <= n <= 8202 || n == 8232 || n == 8233 || n == 8239
            || n == 8287 || n == 12288 || n == 65279
  {
  }

  function TrimStart(s: string): (t: string)
    ensures |t| <= |s| && (t != "" ==> !Blank(t[0]))
  {
    if s != "" && Blank(s[0]) then TrimStart(s[1..]) else s
  }

  function TrimEnd(s: string): (t: string)
    ensures t <= s && (t != "" ==> !Blank(t[|t| - 1]))
  {
    if s != "" && Blank(s[|s| - 1]) then TrimEnd(s[..|s| - 1]) else s
  }

  /** `s.trim()`. */
  function Trim(s: string): string { TrimEnd(TrimStart(s)) }

  /** `values.filter(Boolean)` on strings: drop the empty ones. */
  function NonEmpty(parts: seq<string>): seq<string> {
    if parts == [] then []
    else (if parts[0] == "" then [] else [parts[0]]) + NonEmpty(parts[1..])
  }

  lemma {:induction false} SplitPieces(s: string, d: char)
    ensures forall piece <- Split(s, d) :: d !in piece
  {
    if s == "" {
    } else {
      SplitPieces(s[1..], d);
      var rest := Split(s[1..], d);
      assert d !in rest[0];
      if s[0] != d {
        assert d !in [s[0]] + rest[0];
      }
    }
  }

  lemma {:induction false} SplitNone(s: string, d: char)
    requires d !in s
    ensures Split(s, d) == [s]
  {
    if s == "" {
    } else {
      assert s[0] in s;
      assert forall c <- s[1..] :: c in s;
      SplitNone(s[1..], d);
      assert [s[0]] + s[1..] == s;
    }
  }

  /** Cutting at the first delimiter peels exactly one piece. */
  lemma {:induction false} SplitFirst(a: string, d: char, b: string)
    requires d !in a
    ensures Split(a + [d] + b, d) == [a] + Split(b, d)
  {
    var s := a + [d] + b;
    if a == "" {
      assert s[1..] == b;
    } else {
      assert a[0] in a;
      assert forall c <- a[1..] :: c in a;
      SplitFirst(a[1..], d, b);
      assert s[1..] == a[1..] + [d] + b;
      assert [a[0]] + a[1..] == a;
    }
  }

  /** Two split texts laid end to end: the last piece of one runs into the first of the other. */
  function Glue(x: seq<string>, y: seq<string>): seq<string>
    requires x != [] && y != []
  {
    x[..|x| - 1] + [x[|x| - 1] + y[0]] + y[1..]
  }

  lemma {:induction false} GlueNext(piece: string, x: seq<string>, y: seq<string>)
    requires x != [] && y != []
    ensures Glue([piece] + x, y) == [piece] + Glue(x, y)
  {
  }

  lemma {:induction false} GlueGrow(c: char, x: seq<string>, y: seq<string>)
    requires x != [] && y != []
    ensures Glue([[c] + x[0]] + x[1..], y) == [[c] + Glue(x, y)[0]] + Glue(x, y)[1..]
  {
    if |x| == 1 {
      assert [[c] + x[0]] + x[1..] == [[c] + x[0]];
      assert [c] + (x[0] + y[0]) == [c] + x[0] + y[0];
    } else {
      var z := [[c] + x[0]] + x[1..];
      assert z[..|z| - 1] == [[c] + x[0]] + x[1..|x| - 1];
      assert Glue(x, y) == [x[0]] + (x[1..|x| - 1] + [x[|x| - 1] + y[0]] + y[1..]);
    }
  }

  /** Splitting distributes over concatenation, gluing the two pieces at the seam. */
  lemma {:induction false} SplitConcat(a: string, b: string, d: char)
    ensures Split(a + b, d) == Glue(Split(a, d), Split(b, d))
  {
    var y := Split(b, d);
    if a == "" {
      assert a + b == b;
      assert "" + y[0] == y[0];
    } else {
      var x1 := Split(a[1..], d);
      SplitConcat(a[1..], b, d);
      assert (a + b)[1..] == a[1..] + b;
      if a[0] == d {
        GlueNext("", x1, y);
      } else {
        GlueGrow(a[0], x1, y);
      }
    }
  }

  lemma {:induction false} JoinSplit(s: string, d: char)
    ensures Join(Split(s, d), [d]) == s
  {
    if s == "" {
    } else {
      JoinSplit(s[1..], d);
      var rest := Split(s[1..], d);
      if s[0] == d {
        assert Split(s, d)[1..] == rest;
        assert "" + [d] + s[1..] == s;
      } else {
        assert Split(s, d)[1..] == rest[1..];
        if |rest| > 1 {
          assert [s[0]] + rest[0] + [d] + Join(rest[1..], [d])
              == [s[0]] + (rest[0] + [d] + Join(rest[1..], [d]));
        }
        assert [s[0]] + s[1..] == s;
      }
    }
  }

  lemma {:induction false} SplitJoin(parts: seq<string>, d: char)
    requires |parts| >= 1
    requires forall piece <- parts :: d !in piece
    ensures Split(Join(parts, [d]), d) == parts
  {
    if |parts| == 1 {
      SplitNone(parts[0], d);
    } else {
      SplitJoin(parts[1..], d);
      SplitFirst(parts[0], d, Join(parts[1..], [d]));
    }
  }

  lemma {:induction false} JoinCons(first: string, rest: seq<string>, sep: string)
    requires rest != []
    ensures Join([first] + rest, sep) == first + sep + Join(rest, sep)
  {
  }

  /** A character put before the first piece comes first in the joined text. */
  lemma {:induction false} JoinGrow(c: char, parts: seq<string>, sep: string, text: string)
    requires parts != [] && text == Join(parts, sep)
    ensures Join([[c] + parts[0]] + parts[1..], sep) == [c] + text
  {
  }

  lemma {:induction false} JoinConcat(a: seq<string>, b: seq<string>, sep: string)
    requires a != [] && b != []
    ensures Join(a + b, sep) == Join(a, sep) + sep + Join(b, sep)
  {
    if |a| == 1 {
      assert a + b == [a[0]] + b;
      JoinCons(a[0], b, sep);
    } else {
      JoinConcat(a[1..], b, sep);
      assert a + b == [a[0]] + (a[1..] + b);
      JoinCons(a[0], a[1..] + b, sep);
    }
  }

  // ---- NUL-delimited text ----

  const NUL := '\0'

  /** The fields of `s` that are closed by a NUL. */
  function Terminated(s: string): seq<string> {
    var split := Split(s, NUL);
    split[..|split| - 1]
  }

  /** What follows the last NUL of `s`. */
  function Tail(s: string): string {
    var split := Split(s, NUL);
    split[|split| - 1]
  }

  /** Each field followed by its NUL. */
  function Terminate(fields: seq<string>): string {
    if fields == [] then "" else fields[0] + [NUL] + Terminate(fields[1..])
  }

  lemma {:induction false} SplitTerminate(fields: seq<string>)
    requires forall f <- fields :: NUL !in f
    ensures Split(Terminate(fields), NUL) == fields + [""]
  {
    if fields == [] {
    } else {
      SplitTerminate(fields[1..]);
      SplitFirst(fields[0], NUL, Terminate(fields[1..]));
    }
  }

  lemma {:induction false} PiecesNulFree(s: string)
    ensures forall f <- Terminated(s) :: NUL !in f
    ensures NUL !in Tail(s)
  {
    SplitPieces(s, NUL);
    var split := Split(s, NUL);
    assert Tail(s) in split;
    assert forall f <- Terminated(s) :: f in split;
  }

  /** The stream so far is its closed fields, then the open tail. */
  lemma {:induction false} StreamLayout(s: string)
    ensures s == Terminate(Terminated(s)) + Tail(s)
  {
    var split := Split(s, NUL);
    JoinSplit(s, NUL);
    JoinLayout(Terminated(s), Tail(s));
    assert split == Terminated(s) + [Tail(s)];
  }

  lemma {:induction false} JoinLayout(fields: seq<string>, tail: string)
    ensures Join(fields + [tail], [NUL]) == Terminate(fields) + tail
  {
    if fields == [] {
      assert Join([tail], [NUL]) == tail;
    } else {
      JoinLayout(fields[1..], tail);
      assert (fields + [tail])[1..] == fields[1..] + [tail];
    }
  }

  lemma {:induction false} TerminateConcat(a: seq<string>, b: seq<string>, all: seq<string>)
    requires all == a + b
    ensures Terminate(all) == Terminate(a) + Terminate(b)
  {
    if a == [] {
      assert all == b;
    } else {
      assert all[1..] == a[1..] + b;
      TerminateConcat(a[1..], b, all[1..]);
      assert a[0] + [NUL] + (Terminate(a[1..]) + Terminate(b)) == a[0] + [NUL] + Terminate(a[1..]) + Terminate(b);
    }
  }

  /** More text closes exactly the fields of the open tail followed by that text. */
  lemma {:induction false} TerminatedConcat(s: string, t: string)
    ensures Terminated(s + t) == Terminated(s) + Terminated(Tail(s) + t)
    ensures Tail(s + t) == Tail(Tail(s) + t)
  {
    var x, y, tail := Split(s, NUL), Split(t, NUL), Tail(s);
    var glued, z := Split(s + t, NUL), Split(tail + t, NUL);
    SplitConcat(s, t, NUL);
    TailConcat(s, t, tail, y);
    GlueTail(x, y, glued, z);
    assert Terminated(s + t) == glued[..|glued| - 1] && Terminated(tail + t) == z[..|z| - 1];
  }

  lemma {:induction false} TailConcat(s: string, t: string, tail: string, y: seq<string>)
    requires tail == Tail(s) && y == Split(t, NUL)
    ensures Split(tail + t, NUL) == Glue([tail], y)
  {
    PiecesNulFree(s);
    SplitNone(tail, NUL);
    SplitConcat(tail, t, NUL);
  }

  lemma {:induction false} GlueTail(x: seq<string>, y: seq<string>, glued: seq<string>, z: seq<string>)
    requires x != [] && y != [] && glued == Glue(x, y) && z == Glue([x[|x| - 1]], y)
    ensures |z| == |y| && |glued| == |x| - 1 + |z|
    ensures glued[..|glued| - 1] == x[..|x| - 1] + z[..|z| - 1] && glued[|glued| - 1] == z[|z| - 1]
  {
  }
}
