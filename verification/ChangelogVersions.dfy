/** Printed versions against section 11 of SemVer 2.0.0, stated on the numbers and identifiers they are printed from. */
module ChangelogVersions {
  import opened Decimal
  import opened Text
  import opened Wrappers
  import opened ChangelogOrder
  import opened ChangelogSeries
  import opened ChangelogSeriesOrder

  /** A version before it is printed; numerals may have leading zeros, as the changelog accepts them. */
  datatype Version = Version(major: string, minor: string, patch: string, pre: Option<seq<string>>)

  predicate Digits(s: string) { s != "" && forall c <- s :: '0' <= c <= '9' }

  predicate Identifier(s: string) { '.' !in s && '-' !in s }

  ghost predicate Printable(v: Version) {
    && Digits(v.major) && Digits(v.minor) && Digits(v.patch)
    && (v.pre.Some? ==> v.pre.value != [] && forall id <- v.pre.value :: Identifier(id))
  }

  function Core(v: Version): string { v.major + "." + v.minor + "." + v.patch }

  function Printed(v: Version): string {
    Core(v) + (if v.pre.Some? then "-" + Join(v.pre.value, ".") else "")
  }

  // ---- Section 11 ----

  /** In ASCII order: at the first place where they differ, or by ending first. */
  ghost predicate TextBefore(a: string, b: string) {
    exists k: nat | k <= |a| && k < |b| :: a[..k] == b[..k] && (k == |a| || a[k] < b[k])
  }

  /** Identifiers: numbers by value, others by text, and numbers below the others (items 11.4.1 to 11.4.3). */
  ghost predicate IdBelow(a: string, b: string) {
    if Digits(a) then (Digits(b) ==> Number(a) < Number(b)) else !Digits(b) && TextBefore(a, b)
  }

  ghost predicate IdLevel(a: string, b: string) {
    a == b || (Digits(a) && Digits(b) && Number(a) == Number(b))
  }

  ghost predicate BelowAt(x: seq<string>, y: seq<string>, k: nat)
    requires k <= |x| && k < |y|
  {
    (forall i | 0 <= i < k :: IdLevel(x[i], y[i])) && (k == |x| || IdBelow(x[k], y[k]))
  }

  /** Below at the first identifier that differs, or by being its beginning (item 11.4.4). */
  ghost predicate IdsBelow(x: seq<string>, y: seq<string>) {
    exists k: nat | k <= |x| && k < |y| :: BelowAt(x, y, k)
  }

  /** A prerelease is below its release (item 11.3). */
  ghost predicate PreBelow(x: Option<seq<string>>, y: Option<seq<string>>) {
    if y.None? then x.Some? else x.Some? && IdsBelow(x.value, y.value)
  }

  /** Lower precedence: by major, minor and patch as numbers, and then by prerelease (item 11.2). */
  ghost predicate Below(v: Version, w: Version) {
    var (a, b) := (Number(v.major), Number(w.major));
    var (c, d) := (Number(v.minor), Number(w.minor));
    var (e, f) := (Number(v.patch), Number(w.patch));
    a < b || (a == b && (c < d || (c == d && (e < f || (e == f && PreBelow(v.pre, w.pre))))))
  }

  // ---- Reading what was printed ----

  lemma {:induction false} DigitsHold(s: string)
    requires Digits(s)
    ensures '.' !in s && '-' !in s && AllDigits(s)
  {
  }

  lemma {:induction false} JoinHolds(ids: seq<string>)
    requires forall id <- ids :: Identifier(id)
    ensures '-' !in Join(ids, ".")
  {
    if |ids| <= 1 {
      assert ids != [] ==> ids[0] in ids;
    } else {
      assert ids[0] in ids && forall id <- ids[1..] :: id in ids;
      JoinHolds(ids[1..]);
    }
  }

  lemma {:induction false} PrereleaseReads(core: string, ids: seq<string>, text: string)
    requires '-' !in core && ids != [] && (forall id <- ids :: Identifier(id)) && text == core + ['-'] + Join(ids, ".")
    ensures Split(text, '-') == [core, Join(ids, ".")] && Split(Join(ids, "."), '.') == ids
  {
    var pre := Join(ids, ".");
    JoinHolds(ids);
    SplitFirst(core, '-', pre);
    SplitNone(pre, '-');
    SplitJoin(ids, '.');
  }

  lemma {:induction false} CoreReads(v: Version)
    requires Printable(v)
    ensures '-' !in Core(v) && Split(Core(v), '-') == [Core(v)] && Split(Core(v), '.') == [v.major, v.minor, v.patch]
  {
    DigitsHold(v.major);
    DigitsHold(v.minor);
    DigitsHold(v.patch);
    var rest := v.minor + ['.'] + v.patch;
    assert Core(v) == v.major + ['.'] + rest;
    ThreeParts(v.major, v.minor, v.patch, rest, Core(v));
  }

  function KeyOf(v: Version): SortKey { SortKey(Number(v.major), Number(v.minor), Number(v.patch), v.pre) }

  lemma {:induction false} VersionReads(v: Version)
    requires Printable(v)
    ensures VersionSortKey(Printed(v)) == KeyOf(v)
  {
    CoreReads(v);
    DigitsHold(v.major);
    DigitsHold(v.minor);
    DigitsHold(v.patch);
    var core := Core(v);
    if v.pre.Some? {
      assert Printed(v) == core + ['-'] + Join(v.pre.value, ".");
      PrereleaseReads(core, v.pre.value, Printed(v));
    } else {
      assert Printed(v) == core;
    }
    KeyReads(Printed(v), Split(Printed(v), '-'), Split(core, '.'), v);
  }

  lemma {:induction false} KeyReads(text: string, pieces: seq<string>, parts: seq<string>, v: Version)
    requires pieces == Split(text, '-') && parts == Split(pieces[0], '.') && parts == [v.major, v.minor, v.patch]
    requires AllDigits(v.major) && AllDigits(v.minor) && AllDigits(v.patch)
    requires |pieces| > 1 <==> v.pre.Some?
    requires v.pre.Some? ==> Split(pieces[1], '.') == v.pre.value
    ensures VersionSortKey(text) == KeyOf(v)
  {
    assert parts[0] == v.major && parts[1] == v.minor && parts[2] == v.patch;
  }

  // ---- The comparison is that precedence ----

  lemma {:induction false} PrefixHead(a: string, b: string, k: nat)
    requires k <= |a| && k <= |b| && a[..k] == b[..k]
    ensures k > 0 ==> a[0] == b[0]
  {
    if k > 0 { assert a[..k][0] == b[..k][0]; }
  }

  lemma {:induction false} TextLess(a: string, b: string)
    ensures StringLess(a, b) <==> TextBefore(a, b)
  {
    if b == "" {
    } else if a == "" {
      assert a[..0] == b[..0];
    } else if a[0] != b[0] {
      if k: nat :| k <= |a| && k < |b| && a[..k] == b[..k] && (k == |a| || a[k] < b[k]) { PrefixHead(a, b, k); }
      assert a[..0] == b[..0];
    } else {
      TextLess(a[1..], b[1..]);
      TextTails(a, b, a[1..], b[1..]);
    }
  }

  lemma {:induction false} TextTails(a: string, b: string, c: string, d: string)
    requires a != "" && b != "" && a[0] == b[0] && c == a[1..] && d == b[1..]
    ensures TextBefore(a, b) <==> TextBefore(c, d)
  {
    if k: nat :| k <= |a| && k < |b| && a[..k] == b[..k] && (k == |a| || a[k] < b[k]) {
      assert k > 0;
      assert c[..k - 1] == a[..k][1..] && d[..k - 1] == b[..k][1..];
    }
    if k: nat :| k <= |c| && k < |d| && c[..k] == d[..k] && (k == |c| || c[k] < d[k]) {
      assert a[..k + 1] == [a[0]] + c[..k] && b[..k + 1] == [b[0]] + d[..k];
    }
  }

  lemma {:induction false} IdReads(a: string, b: string)
    ensures ByIdentifier(a, b).Lower? <==> IdBelow(a, b)
    ensures ByIdentifier(a, b).Higher? <==> IdBelow(b, a)
    ensures ByIdentifier(a, b).Same? <==> IdLevel(a, b)
  {
    TextLess(a, b);
    TextLess(b, a);
    StringLessAsymmetric(a, b);
  }

  lemma {:induction false} IdsRead(x: seq<string>, y: seq<string>)
    ensures ByIdentifiers(x, y).Lower? <==> IdsBelow(x, y)
  {
    if y == [] {
    } else if x == [] {
      assert BelowAt(x, y, 0);
    } else {
      IdReads(x[0], y[0]);
      IdsRead(x[1..], y[1..]);
      IdsTails(x, y, x[1..], y[1..]);
    }
  }

  lemma {:induction false} IdsTails(x: seq<string>, y: seq<string>, z: seq<string>, w: seq<string>)
    requires x != [] && y != [] && z == x[1..] && w == y[1..]
    ensures IdsBelow(x, y) <==> IdBelow(x[0], y[0]) || (IdLevel(x[0], y[0]) && IdsBelow(z, w))
  {
    if k: nat :| k <= |x| && k < |y| && BelowAt(x, y, k) {
      if k > 0 {
        assert BelowAt(z, w, k - 1) by {
          forall i | 0 <= i < k - 1 ensures IdLevel(z[i], w[i]) { assert IdLevel(x[i + 1], y[i + 1]); }
        }
      }
    }
    if IdBelow(x[0], y[0]) { assert BelowAt(x, y, 0); }
    if k: nat :| k <= |z| && k < |w| && IdLevel(x[0], y[0]) && BelowAt(z, w, k) {
      assert BelowAt(x, y, k + 1) by {
        forall i | 0 <= i < k + 1 ensures IdLevel(x[i], y[i]) { assert i > 0 ==> IdLevel(z[i - 1], w[i - 1]); }
      }
    }
  }

  lemma {:induction false} KeysRead(v: Version, w: Version)
    ensures Precedence(KeyOf(v), KeyOf(w)).Lower? <==> Below(v, w)
  {
    if v.pre.Some? && w.pre.Some? { IdsRead(v.pre.value, w.pre.value); }
  }

  /**
   * On printed versions, with or without a prerelease on either side, the comparison is precedence as section 11
   * defines it, newest first: positive exactly when the first is below the second, negative exactly when above.
   */
  lemma {:induction false} PrintedOrder(v: Version, w: Version)
    requires Printable(v) && Printable(w)
    ensures CompareDescending(Printed(v), Printed(w)) > 0 <==> Below(v, w)
    ensures CompareDescending(Printed(v), Printed(w)) < 0 <==> Below(w, v)
  {
    VersionReads(v);
    VersionReads(w);
    CompareIsPrecedence(Printed(v), Printed(w));
    CompareIsPrecedence(Printed(w), Printed(v));
    CompareIsTotalPreorder(Printed(v), Printed(w), Printed(v));
    KeysRead(v, w);
    KeysRead(w, v);
  }

  /** Within each series the releases are newest first. */
  lemma {:induction false} SeriesNewestFirst(
    releases: seq<Release>, s: Series, i: nat, j: nat, v: Version, w: Version)
    requires s in GroupIntoSeries(releases) && i < j < |s.releases| && Printable(v) && Printable(w)
    requires s.releases[i].version == Printed(v) && s.releases[j].version == Printed(w)
    ensures !Below(v, w)
  {
    GroupsAreTidy(releases);
    PrintedOrder(v, w);
    assert NEWEST_RELEASE(s.releases[i], s.releases[j]);
  }

  /** Laid end to end, series of versions without leading zeros list every release newest first. */
  lemma {:induction false} FlattenedNewestFirst(releases: seq<Release>, i: nat, j: nat, v: Version, w: Version)
    requires forall r <- releases :: PlainCore(r.version)
    requires var all := FlattenSeries(GroupIntoSeries(releases));
             i < j < |all| && all[i].version == Printed(v) && all[j].version == Printed(w)
    requires Printable(v) && Printable(w)
    ensures !Below(v, w)
  {
    var all := FlattenSeries(GroupIntoSeries(releases));
    PlainVersionsStayInOrder(releases);
    PrintedOrder(v, w);
    assert NEWEST_RELEASE(all[i], all[j]);
  }
}
