/** When the minor series of a changelog, laid end to end, list the releases newest first. */
module ChangelogSeriesOrder {
  import opened Decimal
  import opened Text
  import opened Wrappers
  import opened ChangelogOrder
  import opened ChangelogSeries
  import opened Sorting

  // ---- The line a version belongs to ----

  lemma {:induction false} SplitChars(s: string, d: char)
    ensures forall piece <- Split(s, d), c <- piece :: c in s
  {
    if s == "" {
    } else {
      SplitChars(s[1..], d);
      var rest := Split(s[1..], d);
      forall piece <- Split(s, d), c <- piece ensures c in s {
        if piece in rest { assert c in s[1..]; }
        if s[0] != d && piece == [s[0]] + rest[0] && c != s[0] { assert c in rest[0]; }
      }
    }
  }

  lemma {:induction false} ThreeParts(a: string, b: string, c: string, rest: string, version: string)
    requires '.' !in a && '.' !in b && '.' !in c && '-' !in a && '-' !in b && '-' !in c
    requires rest == b + ['.'] + c && version == a + ['.'] + rest
    ensures Split(version, '-') == [version] && Split(version, '.') == [a, b, c]
  {
    SplitNone(version, '-');
    SplitNone(c, '.');
    SplitFirst(b, '.', c);
    SplitFirst(a, '.', rest);
  }

  lemma {:induction false} KeyOfThree(a: string, b: string, c: string, version: string)
    requires '.' !in a && '.' !in b && '.' !in c && '-' !in a && '-' !in b && '-' !in c
    requires version == a + "." + b + "." + c
    ensures VersionSortKey(version) == SortKey(PartNumber(a), PartNumber(b), PartNumber(c), None)
    ensures MinorSeriesOf(version) == a + "." + b
  {
    var rest := b + ['.'] + c;
    assert version == a + ['.'] + rest;
    ThreeParts(a, b, c, rest, version);
  }

  lemma {:induction false} ZeroPart()
    ensures PartNumber("0") == 0
  {
    NumberPush("", '0');
    assert "" + ['0'] == "0";
  }

  /** The parts a version's series is named by hold neither dots nor dashes. */
  lemma {:induction false} PartsAreBare(version: string)
    ensures var parts := Split(Split(version, '-')[0], '.');
            '.' !in parts[0] && '-' !in parts[0] && '.' !in Part(parts, 1) && '-' !in Part(parts, 1)
  {
    var core := Split(version, '-')[0];
    var parts := Split(core, '.');
    SplitPieces(version, '-');
    SplitPieces(core, '.');
    SplitChars(core, '.');
    assert core in Split(version, '-') && parts[0] in parts;
    assert |parts| > 1 ==> parts[1] in parts;
  }

  /** A version's series line carries its major and minor numbers, patch 0, and no prerelease. */
  lemma {:induction false} SeriesLine(version: string)
    ensures var key := VersionSortKey(version);
            VersionSortKey(MinorSeriesOf(version) + ".0") == SortKey(key.major, key.minor, 0, None)
  {
    var parts := Split(Split(version, '-')[0], '.');
    var line := MinorSeriesOf(version) + ".0";
    PartsAreBare(version);
    assert line == parts[0] + "." + Part(parts, 1) + "." + "0";
    KeyOfThree(parts[0], Part(parts, 1), "0", line);
    ZeroPart();
  }

  predicate SameLine(a: string, b: string) {
    VersionSortKey(a).major == VersionSortKey(b).major && VersionSortKey(a).minor == VersionSortKey(b).minor
  }

  ghost predicate OneSeriesPerLine(series: seq<Series>) {
    forall i, j | 0 <= i < j < |series| :: !SameLine(SeriesVersion(series[i]), SeriesVersion(series[j]))
  }

  /** A release lies on the line of its series. */
  lemma {:induction false} OnSeriesLine(s: Series, r: Release)
    requires Homogeneous(s) && r in s.releases
    ensures SameLine(SeriesVersion(s), r.version)
  {
    SeriesLine(r.version);
  }

  /** Two series are level exactly when their lines are one. */
  lemma {:induction false} SeriesLevel(a: Series, b: Series)
    requires Homogeneous(a) && Homogeneous(b)
    ensures CompareDescending(SeriesVersion(a), SeriesVersion(b)) == 0 <==> SameLine(SeriesVersion(a), SeriesVersion(b))
  {
    SeriesLine(a.releases[0].version);
    SeriesLine(b.releases[0].version);
  }

  /** Between series of different lines, the series' order is their releases' order. */
  lemma {:induction false} SeriesDecide(a: Series, b: Series, r: Release, q: Release)
    requires Homogeneous(a) && Homogeneous(b) && r in a.releases && q in b.releases
    requires NEWEST_SERIES(a, b) && !SameLine(SeriesVersion(a), SeriesVersion(b))
    ensures NEWEST_RELEASE(r, q)
  {
    SeriesLine(r.version);
    SeriesLine(q.version);
  }

  // ---- Laid end to end ----

  lemma {:induction false} FlattenMembers(series: seq<Series>)
    ensures forall r <- FlattenSeries(series) :: exists s <- series :: r in s.releases
    ensures forall s <- series, r <- s.releases :: r in FlattenSeries(series)
    decreases |series|
  {
    if series == [] {
    } else {
      FlattenMembers(series[1..]);
      forall r <- FlattenSeries(series) ensures exists s <- series :: r in s.releases {
        if r in series[0].releases {
          assert series[0] in series;
        } else {
          assert r in FlattenSeries(series[1..]);
          var s :| s in series[1..] && r in s.releases;
          assert s in series;
        }
      }
    }
  }

  /** Every release of one series may come before every release of the other. */
  ghost predicate Before(a: Series, b: Series) {
    forall r <- a.releases, q <- b.releases :: NEWEST_RELEASE(r, q)
  }

  ghost const ALL_BEFORE: (Series, Series) -> bool := (a: Series, b: Series) => Before(a, b)

  lemma {:induction false} ConcatSortedExactly(a: seq<Release>, b: seq<Release>)
    ensures Sorted(NEWEST_RELEASE, a + b) <==>
            Sorted(NEWEST_RELEASE, a) && Sorted(NEWEST_RELEASE, b) && forall r <- a, q <- b :: NEWEST_RELEASE(r, q)
  {
    var all := a + b;
    if Sorted(NEWEST_RELEASE, all) {
      forall r <- a, q <- b ensures NEWEST_RELEASE(r, q) {
        var i :| 0 <= i < |a| && a[i] == r;
        var j :| 0 <= j < |b| && b[j] == q;
        assert all[i] == r && all[|a| + j] == q;
      }
      assert forall i | 0 <= i < |a| :: all[i] == a[i];
      assert forall j | 0 <= j < |b| :: all[|a| + j] == b[j];
    }
  }

  /** The first series may come before all that follow exactly when it may come before each. */
  lemma {:induction false} HeadBefore(head: Series, rest: seq<Series>)
    ensures (forall r <- head.releases, q <- FlattenSeries(rest) :: NEWEST_RELEASE(r, q))
            <==> forall s <- rest :: ALL_BEFORE(head, s)
  {
    FlattenMembers(rest);
    if forall s <- rest :: ALL_BEFORE(head, s) {
      forall r <- head.releases, q <- FlattenSeries(rest) ensures NEWEST_RELEASE(r, q) {
        var s :| s in rest && q in s.releases;
        assert ALL_BEFORE(head, s);
      }
    } else if forall r <- head.releases, q <- FlattenSeries(rest) :: NEWEST_RELEASE(r, q) {
      forall s <- rest ensures Before(head, s) {
        assert forall q <- s.releases :: q in FlattenSeries(rest);
      }
    }
  }

  lemma {:induction false} FlattenSortedExactly(series: seq<Series>)
    requires forall s <- series :: Sorted(NEWEST_RELEASE, s.releases)
    ensures Sorted(NEWEST_RELEASE, FlattenSeries(series)) <==> Sorted(ALL_BEFORE, series)
    decreases |series|
  {
    if series == [] {
    } else {
      var head, rest := series[0], series[1..];
      assert head in series && forall s <- rest :: s in series;
      FlattenSortedExactly(rest);
      ConcatSortedExactly(head.releases, FlattenSeries(rest));
      HeadBefore(head, rest);
      SortedPeel(ALL_BEFORE, series);
    }
  }

  // ---- Series in the order their spellings first appear ----

  /** How each release spells its `major.minor`. */
  function Spellings(releases: seq<Release>): (names: seq<string>)
    ensures |names| == |releases|
    ensures forall i | 0 <= i < |releases| :: names[i] == MinorSeriesOf(releases[i].version)
  {
    if releases == [] then []
    else Spellings(releases[..|releases| - 1]) + [MinorSeriesOf(releases[|releases| - 1].version)]
  }

  /** Where a name first appears, or the number of names. */
  function FirstOf(names: seq<string>, name: string): (i: nat)
    ensures i <= |names|
    ensures i < |names| ==> names[i] == name
    ensures forall j | 0 <= j < i :: names[j] != name
  {
    if names == [] || names[0] == name then 0 else 1 + FirstOf(names[1..], name)
  }

  /** The buckets' names are those listed, in the order they first appear. */
  ghost predicate InOrderOfAppearance(names: seq<string>, buckets: seq<Series>) {
    && (forall i | 0 <= i < |buckets| :: FirstOf(names, buckets[i].minor) < |names|)
    && (forall i, j | 0 <= i < j < |buckets| :: FirstOf(names, buckets[i].minor) < FirstOf(names, buckets[j].minor))
  }

  /** Pushing changes no name, and adds the release's own at the end if it is new. */
  lemma {:induction false} PushPlaces(buckets: seq<Series>, minor: string, release: Release)
    ensures var pushed, known := Push(buckets, minor, release), exists b <- buckets :: b.minor == minor;
            && |pushed| == |buckets| + (if known then 0 else 1)
            && (forall i | 0 <= i < |buckets| :: pushed[i].minor == buckets[i].minor)
            && (!known ==> pushed[|buckets|].minor == minor)
  {
    if buckets == [] || buckets[0].minor == minor {
      assert buckets != [] ==> buckets[0] in buckets;
    } else {
      PushPlaces(buckets[1..], minor, release);
      assert (exists b <- buckets[1..] :: b.minor == minor) <==> exists b <- buckets :: b.minor == minor;
    }
  }

  /** A name at the end does not change where an earlier one first appears. */
  lemma {:induction false} FirstStays(names: seq<string>, more: string, name: string)
    requires FirstOf(names, name) < |names|
    ensures FirstOf(names + [more], name) == FirstOf(names, name)
  {
    FirstUnique(names + [more], name, FirstOf(names, name));
  }

  lemma {:induction false} FirstUnique(names: seq<string>, name: string, i: nat)
    requires i <= |names| && (i < |names| ==> names[i] == name) && forall j | 0 <= j < i :: names[j] != name
    ensures FirstOf(names, name) == i
  {
  }

  /** Every release's spelling names a bucket. */
  lemma {:induction false} BucketOf(releases: seq<Release>, r: Release) returns (s: Series)
    requires r in releases
    ensures s in Buckets(releases) && s.minor == MinorSeriesOf(r.version)
  {
    var buckets := Buckets(releases);
    BucketsTidy(releases);
    Members(releases, multiset(FlattenSeries(buckets)));
    FlattenMembers(buckets);
    assert r in FlattenSeries(buckets);
    s :| s in buckets && r in s.releases;
    assert Homogeneous(s);
  }

  /** A spelling no bucket has does not appear. */
  lemma {:induction false} NewSpelling(releases: seq<Release>, minor: string)
    requires forall b <- Buckets(releases) :: b.minor != minor
    ensures FirstOf(Spellings(releases), minor) == |releases|
  {
    var i := FirstOf(Spellings(releases), minor);
    if i < |releases| {
      var s := BucketOf(releases, releases[i]);
    }
  }

  lemma {:induction false} BucketsAppear(releases: seq<Release>)
    ensures InOrderOfAppearance(Spellings(releases), Buckets(releases))
  {
    if releases == [] {
    } else {
      var init, last := releases[..|releases| - 1], releases[|releases| - 1];
      var before, minor := Buckets(init), MinorSeriesOf(last.version);
      BucketsAppear(init);
      PushPlaces(before, minor, last);
      if forall b <- before :: b.minor != minor { NewSpelling(init, minor); }
      AppearStep(Spellings(init), minor, before, Buckets(releases));
    }
  }

  lemma {:induction false} AppearStep(names: seq<string>, name: string, before: seq<Series>, after: seq<Series>)
    requires InOrderOfAppearance(names, before) && |before| <= |after| <= |before| + 1
    requires forall i | 0 <= i < |before| :: after[i].minor == before[i].minor
    requires |after| > |before| ==> after[|before|].minor == name && FirstOf(names, name) == |names|
    ensures InOrderOfAppearance(names + [name], after)
  {
    forall i | 0 <= i < |before| ensures FirstOf(names + [name], after[i].minor) == FirstOf(names, before[i].minor) {
      FirstStays(names, name, before[i].minor);
    }
    if |after| > |before| { FirstUnique(names + [name], name, |names|); }
  }

  lemma {:induction false} SortEachNames(buckets: seq<Series>)
    ensures |SortEach(buckets)| == |buckets|
    ensures forall i | 0 <= i < |buckets| :: SortEach(buckets)[i].minor == buckets[i].minor
  {
    if buckets == [] {
    } else {
      SortEachNames(buckets[1..]);
    }
  }

  /** Series of one line stand in the order their spellings first appear. */
  ghost predicate TiesAppear(names: seq<string>, series: seq<Series>) {
    forall i, j | 0 <= i < j < |series| && SameLine(SeriesVersion(series[i]), SeriesVersion(series[j])) ::
      FirstOf(names, series[i].minor) < FirstOf(names, series[j].minor)
  }

  lemma {:induction false} GroupingTies(releases: seq<Release>)
    ensures TiesAppear(Spellings(releases), GroupIntoSeries(releases))
  {
    var names := Spellings(releases);
    var rank := (s: Series) => FirstOf(names, s.minor);
    var each, series := SortEach(Buckets(releases)), GroupIntoSeries(releases);
    BucketsAppear(releases);
    SortEachNames(Buckets(releases));
    SortRanks(NEWEST_SERIES, rank, each);
    GroupsAreTidy(releases);
    forall i, j | 0 <= i < j < |series| && SameLine(SeriesVersion(series[i]), SeriesVersion(series[j]))
      ensures FirstOf(names, series[i].minor) < FirstOf(names, series[j].minor)
    {
      assert series[i] in series && series[j] in series;
      SeriesLevel(series[j], series[i]);
      assert NEWEST_SERIES(series[j], series[i]);
      assert rank(series[i]) < rank(series[j]);
    }
  }

  // ---- Exactly when the flattened series are in order ----

  /**
   * Where one major and minor number is spelled in two ways, no release under the spelling that appears later is
   * newer than one under the spelling that appears first.
   */
  ghost predicate SpellingsInOrder(releases: seq<Release>) {
    var names := Spellings(releases);
    forall r <- releases, q <- releases
      | SameLine(r.version, q.version) && FirstOf(names, MinorSeriesOf(r.version)) < FirstOf(names, MinorSeriesOf(q.version)) ::
      NEWEST_RELEASE(r, q)
  }

  /** What grouping is known to leave. */
  ghost predicate Grouped(releases: seq<Release>, series: seq<Series>) {
    && multiset(FlattenSeries(series)) == multiset(releases) && Tidy(series)
    && Sorted(NEWEST_SERIES, series) && TiesAppear(Spellings(releases), series)
  }

  /** The series a release is in. */
  lemma {:induction false} SeriesOf(releases: seq<Release>, series: seq<Series>, r: Release) returns (i: nat)
    requires Grouped(releases, series) && r in releases
    ensures i < |series| && r in series[i].releases && Homogeneous(series[i])
  {
    FlattenMembers(series);
    Members(releases, multiset(FlattenSeries(series)));
    assert r in FlattenSeries(series);
    var s :| s in series && r in s.releases;
    i :| 0 <= i < |series| && series[i] == s;
  }

  lemma {:induction false} PairOrdered(names: seq<string>, series: seq<Series>, i: nat, j: nat, r: Release, q: Release)
    requires TiesAppear(names, series) && Sorted(ALL_BEFORE, series) && i < |series| && j < |series|
    requires Homogeneous(series[i]) && r in series[i].releases && Homogeneous(series[j]) && q in series[j].releases
    requires SameLine(r.version, q.version) && FirstOf(names, series[i].minor) < FirstOf(names, series[j].minor)
    ensures NEWEST_RELEASE(r, q)
  {
    OnSeriesLine(series[i], r);
    OnSeriesLine(series[j], q);
    if i < j { assert ALL_BEFORE(series[i], series[j]); }
  }

  lemma {:induction false} PairsMeanSpellings(releases: seq<Release>, series: seq<Series>)
    requires Grouped(releases, series) && Sorted(ALL_BEFORE, series)
    ensures SpellingsInOrder(releases)
  {
    var names := Spellings(releases);
    forall r <- releases, q <- releases
      | SameLine(r.version, q.version) && FirstOf(names, MinorSeriesOf(r.version)) < FirstOf(names, MinorSeriesOf(q.version))
      ensures NEWEST_RELEASE(r, q)
    {
      var i := SeriesOf(releases, series, r);
      var j := SeriesOf(releases, series, q);
      PairOrdered(names, series, i, j, r, q);
    }
  }

  lemma {:induction false} ReleaseInOrder(
    releases: seq<Release>, names: seq<string>, a: Series, b: Series, r: Release, q: Release)
    requires SpellingsInOrder(releases) && names == Spellings(releases) && r in releases && q in releases
    requires Homogeneous(a) && r in a.releases && Homogeneous(b) && q in b.releases && NEWEST_SERIES(a, b)
    requires SameLine(SeriesVersion(a), SeriesVersion(b)) ==> FirstOf(names, a.minor) < FirstOf(names, b.minor)
    ensures NEWEST_RELEASE(r, q)
  {
    OnSeriesLine(a, r);
    OnSeriesLine(b, q);
    if !SameLine(r.version, q.version) { SeriesDecide(a, b, r, q); }
  }

  lemma {:induction false} SeriesInOrder(releases: seq<Release>, series: seq<Series>, i: nat, j: nat)
    requires Grouped(releases, series) && SpellingsInOrder(releases) && i < j < |series|
    ensures Before(series[i], series[j])
  {
    var a, b := series[i], series[j];
    assert a in series && b in series && NEWEST_SERIES(a, b);
    FlattenMembers(series);
    Members(FlattenSeries(series), multiset(releases));
    forall r <- a.releases, q <- b.releases ensures NEWEST_RELEASE(r, q) {
      assert r in FlattenSeries(series) && q in FlattenSeries(series);
      ReleaseInOrder(releases, Spellings(releases), a, b, r, q);
    }
  }

  /**
   * The series, laid end to end, list all releases newest first exactly when releases of one major and minor number
   * that are spelled differently are in order already, spelling by spelling as the spellings first appear.
   */
  lemma {:induction false} FlattenedInOrderExactly(releases: seq<Release>)
    ensures Sorted(NEWEST_RELEASE, FlattenSeries(GroupIntoSeries(releases))) <==> SpellingsInOrder(releases)
  {
    var series := GroupIntoSeries(releases);
    GroupsAreTidy(releases);
    GroupingTies(releases);
    FlattenSortedExactly(series);
    if Sorted(ALL_BEFORE, series) { PairsMeanSpellings(releases, series); }
    if SpellingsInOrder(releases) {
      forall i, j | 0 <= i < j < |series| ensures ALL_BEFORE(series[i], series[j]) {
        SeriesInOrder(releases, series, i, j);
      }
    }
  }

  // ---- One series to a line ----

  /** Releases of one major and minor number spell them alike. */
  ghost predicate Canonical(releases: seq<Release>) {
    forall r <- releases, q <- releases ::
      SameLine(r.version, q.version) ==> MinorSeriesOf(r.version) == MinorSeriesOf(q.version)
  }

  lemma {:induction false} SpelledAlike(series: seq<Series>, a: Series, b: Series)
    requires OneSeriesPerLine(series) && a in series && b in series
    requires SameLine(SeriesVersion(a), SeriesVersion(b))
    ensures a.minor == b.minor
  {
  }

  /** Each major and minor number has one series exactly when no two releases spell it differently. */
  lemma {:induction false} OneSeriesPerLineExactly(releases: seq<Release>)
    ensures OneSeriesPerLine(GroupIntoSeries(releases)) <==> Canonical(releases)
  {
    var series := GroupIntoSeries(releases);
    GroupsAreTidy(releases);
    if Canonical(releases) { CanonicalSeparates(releases, series); }
    if OneSeriesPerLine(series) { SeparateIsCanonical(releases, series); }
  }

  lemma {:induction false} CanonicalSeparates(releases: seq<Release>, series: seq<Series>)
    requires Canonical(releases) && Tidy(series) && multiset(FlattenSeries(series)) == multiset(releases)
    ensures OneSeriesPerLine(series)
  {
    FlattenMembers(series);
    Members(FlattenSeries(series), multiset(releases));
    forall i, j | 0 <= i < j < |series| ensures !SameLine(SeriesVersion(series[i]), SeriesVersion(series[j])) {
      assert series[i] in series && series[j] in series;
      var r, q := series[i].releases[0], series[j].releases[0];
      assert r in series[i].releases && q in series[j].releases;
      assert r in FlattenSeries(series) && q in FlattenSeries(series);
      SeriesLine(r.version);
      SeriesLine(q.version);
    }
  }

  lemma {:induction false} SeparateIsCanonical(releases: seq<Release>, series: seq<Series>)
    requires OneSeriesPerLine(series) && Tidy(series) && multiset(FlattenSeries(series)) == multiset(releases)
    ensures Canonical(releases)
  {
    FlattenMembers(series);
    Members(releases, multiset(FlattenSeries(series)));
    forall r <- releases, q <- releases | SameLine(r.version, q.version)
      ensures MinorSeriesOf(r.version) == MinorSeriesOf(q.version)
    {
      assert r in FlattenSeries(series) && q in FlattenSeries(series);
      var a :| a in series && r in a.releases;
      var b :| b in series && q in b.releases;
      SeriesLine(r.version);
      SeriesLine(q.version);
      SpelledAlike(series, a, b);
    }
  }

  /** A core of three plain numbers, as in every version without leading zeros. */
  ghost predicate PlainCore(version: string) {
    var parts := Split(Split(version, '-')[0], '.');
    |parts| == 3 && PlainDigits(parts[0]) && PlainDigits(parts[1]) && PlainDigits(parts[2])
  }

  lemma {:induction false} PlainSpelling(v: string, w: string)
    requires PlainCore(v) && PlainCore(w) && SameLine(v, w)
    ensures MinorSeriesOf(v) == MinorSeriesOf(w)
  {
    var x, y := Split(Split(v, '-')[0], '.'), Split(Split(w, '-')[0], '.');
    PlainDigitsUnique(x[0], y[0]);
    PlainDigitsUnique(x[1], y[1]);
  }

  /** Without leading zeros, flattening lists all releases newest first, with one series to each line. */
  lemma {:induction false} PlainVersionsStayInOrder(releases: seq<Release>)
    requires forall r <- releases :: PlainCore(r.version)
    ensures Sorted(NEWEST_RELEASE, FlattenSeries(GroupIntoSeries(releases)))
    ensures OneSeriesPerLine(GroupIntoSeries(releases))
  {
    forall r <- releases, q <- releases | SameLine(r.version, q.version)
      ensures MinorSeriesOf(r.version) == MinorSeriesOf(q.version)
    {
      PlainSpelling(r.version, q.version);
    }
    OneSeriesPerLineExactly(releases);
    FlattenedInOrderExactly(releases);
  }

  /** With a leading zero, the flattened series can be out of order: `01.2.1` comes after `1.2.0`. */
  lemma {:induction false} LeadingZeroBreaksOrder(v: string, w: string, u: string)
    requires v == ['1', '.', '2', '.', '2'] && w == ['0', '1', '.', '2', '.', '1'] && u == ['1', '.', '2', '.', '0']
    ensures var releases := [Release(v, ""), Release(w, ""), Release(u, "")];
            !Sorted(NEWEST_RELEASE, FlattenSeries(GroupIntoSeries(releases)))
  {
    var one, two, nil, zeroOne := SmallNumbers();
    var m, k := one + "." + two, zeroOne + "." + two;
    assert v == one + "." + two + "." + two && u == one + "." + two + "." + nil;
    assert w == zeroOne + "." + two + "." + one;
    Read(one, two, two, v, m, 1, 2, 2);
    Read(zeroOne, two, one, w, k, 1, 2, 1);
    Read(one, two, nil, u, m, 1, 2, 0);
    ByKeys(u, w, SortKey(1, 2, 0, None), SortKey(1, 2, 1, None));
    assert m[0] == '1' && k[0] == '0';
    LaterSpellingNewer(Release(v, ""), Release(w, ""), Release(u, ""));
  }

  /** Two spellings of one line, the first also holding a release older than the second's. */
  lemma {:induction false} LaterSpellingNewer(x: Release, y: Release, z: Release)
    requires MinorSeriesOf(x.version) == MinorSeriesOf(z.version) != MinorSeriesOf(y.version)
    requires SameLine(z.version, y.version) && !NEWEST_RELEASE(z, y)
    ensures !Sorted(NEWEST_RELEASE, FlattenSeries(GroupIntoSeries([x, y, z])))
  {
    var releases := [x, y, z];
    FlattenedInOrderExactly(releases);
    FirstUnique(Spellings(releases), MinorSeriesOf(z.version), 0);
    FirstUnique(Spellings(releases), MinorSeriesOf(y.version), 1);
    assert releases[2] in releases && releases[1] in releases;
  }

  lemma {:induction false} ByKeys(a: string, b: string, x: SortKey, y: SortKey)
    requires VersionSortKey(a) == x && VersionSortKey(b) == y && x.pre.None? && y.pre.None?
    requires x.major == y.major && x.minor == y.minor
    ensures CompareDescending(a, b) == y.patch - x.patch
  {
  }

  lemma {:induction false} Read(a: string, b: string, c: string, version: string, minor: string, x: nat, y: nat, z: nat)
    requires AllDigits(a) && AllDigits(b) && AllDigits(c)
    requires version == a + "." + b + "." + c && minor == a + "." + b
    requires Number(a) == x && Number(b) == y && Number(c) == z
    ensures VersionSortKey(version) == SortKey(x, y, z, None) && MinorSeriesOf(version) == minor
  {
    KeyOfThree(a, b, c, version);
  }

  lemma {:induction false} SmallNumbers() returns (one: string, two: string, nil: string, zeroOne: string)
    ensures one == ['1'] && two == ['2'] && nil == ['0'] && zeroOne == ['0', '1']
    ensures Number(one) == 1 && Number(two) == 2 && Number(nil) == 0 && Number(zeroOne) == 1
  {
    nil, one, two := "" + ['0'], "" + ['1'], "" + ['2'];
    zeroOne := nil + ['1'];
    NumberPush("", '0');
    NumberPush("", '1');
    NumberPush("", '2');
    NumberPush(nil, '1');
  }
}
