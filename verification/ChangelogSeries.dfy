/** Grouping releases into minor series, newest first. */
module ChangelogSeries {
  import opened Decimal
  import opened Text
  import opened Wrappers
  import opened ChangelogOrder
  import opened Sorting

  datatype Release = Release(version: string, notes: string)

  datatype Series = Series(minor: string, releases: seq<Release>)

  function MinorSeriesOf(version: string): string {
    var parts := Split(Split(version, '-')[0], '.');
    parts[0] + "." + Part(parts, 1)
  }

  /** The series line used to order series: its first release number. */
  function SeriesVersion(series: Series): string { series.minor + ".0" }

  // ---- Buckets by minor series ----

  const NEWEST_RELEASE: (Release, Release) -> bool := (a: Release, b: Release) => CompareDescending(a.version, b.version) <= 0

  const NEWEST_SERIES: (Series, Series) -> bool :=
    (a: Series, b: Series) => CompareDescending(SeriesVersion(a), SeriesVersion(b)) <= 0

  /** `byMinor`, a map in insertion order: push onto the bucket of this series, or open one. */
  function Push(buckets: seq<Series>, minor: string, release: Release): seq<Series> {
    if buckets == [] then [Series(minor, [release])]
    else if buckets[0].minor == minor then [Series(minor, buckets[0].releases + [release])] + buckets[1..]
    else [buckets[0]] + Push(buckets[1..], minor, release)
  }

  function Buckets(releases: seq<Release>): seq<Series> {
    if releases == [] then []
    else
      var last := releases[|releases| - 1];
      Push(Buckets(releases[..|releases| - 1]), MinorSeriesOf(last.version), last)
  }

  function SortEach(buckets: seq<Series>): seq<Series> {
    if buckets == [] then []
    else [Series(buckets[0].minor, Sort(NEWEST_RELEASE, buckets[0].releases))] + SortEach(buckets[1..])
  }

  function GroupIntoSeries(releases: seq<Release>): seq<Series> {
    Sort(NEWEST_SERIES, SortEach(Buckets(releases)))
  }

  /** `groupIntoSeries` as written. */
  method Group(releases: seq<Release>) returns (series: seq<Series>)
    ensures series == GroupIntoSeries(releases)
  {
    var byMinor: seq<Series> := [];
    for i := 0 to |releases|
      invariant byMinor == Buckets(releases[..i])
    {
      assert releases[..i + 1][..i] == releases[..i];
      byMinor := Push(byMinor, MinorSeriesOf(releases[i].version), releases[i]);
    }
    assert releases[..|releases|] == releases;
    series := Sort(NEWEST_SERIES, SortEach(byMinor));
  }

  function FlattenSeries(series: seq<Series>): seq<Release> {
    if series == [] then [] else series[0].releases + FlattenSeries(series[1..])
  }

  // ---- Each series is homogeneous, and nothing is lost ----

  ghost predicate Distinct(series: seq<Series>) {
    forall i, j | 0 <= i < j < |series| :: series[i].minor != series[j].minor
  }

  /** Series are non-empty, hold only their own releases, and have distinct names. */
  ghost predicate Tidy(series: seq<Series>) {
    (forall s <- series :: Homogeneous(s)) && Distinct(series)
  }

  lemma {:induction false} OrdersAreSound()
    ensures TotalPreorder(NEWEST_RELEASE) && TotalPreorder(NEWEST_SERIES)
  {
    forall a, b, c: string ensures CompareDescending(a, b) <= 0 || CompareDescending(b, a) <= 0
      ensures CompareDescending(a, b) <= 0 && CompareDescending(b, c) <= 0 ==> CompareDescending(a, c) <= 0
    {
      CompareIsTotalPreorder(a, b, c);
    }
  }

  lemma {:induction false} PushNames(buckets: seq<Series>, minor: string, release: Release)
    ensures forall s <- Push(buckets, minor, release) :: s.minor == minor || exists b <- buckets :: b.minor == s.minor
  {
    if buckets != [] && buckets[0].minor != minor {
      PushNames(buckets[1..], minor, release);
      var tail := Push(buckets[1..], minor, release);
      forall s <- [buckets[0]] + tail ensures s.minor == minor || exists b <- buckets :: b.minor == s.minor {
        if s in tail && s.minor != minor {
          var b :| b in buckets[1..] && b.minor == s.minor;
          assert b in buckets;
        } else if s == buckets[0] {
          assert s in buckets;
        }
      }
    } else if buckets != [] {
      assert buckets[0] in buckets;
    }
  }

  ghost predicate Homogeneous(s: Series) {
    s.releases != [] && forall r <- s.releases :: MinorSeriesOf(r.version) == s.minor
  }

  lemma {:induction false} PushHomogeneous(buckets: seq<Series>, release: Release)
    requires forall s <- buckets :: Homogeneous(s)
    ensures forall s <- Push(buckets, MinorSeriesOf(release.version), release) :: Homogeneous(s)
  {
    if buckets == [] {
    } else {
      assert buckets[0] in buckets && forall b <- buckets[1..] :: b in buckets;
      if buckets[0].minor != MinorSeriesOf(release.version) { PushHomogeneous(buckets[1..], release); }
    }
  }

  lemma {:induction false} PushDistinct(buckets: seq<Series>, minor: string, release: Release)
    requires Distinct(buckets)
    ensures Distinct(Push(buckets, minor, release))
  {
    if buckets != [] && buckets[0].minor != minor {
      var rest := buckets[1..];
      var tail := Push(rest, minor, release);
      PushDistinct(rest, minor, release);
      PushNames(rest, minor, release);
      forall j | 0 <= j < |tail| ensures tail[j].minor != buckets[0].minor {
        assert tail[j] in tail;
        if tail[j].minor != minor {
          var b :| b in rest && b.minor == tail[j].minor;
          var k :| 0 <= k < |rest| && rest[k] == b;
          assert buckets[k + 1] == b;
        }
      }
    }
  }

  lemma {:induction false} PushFlattens(buckets: seq<Series>, minor: string, release: Release)
    ensures multiset(FlattenSeries(Push(buckets, minor, release))) == multiset(FlattenSeries(buckets)) + multiset{release}
  {
    var pushed := Push(buckets, minor, release);
    if buckets == [] {
      assert FlattenSeries(pushed) == [release];
    } else if buckets[0].minor == minor {
      assert pushed[1..] == buckets[1..];
    } else {
      PushFlattens(buckets[1..], minor, release);
      assert pushed[1..] == Push(buckets[1..], minor, release);
    }
  }

  lemma {:induction false} BucketsTidy(releases: seq<Release>)
    ensures Tidy(Buckets(releases)) && multiset(FlattenSeries(Buckets(releases))) == multiset(releases)
  {
    if releases == [] {
    } else {
      var init, last := releases[..|releases| - 1], releases[|releases| - 1];
      BucketsTidy(init);
      TidyPush(Buckets(init), last);
      assert releases == init + [last];
    }
  }

  /** One more release in its bucket. */
  lemma {:induction false} TidyPush(buckets: seq<Series>, last: Release)
    requires Tidy(buckets)
    ensures var more := Push(buckets, MinorSeriesOf(last.version), last);
            Tidy(more) && multiset(FlattenSeries(more)) == multiset(FlattenSeries(buckets)) + multiset{last}
  {
    PushHomogeneous(buckets, last);
    PushDistinct(buckets, MinorSeriesOf(last.version), last);
    PushFlattens(buckets, MinorSeriesOf(last.version), last);
  }

  lemma {:induction false} SortHomogeneous(s: Series)
    requires Homogeneous(s)
    ensures Homogeneous(Series(s.minor, Sort(NEWEST_RELEASE, s.releases)))
  {
    SortKeeps(NEWEST_RELEASE, s.releases);
    Members(Sort(NEWEST_RELEASE, s.releases), multiset(s.releases));
  }

  lemma {:induction false} SortEachKeeps(buckets: seq<Series>)
    requires forall s <- buckets :: Homogeneous(s)
    ensures var sorted := SortEach(buckets);
            && |sorted| == |buckets| && (forall i | 0 <= i < |sorted| :: sorted[i].minor == buckets[i].minor)
            && (forall s <- sorted :: Homogeneous(s) && Sorted(NEWEST_RELEASE, s.releases))
            && multiset(FlattenSeries(sorted)) == multiset(FlattenSeries(buckets))
  {
    if buckets == [] {
    } else {
      var head := buckets[0];
      assert head in buckets && forall b <- buckets[1..] :: b in buckets;
      SortEachKeeps(buckets[1..]);
      SortHomogeneous(head);
      SortKeeps(NEWEST_RELEASE, head.releases);
      OrdersAreSound();
      SortSorts(NEWEST_RELEASE, head.releases);
      assert SortEach(buckets)[1..] == SortEach(buckets[1..]);
    }
  }

  lemma {:induction false} FlattenInsert(item: Series, sorted: seq<Series>)
    ensures multiset(FlattenSeries(Insert(NEWEST_SERIES, item, sorted)))
            == multiset(item.releases) + multiset(FlattenSeries(sorted))
    decreases |sorted|
  {
    var result := Insert(NEWEST_SERIES, item, sorted);
    if sorted == [] || NEWEST_SERIES(item, sorted[0]) {
      assert result[1..] == sorted;
    } else {
      FlattenInsert(item, sorted[1..]);
      assert result[1..] == Insert(NEWEST_SERIES, item, sorted[1..]);
    }
  }

  lemma {:induction false} FlattenSort(items: seq<Series>)
    ensures multiset(FlattenSeries(Sort(NEWEST_SERIES, items))) == multiset(FlattenSeries(items))
    decreases |items|
  {
    if items == [] {
    } else {
      FlattenSort(items[1..]);
      FlattenInsert(items[0], Sort(NEWEST_SERIES, items[1..]));
    }
  }

  /** `groupIntoSeries` loses, adds and misfiles nothing, and orders series and the releases in each. */
  lemma {:induction false} GroupsAreTidy(releases: seq<Release>)
    ensures var series := GroupIntoSeries(releases);
            && multiset(FlattenSeries(series)) == multiset(releases)
            && Tidy(series) && (forall s <- series :: Sorted(NEWEST_RELEASE, s.releases))
            && Sorted(NEWEST_SERIES, series)
  {
    var buckets := Buckets(releases);
    var each := SortEach(buckets);
    BucketsTidy(releases);
    SortEachKeeps(buckets);
    FlattenSort(each);
    OrdersAreSound();
    SortSorts(NEWEST_SERIES, each);
    SortKeeps(NEWEST_SERIES, each);
    Members(Sort(NEWEST_SERIES, each), multiset(each));
    SortDistinct(each);
  }

  lemma {:induction false} InsertDistinct(item: Series, sorted: seq<Series>)
    requires Distinct(sorted) && forall s <- sorted :: s.minor != item.minor
    ensures Distinct(Insert(NEWEST_SERIES, item, sorted))
  {
    if sorted == [] || NEWEST_SERIES(item, sorted[0]) {
      DistinctCons(item, sorted);
    } else {
      var head, tail := sorted[0], sorted[1..];
      var rest := Insert(NEWEST_SERIES, item, tail);
      assert head in sorted && forall s <- tail :: s in sorted;
      InsertDistinct(item, tail);
      InsertKeeps(NEWEST_SERIES, item, tail);
      Members(rest, multiset(tail) + multiset{item});
      forall s <- rest ensures s.minor != head.minor { if s != item { InTail(sorted, s); } }
      DistinctCons(head, rest);
    }
  }

  lemma {:induction false} InTail(sorted: seq<Series>, s: Series)
    requires Distinct(sorted) && sorted != [] && s in sorted[1..]
    ensures s.minor != sorted[0].minor
  {
    var k :| 0 <= k < |sorted[1..]| && sorted[1..][k] == s;
    assert sorted[k + 1] == s;
  }

  lemma {:induction false} DistinctCons(head: Series, rest: seq<Series>)
    requires Distinct(rest) && forall s <- rest :: s.minor != head.minor
    ensures Distinct([head] + rest)
  {
    var all := [head] + rest;
    forall i, j | 0 <= i < j < |all| ensures all[i].minor != all[j].minor { assert all[j] in rest; }
  }

  lemma {:induction false} SortDistinct(items: seq<Series>)
    requires Distinct(items)
    ensures Distinct(Sort(NEWEST_SERIES, items))
  {
    if items == [] {
    } else {
      SortDistinct(items[1..]);
      var sorted := Sort(NEWEST_SERIES, items[1..]);
      SortKeeps(NEWEST_SERIES, items[1..]);
      Members(sorted, multiset(items[1..]));
      InsertDistinct(items[0], sorted);
    }
  }
}
