/** JavaScript's stable array sort, for any comparison that is a total preorder. */
module Sorting {

  ghost predicate TotalPreorder<T(!new)>(notAfter: (T, T) -> bool) {
    && (forall x, y :: notAfter(x, y) || notAfter(y, x))
    && (forall x, y, z :: notAfter(x, y) && notAfter(y, z) ==> notAfter(x, z))
  }

  /** Put one item before the first it need not follow. */
  function Insert<T>(notAfter: (T, T) -> bool, item: T, sorted: seq<T>): seq<T> {
    if sorted == [] || notAfter(item, sorted[0]) then [item] + sorted
    else [sorted[0]] + Insert(notAfter, item, sorted[1..])
  }

  /** `items.sort(compare)`, stable: equal items keep their order. */
  function Sort<T>(notAfter: (T, T) -> bool, items: seq<T>): seq<T> {
    if items == [] then [] else Insert(notAfter, items[0], Sort(notAfter, items[1..]))
  }

  ghost predicate Sorted<T>(notAfter: (T, T) -> bool, items: seq<T>) {
    forall i, j | 0 <= i < j < |items| :: notAfter(items[i], items[j])
  }

  lemma {:induction false} InsertKeeps<T>(notAfter: (T, T) -> bool, item: T, sorted: seq<T>)
    ensures multiset(Insert(notAfter, item, sorted)) == multiset(sorted) + multiset{item}
  {
    if sorted != [] && !notAfter(item, sorted[0]) {
      InsertKeeps(notAfter, item, sorted[1..]);
      assert sorted == [sorted[0]] + sorted[1..];
    }
  }

  lemma {:induction false} SortKeeps<T>(notAfter: (T, T) -> bool, items: seq<T>)
    ensures multiset(Sort(notAfter, items)) == multiset(items)
    ensures |Sort(notAfter, items)| == |items|
  {
    if items == [] {
    } else {
      SortKeeps(notAfter, items[1..]);
      InsertKeeps(notAfter, items[0], Sort(notAfter, items[1..]));
      assert items == [items[0]] + items[1..];
    }
    assert |multiset(Sort(notAfter, items))| == |Sort(notAfter, items)|;
  }

  lemma {:induction false} Members<T>(a: seq<T>, b: multiset<T>)
    requires multiset(a) == b
    ensures forall x <- a :: x in b
  {
  }

  lemma {:induction false} InsertSorts<T(!new)>(notAfter: (T, T) -> bool, item: T, sorted: seq<T>)
    requires TotalPreorder(notAfter) && Sorted(notAfter, sorted)
    ensures Sorted(notAfter, Insert(notAfter, item, sorted))
  {
    if sorted == [] {
    } else {
      var head, tail := sorted[0], sorted[1..];
      if notAfter(item, head) {
        forall j | 1 <= j < |sorted| ensures notAfter(item, sorted[j]) { assert notAfter(head, sorted[j]); }
      } else {
        InsertSorts(notAfter, item, tail);
        var rest := Insert(notAfter, item, tail);
        InsertKeeps(notAfter, item, tail);
        forall j | 0 <= j < |rest| ensures notAfter(head, rest[j]) {
          assert rest[j] in multiset(rest);
          if rest[j] != item {
            assert rest[j] in tail;
            var k :| 0 <= k < |tail| && tail[k] == rest[j];
            assert sorted[k + 1] == rest[j];
          }
        }
      }
    }
  }

  lemma {:induction false} SortSorts<T(!new)>(notAfter: (T, T) -> bool, items: seq<T>)
    requires TotalPreorder(notAfter)
    ensures Sorted(notAfter, Sort(notAfter, items))
  {
    if items == [] {
    } else {
      SortSorts(notAfter, items[1..]);
      InsertSorts(notAfter, items[0], Sort(notAfter, items[1..]));
    }
  }

  /** The sorted items of equal standing are the original ones, in their original order. */
  lemma {:induction false} SortIsStable<T(!new)>(notAfter: (T, T) -> bool, items: seq<T>, item: T)
    requires TotalPreorder(notAfter)
    ensures Level(notAfter, Sort(notAfter, items), item) == Level(notAfter, items, item)
  {
    if items == [] {
    } else {
      SortIsStable(notAfter, items[1..], item);
      SortSorts(notAfter, items[1..]);
      InsertIsStable(notAfter, items[0], Sort(notAfter, items[1..]), item);
    }
  }

  /** The items that tie with one item, in order. */
  function Level<T>(notAfter: (T, T) -> bool, items: seq<T>, item: T): seq<T> {
    if items == [] then []
    else (if notAfter(items[0], item) && notAfter(item, items[0]) then [items[0]] else [])
         + Level(notAfter, items[1..], item)
  }

  lemma {:induction false} InsertIsStable<T(!new)>(notAfter: (T, T) -> bool, x: T, sorted: seq<T>, item: T)
    requires TotalPreorder(notAfter) && Sorted(notAfter, sorted)
    ensures Level(notAfter, Insert(notAfter, x, sorted), item) == Level(notAfter, [x] + sorted, item)
  {
    var result := Insert(notAfter, x, sorted);
    assert ([x] + sorted)[1..] == sorted;
    if sorted != [] && !notAfter(x, sorted[0]) {
      InsertIsStable(notAfter, x, sorted[1..], item);
      assert result[1..] == Insert(notAfter, x, sorted[1..]);
      assert ([x] + sorted[1..])[1..] == sorted[1..];
    }
  }

  /** Items are sorted when the first may come before each that follows, and those are sorted. */
  lemma {:induction false} SortedPeel<T(!new)>(notAfter: (T, T) -> bool, items: seq<T>)
    requires items != []
    ensures Sorted(notAfter, items) <==> Sorted(notAfter, items[1..]) && forall x <- items[1..] :: notAfter(items[0], x)
  {
    var head, rest := items[0], items[1..];
    if Sorted(notAfter, items) {
      forall x <- rest ensures notAfter(head, x) {
        var k :| 0 <= k < |rest| && rest[k] == x;
        assert items[k + 1] == x;
      }
      assert forall j | 0 <= j < |rest| :: rest[j] == items[j + 1];
    } else if forall x <- rest :: notAfter(head, x) {
      assert forall j | 1 <= j < |items| :: items[j] == rest[j - 1] && rest[j - 1] in rest;
    }
  }

  /** Of two sorted items that do not come strictly after each other, the one of lower rank is first. */
  ghost predicate Ranked<T(!new)>(notAfter: (T, T) -> bool, rank: T -> int, items: seq<T>) {
    forall i, j | 0 <= i < j < |items| && notAfter(items[j], items[i]) :: rank(items[i]) < rank(items[j])
  }

  lemma {:induction false} RankedCons<T(!new)>(notAfter: (T, T) -> bool, rank: T -> int, head: T, rest: seq<T>)
    requires Ranked(notAfter, rank, rest) && forall x <- rest | notAfter(x, head) :: rank(head) < rank(x)
    ensures Ranked(notAfter, rank, [head] + rest)
  {
    var all := [head] + rest;
    forall i, j | 0 <= i < j < |all| && notAfter(all[j], all[i]) ensures rank(all[i]) < rank(all[j]) {
      assert all[j] == rest[j - 1] && rest[j - 1] in rest;
    }
  }

  lemma {:induction false} RankedHead<T(!new)>(notAfter: (T, T) -> bool, rank: T -> int, sorted: seq<T>, x: T)
    requires Ranked(notAfter, rank, sorted) && sorted != [] && x in sorted[1..] && notAfter(x, sorted[0])
    ensures rank(sorted[0]) < rank(x)
  {
    var k :| 0 <= k < |sorted[1..]| && sorted[1..][k] == x;
    assert sorted[k + 1] == x;
  }

  lemma {:induction false} InsertRanks<T(!new)>(notAfter: (T, T) -> bool, rank: T -> int, item: T, sorted: seq<T>)
    requires Ranked(notAfter, rank, sorted) && forall x <- sorted :: rank(item) < rank(x)
    ensures Ranked(notAfter, rank, Insert(notAfter, item, sorted))
  {
    if sorted == [] || notAfter(item, sorted[0]) {
      RankedCons(notAfter, rank, item, sorted);
    } else {
      var head, tail := sorted[0], sorted[1..];
      var rest := Insert(notAfter, item, tail);
      assert forall x <- tail :: x in sorted;
      InsertRanks(notAfter, rank, item, tail);
      InsertKeeps(notAfter, item, tail);
      Members(rest, multiset(tail) + multiset{item});
      forall x <- rest | notAfter(x, head) ensures rank(head) < rank(x) {
        if x != item { RankedHead(notAfter, rank, sorted, x); }
      }
      RankedCons(notAfter, rank, head, rest);
    }
  }

  /** Sorting keeps ties in the order they came in, stated on places: rank may be any measure that grew along the input. */
  lemma {:induction false} SortRanks<T(!new)>(notAfter: (T, T) -> bool, rank: T -> int, items: seq<T>)
    requires forall i, j | 0 <= i < j < |items| :: rank(items[i]) < rank(items[j])
    ensures Ranked(notAfter, rank, Sort(notAfter, items))
  {
    if items == [] {
    } else {
      var tail := Sort(notAfter, items[1..]);
      SortRanks(notAfter, rank, items[1..]);
      SortKeeps(notAfter, items[1..]);
      Members(tail, multiset(items[1..]));
      forall x <- tail ensures rank(items[0]) < rank(x) {
        assert x in items[1..];
        var k :| 0 <= k < |items[1..]| && items[1..][k] == x;
        assert items[k + 1] == x;
      }
      InsertRanks(notAfter, rank, items[0], tail);
    }
  }
}
