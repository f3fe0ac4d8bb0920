/** Ordering changelog versions newest first, measured against SemVer precedence. */
module ChangelogOrder {
  import opened Decimal
  import opened Text
  import opened Wrappers

  /** What a version sorts by: three numbers, and the identifiers of its prerelease if it has one. */
  datatype SortKey = SortKey(major: nat, minor: nat, patch: nat, pre: Option<seq<string>>)

  /** `Number(part) || 0` for a part of digits; anything else counts as 0. */
  function PartNumber(part: string): nat { if AllDigits(part) then Number(part) else 0 }

  function Part(parts: seq<string>, i: nat): string { if i < |parts| then parts[i] else "0" }

  function VersionSortKey(version: string): SortKey {
    var pieces := Split(version, '-');
    var parts := Split(pieces[0], '.');
    SortKey(PartNumber(Part(parts, 0)), PartNumber(Part(parts, 1)), PartNumber(Part(parts, 2)),
            if |pieces| > 1 then Some(Split(pieces[1], '.')) else None)
  }

  /** `a < b` on strings: the first differing character decides, and a prefix comes first. */
  predicate StringLess(a: string, b: string) {
    b != "" && (a == "" || a[0] < b[0] || (a[0] == b[0] && StringLess(a[1..], b[1..])))
  }

  function ComparePrereleaseParts(a: Option<string>, b: Option<string>): int {
    if a.None? || b.None? then (if a.None? then (if b.None? then 0 else -1) else 1)
    else
      var x, y := a.value, b.value;
      if AllDigits(x) && AllDigits(y) then Number(x) - Number(y)
      else if AllDigits(x) || AllDigits(y) then (if AllDigits(x) then -1 else 1)
      else if StringLess(x, y) then -1 else if StringLess(y, x) then 1 else 0
  }

  function At(parts: seq<string>, i: nat): Option<string> { if i < |parts| then Some(parts[i]) else None }

  /** The identifier loop from `index` on. */
  function ComparePre(left: seq<string>, right: seq<string>, index: nat): int
    decreases |left| + |right| - index
  {
    if index >= |left| && index >= |right| then 0
    else
      var difference := ComparePrereleaseParts(At(right, index), At(left, index));
      if difference != 0 then difference else ComparePre(left, right, index + 1)
  }

  function CompareKeys(left: SortKey, right: SortKey): int {
    if right.major != left.major then right.major - left.major
    else if right.minor != left.minor then right.minor - left.minor
    else if right.patch != left.patch then right.patch - left.patch
    else if left.pre.None? || right.pre.None? then
      (if left.pre.None? then (if right.pre.None? then 0 else -1) else 1)
    else ComparePre(left.pre.value, right.pre.value, 0)
  }

  function CompareDescending(a: string, b: string): int {
    CompareKeys(VersionSortKey(a), VersionSortKey(b))
  }

  /** `compareVersionsDescending` as written, with its two loops. */
  method CompareVersionsDescending(a: string, b: string) returns (order: int)
    ensures order == CompareDescending(a, b)
  {
    var left, right := VersionSortKey(a), VersionSortKey(b);
    var leftCore: seq<int> := [left.major, left.minor, left.patch];
    var rightCore: seq<int> := [right.major, right.minor, right.patch];
    for index := 0 to 3
      invariant forall i | 0 <= i < index :: leftCore[i] == rightCore[i]
    {
      var difference := rightCore[index] - leftCore[index];
      if difference != 0 {
        assert index == 0 || (index == 1 && leftCore[0] == rightCore[0])
               || (index == 2 && leftCore[0] == rightCore[0] && leftCore[1] == rightCore[1]);
        return difference;
      }
    }
    assert leftCore[0] == rightCore[0] && leftCore[1] == rightCore[1] && leftCore[2] == rightCore[2];
    if left.pre.None? || right.pre.None? {
      return if left.pre.None? then (if right.pre.None? then 0 else -1) else 1;
    }
    var l, r := left.pre.value, right.pre.value;
    var length := if |l| > |r| then |l| else |r|;
    for index := 0 to length
      invariant ComparePre(l, r, 0) == ComparePre(l, r, index)
    {
      var difference := ComparePrereleaseParts(At(r, index), At(l, index));
      if difference != 0 { return difference; }
    }
    order := 0;
  }

  // ---- SemVer 2.0.0, section 11 ----

  datatype Order = Lower | Same | Higher

  function Flip(o: Order): Order { if o.Lower? then Higher else if o.Higher? then Lower else Same }

  function ByNumber(x: int, y: int): Order { if x < y then Lower else if x > y then Higher else Same }

  function ByText(x: string, y: string): Order { if StringLess(x, y) then Lower else if StringLess(y, x) then Higher else Same }

  /** Identifiers: digits numerically, others by text, and numbers below the others (items 11.4.1 to 11.4.3). */
  function ByIdentifier(x: string, y: string): Order {
    if AllDigits(x) && AllDigits(y) then ByNumber(Number(x), Number(y))
    else if AllDigits(x) then Lower
    else if AllDigits(y) then Higher
    else ByText(x, y)
  }

  /** Identifier by identifier, and a longer list above its own prefix (item 11.4.4). */
  function ByIdentifiers(x: seq<string>, y: seq<string>): Order {
    if x == [] then (if y == [] then Same else Lower)
    else if y == [] then Higher
    else
      var first := ByIdentifier(x[0], y[0]);
      if first.Same? then ByIdentifiers(x[1..], y[1..]) else first
  }

  function Then(first: Order, second: Order): Order { if first.Same? then second else first }

  function ByPrerelease(x: Option<seq<string>>, y: Option<seq<string>>): Order {
    if x.None? then (if y.None? then Same else Higher)
    else if y.None? then Lower
    else ByIdentifiers(x.value, y.value)
  }

  /** Major, minor and patch numerically, then a prerelease below its release (items 11.2 and 11.3). */
  function Precedence(x: SortKey, y: SortKey): Order {
    Then(ByNumber(x.major, y.major),
         Then(ByNumber(x.minor, y.minor),
              Then(ByNumber(x.patch, y.patch), ByPrerelease(x.pre, y.pre))))
  }

  /** What the sign of a descending comparison says of two keys. */
  function OfDescending(difference: int): Order {
    if difference < 0 then Higher else if difference > 0 then Lower else Same
  }

  lemma {:induction false} StringLessAsymmetric(a: string, b: string)
    ensures !(StringLess(a, b) && StringLess(b, a))
    ensures !StringLess(a, b) && !StringLess(b, a) ==> a == b
  {
    if a != "" && b != "" && a[0] == b[0] {
      StringLessAsymmetric(a[1..], b[1..]);
      assert a == [a[0]] + a[1..] && b == [b[0]] + b[1..];
    }
  }

  lemma {:induction false} StringLessTransitive(a: string, b: string, c: string)
    requires StringLess(a, b) && StringLess(b, c)
    ensures StringLess(a, c)
  {
    if a != "" && a[0] == b[0] && b[0] == c[0] {
      StringLessTransitive(a[1..], b[1..], c[1..]);
    }
  }

  lemma {:induction false} IdentifierLoopIsPrecedence(left: seq<string>, right: seq<string>, index: nat)
    requires index <= |left| && index <= |right|
    ensures OfDescending(ComparePre(left, right, index)) == ByIdentifiers(left[index..], right[index..])
    decreases |left| - index
  {
    if index < |left| && index < |right| {
      StringLessAsymmetric(left[index], right[index]);
      IdentifierLoopIsPrecedence(left, right, index + 1);
      assert left[index..][1..] == left[index + 1..] && right[index..][1..] == right[index + 1..];
    }
  }

  /** The comparison's sign is SemVer precedence, newest first. */
  lemma {:induction false} CompareIsPrecedence(a: string, b: string)
    ensures OfDescending(CompareDescending(a, b)) == Precedence(VersionSortKey(a), VersionSortKey(b))
  {
    var x, y := VersionSortKey(a), VersionSortKey(b);
    if x.pre.Some? && y.pre.Some? {
      IdentifierLoopIsPrecedence(x.pre.value, y.pre.value, 0);
      assert x.pre.value[0..] == x.pre.value && y.pre.value[0..] == y.pre.value;
    }
  }

  // ---- A total preorder ----

  /** Two steps that do not go up compose to one, which is level only if both are. */
  ghost predicate Composes(xy: Order, yz: Order, xz: Order) {
    (!xy.Higher? && !yz.Higher?) ==> !xz.Higher? && (xz.Same? ==> xy.Same? && yz.Same?)
  }

  lemma {:induction false} IdentifierOrder(x: string, y: string, z: string)
    ensures ByIdentifier(y, x) == Flip(ByIdentifier(x, y))
    ensures Composes(ByIdentifier(x, y), ByIdentifier(y, z), ByIdentifier(x, z))
  {
    StringLessAsymmetric(x, y);
    StringLessAsymmetric(y, z);
    StringLessAsymmetric(x, z);
    if StringLess(x, y) && StringLess(y, z) { StringLessTransitive(x, y, z); }
  }

  lemma {:induction false} IdentifiersOrder(x: seq<string>, y: seq<string>, z: seq<string>)
    ensures ByIdentifiers(y, x) == Flip(ByIdentifiers(x, y))
    ensures Composes(ByIdentifiers(x, y), ByIdentifiers(y, z), ByIdentifiers(x, z))
    decreases |x| + |y| + |z|
  {
    if x != [] && y != [] {
      var z0 := if z != [] then z[0] else "";
      IdentifierOrder(x[0], y[0], z0);
      IdentifiersOrder(x[1..], y[1..], if z != [] then z[1..] else []);
    }
  }

  lemma {:induction false} PrecedenceOrder(x: SortKey, y: SortKey, z: SortKey)
    ensures Precedence(y, x) == Flip(Precedence(x, y))
    ensures Composes(Precedence(x, y), Precedence(y, z), Precedence(x, z))
  {
    var none: seq<string> := [];
    IdentifiersOrder(x.pre.GetOr(none), y.pre.GetOr(none), z.pre.GetOr(none));
  }

  /** Sorting by the comparison is well defined: it is antisymmetric in sign, total and transitive. */
  lemma {:induction false} CompareIsTotalPreorder(a: string, b: string, c: string)
    ensures CompareDescending(a, a) == 0
    ensures CompareDescending(a, b) < 0 <==> CompareDescending(b, a) > 0
    ensures CompareDescending(a, b) <= 0 || CompareDescending(b, a) <= 0
    ensures CompareDescending(a, b) <= 0 && CompareDescending(b, c) <= 0 ==>
              && CompareDescending(a, c) <= 0
              && (CompareDescending(a, c) == 0 ==> CompareDescending(a, b) == 0 && CompareDescending(b, c) == 0)
  {
    CompareIsPrecedence(a, a);
    CompareIsPrecedence(a, b);
    CompareIsPrecedence(b, a);
    CompareIsPrecedence(b, c);
    CompareIsPrecedence(a, c);
    var x, y, z := VersionSortKey(a), VersionSortKey(b), VersionSortKey(c);
    PrecedenceOrder(x, x, x);
    PrecedenceOrder(x, y, z);
    PrecedenceOrder(z, y, x);
    PrecedenceOrder(x, z, y);
    PrecedenceOrder(y, z, x);
  }
}
