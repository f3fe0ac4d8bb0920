/** The rows a hunk's highlight covers, as every file-view layout reports them. */
module Extents {

  datatype Extent = Extent(startRow: int, endRow: int) {
    predicate Covers(row: int) { startRow <= row <= endRow }
  }

  /** How many extents cover a row. */
  function CoverCount(extents: seq<Extent>, row: int): nat {
    if extents == [] then 0
    else (if extents[0].Covers(row) then 1 else 0) + CoverCount(extents[1..], row)
  }

  lemma {:induction false} CoverNone(extents: seq<Extent>, row: int)
    requires forall i | 0 <= i < |extents| :: !extents[i].Covers(row)
    ensures CoverCount(extents, row) == 0
  {
    if extents == [] {
    } else {
      CoverNone(extents[1..], row);
    }
  }

  lemma {:induction false} CoverOnce(extents: seq<Extent>, row: int, i: nat)
    requires i < |extents| && extents[i].Covers(row)
    requires forall j | 0 <= j < |extents| && j != i :: !extents[j].Covers(row)
    ensures CoverCount(extents, row) == 1
  {
    if i == 0 {
      CoverNone(extents[1..], row);
    } else {
      CoverOnce(extents[1..], row, i - 1);
    }
  }

  /** The extents that cover a row. */
  function Covering(extents: seq<Extent>, row: int): set<nat> {
    set i | 0 <= i < |extents| && extents[i].Covers(row)
  }

  /** The count is the number of extents that cover the row. */
  lemma {:induction false} CountIsCovering(extents: seq<Extent>, row: int)
    ensures CoverCount(extents, row) == |Covering(extents, row)|
  {
    if extents == [] {
      assert Covering(extents, row) == {};
    } else {
      var last := |extents| - 1;
      var before := Covering(extents[..last], row);
      CountIsCovering(extents[..last], row);
      CountPush(extents[..last], extents[last], row, extents);
      assert last !in before;
      assert Covering(extents, row) == if extents[last].Covers(row) then before + {last} else before;
    }
  }

  lemma {:induction false} CountPush(extents: seq<Extent>, extent: Extent, row: int, all: seq<Extent>)
    requires all == extents + [extent]
    ensures CoverCount(all, row) == CoverCount(extents, row) + if extent.Covers(row) then 1 else 0
  {
    if extents == [] {
      assert all[1..] == [];
    } else {
      assert all[1..] == extents[1..] + [extent];
      CountPush(extents[1..], extent, row, all[1..]);
    }
  }

  /** A row is owned when some extent covers it and no other does. */
  ghost predicate OwnedOnce(extents: seq<Extent>, row: int) {
    exists i | 0 <= i < |extents| ::
      extents[i].Covers(row) && forall j | 0 <= j < |extents| && j != i :: !extents[j].Covers(row)
  }

  lemma {:induction false} CoverCountPositive(extents: seq<Extent>, row: int)
    ensures CoverCount(extents, row) > 0 <==> exists i | 0 <= i < |extents| :: extents[i].Covers(row)
  {
    if extents == [] {
    } else {
      CoverCountPositive(extents[1..], row);
      if i :| 0 <= i < |extents| && extents[i].Covers(row) {
        if i > 0 { assert extents[1..][i - 1].Covers(row); }
      }
    }
  }

  /** Counting one cover is being owned. */
  lemma {:induction false} CountOneIsOwned(extents: seq<Extent>, row: int)
    ensures CoverCount(extents, row) == 1 <==> OwnedOnce(extents, row)
  {
    if OwnedOnce(extents, row) {
      var i :| 0 <= i < |extents| && extents[i].Covers(row)
               && forall j | 0 <= j < |extents| && j != i :: !extents[j].Covers(row);
      CoverOnce(extents, row, i);
    }
    if CoverCount(extents, row) == 1 {
      if extents[0].Covers(row) {
        CoverCountPositive(extents[1..], row);
        forall j | 0 <= j < |extents| && j != 0 ensures !extents[j].Covers(row) { assert extents[j] == extents[1..][j - 1]; }
      } else {
        CountOneIsOwned(extents[1..], row);
        var i :| 0 <= i < |extents[1..]| && extents[1..][i].Covers(row)
                 && forall j | 0 <= j < |extents[1..]| && j != i :: !extents[1..][j].Covers(row);
        assert extents[i + 1].Covers(row);
        forall j | 0 <= j < |extents| && j != i + 1 ensures !extents[j].Covers(row) {
          if j > 0 { assert extents[j] == extents[1..][j - 1]; }
        }
      }
    }
  }
}
