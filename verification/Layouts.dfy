/** What the recovery scan makes of a device on which every extent shows its header, whatever the other sectors hold. */
module Layouts {
  import opened Base
  import opened Format
  import opened Scan
  import opened Recovery
  import opened WriteBehind
  import opened Safety

  ghost predicate HasExtent(s: State, r: nat) {
    r < |s.slots| && s.slots[r].extent.Some?
  }

  /** The first sector of the extent shows a header of the extent's size. */
  ghost predicate Shown(v: View, x: Extent) {
    x.start < |v| && v[x.start].Some? && ExtentSize(v[x.start].value) == x.count
  }

  ghost predicate QuietBelow(v: View) {
    forall i | 1 <= i < 16 && i < |v| :: v[i].None?
  }

  /** Every extent shows its header, and no sector of the metadata area looks like one. */
  ghost predicate AllShown(s: State, v: View) {
    && |v| == |s.disk| && QuietBelow(v)
    && forall r: nat | HasExtent(s, r) :: Shown(v, s.slots[r].extent.value)
  }

  /** Sectors that are neither free nor in an extent. */
  ghost function Unowned(s: State): set<nat> {
    set i | 16 <= i < |s.disk| && i !in s.free && !Owned(s, i)
  }

  /** No sector outside the extents looks like a header. */
  ghost predicate QuietOutside(s: State, v: View)
    requires |v| == |s.disk|
  {
    forall i {:trigger Owned(s, i)} | 16 <= i < |v| && !Owned(s, i) :: v[i].None?
  }

  // ----- quiet outside the extents

  /** First sectors and headers of all extents. */
  ghost function Layout(s: State, v: View): map<nat, Parsed> {
    var starts := set r | 0 <= r < |s.slots| && HasExtent(s, r) :: s.slots[r].extent.value.start;
    map i | i in starts && i < |v| && v[i].Some? :: v[i].value
  }

  lemma LayoutHas(s: State, v: View, r: nat)
    requires AllShown(s, v) && HasExtent(s, r)
    ensures var x := s.slots[r].extent.value;
      x.start in Layout(s, v) && v[x.start] == Some(Layout(s, v)[x.start])
        && ExtentSize(Layout(s, v)[x.start]) == x.count
  {
    assert Shown(v, s.slots[r].extent.value);
  }

  lemma LayoutOwner(s: State, v: View, i: nat) returns (r: nat)
    requires AllShown(s, v) && i in Layout(s, v)
    ensures HasExtent(s, r) && s.slots[r].extent.value == Extent(i, ExtentSize(Layout(s, v)[i]))
    ensures v[i] == Some(Layout(s, v)[i])
  {
    r :| 0 <= r < |s.slots| && HasExtent(s, r) && s.slots[r].extent.value.start == i;
    assert Shown(v, s.slots[r].extent.value);
  }

  lemma LayoutIsLaid(s: State, v: View)
    requires Inv(s) && AllShown(s, v) && QuietOutside(s, v)
    ensures Laid(v, Layout(s, v)) && Boundary(Layout(s, v), 1)
  {
    var m := Layout(s, v);
    forall i | i in m
      ensures 16 <= i < |v| && v[i] == Some(m[i])
    {
      var r := LayoutOwner(s, v, i);
      assert SlotOk(s, r);
    }
    forall i, j | i in m && j in m && i < j
      ensures EndsBy(m, i, j)
    {
      var r := LayoutOwner(s, v, i);
      var q := LayoutOwner(s, v, j);
      OthersApart(s, r);
      assert SlotOk(s, q) && Apart(s.slots[r].extent, s.slots[q].extent);
    }
    forall i | 1 <= i < |v| && Outside(m, i)
      ensures v[i].None?
    {
      if i >= 16 && Owned(s, i) {
        var r :| 0 <= r < |s.slots| && Owns(s, r, i);
        LayoutHas(s, v, r);
        assert false;
      }
    }
  }

  /** The scan then finds exactly the extents: each of them, */
  lemma ShownIsFound(s: State, v: View, r: nat)
    requires Inv(s) && AllShown(s, v) && QuietOutside(s, v) && HasExtent(s, r)
    ensures var i := s.slots[r].extent.value.start;
      i < |v| && v[i].Some? && Found(i, v[i].value) in Headers(v, 1)
  {
    var m := Layout(s, v);
    LayoutIsLaid(s, v);
    ScanInvertsLayout(v, m, 1);
    LayoutHas(s, v, r);
    assert SlotOk(s, r);
  }

  /** and nothing else. */
  lemma FoundIsShown(s: State, v: View, f: Found) returns (r: nat)
    requires Inv(s) && AllShown(s, v) && QuietOutside(s, v) && f in Headers(v, 1)
    ensures HasExtent(s, r) && s.slots[r].extent.value == Extent(f.sector, ExtentSize(f.header))
    ensures f.sector < |v| && v[f.sector] == Some(f.header)
  {
    var m := Layout(s, v);
    LayoutIsLaid(s, v);
    ScanInvertsLayout(v, m, 1);
    r := LayoutOwner(s, v, f.sector);
  }

  lemma OccupiedIsOwned(s: State, v: View, i: nat)
    requires Inv(s) && AllShown(s, v) && QuietOutside(s, v)
    ensures i in OccupiedBy(Headers(v, 1)) <==> Owned(s, i)
  {
    var found := Headers(v, 1);
    OccupiedMembers(found, i);
    if i in OccupiedBy(found) {
      var f: Found :| f in found && f.sector <= i < f.sector + ExtentSize(f.header);
      var r := FoundIsShown(s, v, f);
      assert Owns(s, r, i);
    }
    if Owned(s, i) {
      var r :| 0 <= r < |s.slots| && Owns(s, r, i);
      ShownIsFound(s, v, r);
      assert Shown(v, s.slots[r].extent.value);
    }
  }

  // ----- a header outside the extents

  /** Sector `i` is not in the middle of an extent. */
  ghost predicate Between(s: State, i: nat) {
    forall r: nat | HasExtent(s, r) :: i <= s.slots[r].extent.value.start || !Owns(s, r, i)
  }

  lemma BetweenNext(s: State, v: View, i: nat)
    requires Inv(s) && AllShown(s, v) && Between(s, i) && i < |v|
    ensures v[i].None? ==> Between(s, i + 1)
  {
    forall r: nat | HasExtent(s, r) && v[i].None?
      ensures i + 1 <= s.slots[r].extent.value.start || !Owns(s, r, i + 1)
    {
      assert Shown(v, s.slots[r].extent.value);
      assert i <= s.slots[r].extent.value.start || !Owns(s, r, i);
    }
  }

  lemma BetweenAfter(s: State, r: nat, next: nat)
    requires Inv(s) && HasExtent(s, r) && next == s.slots[r].extent.value.start + s.slots[r].extent.value.count
    ensures Between(s, next)
  {
    OthersApart(s, r);
    assert SlotOk(s, r);
    forall q: nat | HasExtent(s, q)
      ensures next <= s.slots[q].extent.value.start || !Owns(s, q, next)
    {
      assert SlotOk(s, q);
      assert q != r ==> Apart(s.slots[r].extent, s.slots[q].extent);
    }
  }

  /** The lowest sector outside the extents that looks like a header is found as a record. */
  lemma {:induction false} LowestIsFound(s: State, v: View, sector: nat, i: nat)
    requires Inv(s) && AllShown(s, v) && Between(s, sector) && 1 <= sector <= i < |v|
    requires 16 <= i && !Owned(s, i) && v[i].Some?
    requires forall j {:trigger Owned(s, j)} | 16 <= j < i && !Owned(s, j) :: v[j].None?
    ensures Found(i, v[i].value) in Headers(v, sector)
    decreases |v| - sector
  {
    if v[sector].None? {
      BetweenNext(s, v, sector);
      LowestIsFound(s, v, sector + 1, i);
    } else {
      var f, next := Found(sector, v[sector].value), sector + ExtentSize(v[sector].value);
      assert Headers(v, sector) == [f] + Headers(v, next);
      if sector < i {
        assert Owned(s, sector);
        var r :| 0 <= r < |s.slots| && Owns(s, r, sector);
        assert HasExtent(s, r) && Shown(v, s.slots[r].extent.value);
        assert s.slots[r].extent.value == Extent(sector, ExtentSize(v[sector].value));
        assert !Owns(s, r, i);
        BetweenAfter(s, r, next);
        LowestIsFound(s, v, next, i);
      }
    }
  }

  /** A sector outside the extents that looks like a header, with none below it. */
  lemma {:induction false} Lowest(s: State, v: View, i: nat) returns (j: nat)
    requires |v| == |s.disk| && 16 <= i < |v| && !Owned(s, i) && v[i].Some?
    ensures 16 <= j <= i && !Owned(s, j) && v[j].Some?
    ensures forall k {:trigger Owned(s, k)} | 16 <= k < j && !Owned(s, k) :: v[k].None?
  {
    if k :| 16 <= k < i && !Owned(s, k) && v[k].Some? {
      j := Lowest(s, v, k);
    } else {
      j := i;
    }
  }

  // ----- the free list

  /** If every extent shows its header, a restart makes exactly those sectors free that were free or in no extent, if
      and only if none of these looks like a header. */
  lemma FreeListIff(s: State, v: View)
    requires Inv(s) && AllShown(s, v)
    ensures Complement(OccupiedBy(Headers(v, 1)), |v|) == s.free + Unowned(s) <==> QuietOutside(s, v)
    ensures QuietOutside(s, v) ==> Rebuildable(OccupiedBy(Headers(v, 1)), |v|)
  {
    var found := Headers(v, 1);
    var rebuilt := Complement(OccupiedBy(found), |v|);
    forall i: nat
      ensures i in s.free + Unowned(s) <==> 16 <= i < |v| && !Owned(s, i)
    {
      if Owned(s, i) {
        var r :| 0 <= r < |s.slots| && Owns(s, r, i);
        OwnershipIsExclusive(s, r, i);
      }
    }
    if QuietOutside(s, v) {
      forall i
        ensures i in OccupiedBy(found) <==> Owned(s, i)
        ensures Owned(s, i) ==> i >= 16
      {
        OccupiedIsOwned(s, v, i);
        if Owned(s, i) {
          var r :| 0 <= r < |s.slots| && Owns(s, r, i);
          OwnershipIsExclusive(s, r, i);
        }
      }
    } else {
      var i :| 16 <= i < |v| && !Owned(s, i) && v[i].Some?;
      var j := Lowest(s, v, i);
      PhantomFound(s, v, j);
      assert j in s.free + Unowned(s) && j !in rebuilt;
    }
  }

  /** Otherwise the lowest such sector comes back as a record. */
  lemma PhantomFound(s: State, v: View, i: nat)
    requires Inv(s) && AllShown(s, v) && 16 <= i < |v| && !Owned(s, i) && v[i].Some?
    requires forall j {:trigger Owned(s, j)} | 16 <= j < i && !Owned(s, j) :: v[j].None?
    ensures Found(i, v[i].value) in Headers(v, 1) && v[i].value.key in IndexOf(Headers(v, 1))
    ensures i in OccupiedBy(Headers(v, 1))
  {
    forall r: nat | HasExtent(s, r)
      ensures 1 <= s.slots[r].extent.value.start
    {
      assert SlotOk(s, r);
    }
    LowestIsFound(s, v, 1, i);
    HeadersAscend(v, 1);
    IndexKeepsHighest(Headers(v, 1), Found(i, v[i].value));
    OccupiedMembers(Headers(v, 1), i);
  }

  // ----- a device on which nothing has an extent

  ghost predicate NoExtent(s: State) {
    forall r | 0 <= r < |s.slots| :: s.slots[r].extent.None?
  }

  /** The scan finds nothing exactly if nothing looks like a header. */
  lemma NothingFoundIff(s: State, v: View)
    requires Inv(s) && AllShown(s, v) && NoExtent(s)
    ensures Headers(v, 1) == [] <==> QuietOutside(s, v)
  {
    var found := Headers(v, 1);
    if QuietOutside(s, v) {
      if found != [] {
        var f := found[0];
        assert f in found;
        var r := FoundIsShown(s, v, f);
        assert false;
      }
    } else {
      var i :| 16 <= i < |v| && !Owned(s, i) && v[i].Some?;
      var j := Lowest(s, v, i);
      PhantomFound(s, v, j);
    }
  }

  lemma AllFreeIff(s: State, v: View)
    requires Inv(s) && AllShown(s, v) && |v| >= 16 && NoExtent(s)
    ensures Complement(OccupiedBy(Headers(v, 1)), |v|) == Range(16, |v| - 16) <==> QuietOutside(s, v)
  {
    FreeListIff(s, v);
    forall i: nat
      ensures i in s.free + Unowned(s) <==> i in Range(16, |v| - 16)
    {
      assert !Owned(s, i);
      assert i in Range(16, |v| - 16) <==> Within(i, 16, |v| - 16);
    }
  }

  /** The first sector that looks like a header is found as a record. */
  lemma FirstPhantom(s: State, v: View, i: nat)
    requires Inv(s) && AllShown(s, v) && NoExtent(s) && 16 <= i < |v| && v[i].Some?
    requires forall j | 16 <= j < i :: v[j].None?
    ensures v[i].value.key in IndexOf(Headers(v, 1))
  {
    assert !Owned(s, i);
    PhantomFound(s, v, i);
  }
}
