/** `scan_and_rebuild_indexes` (src/core/recovery.rs): what a sector-by-sector scan of the device finds. */
module Scan {
  import opened Base
  import opened Format

  /** A record header and the sector it was found in. */
  datatype Found = Found(sector: nat, header: Parsed)

  function ExtentSize(p: Parsed): nat {
    SectorsNeeded(|p.key|, p.valueLen)
  }

  /** What each sector looks like to the scan: a record header, or nothing. A sector that cannot be read counts as
      nothing. */
  type View = seq<Option<Parsed>>

  function ViewOf(disk: Disk, unreadable: set<nat>): (v: View)
    ensures |v| == |disk|
  {
    seq(|disk|, (i: nat) requires i < |disk| => if i in unreadable then None else Classify(disk[i]))
  }

  /** The headers the scan meets from `sector` on: it steps over a record's whole extent, and over any other sector
      one at a time. */
  function Headers(view: View, sector: nat): seq<Found>
    decreases |view| - sector
  {
    if sector >= |view| then []
    else match view[sector]
      case None => Headers(view, sector + 1)
      case Some(p) => [Found(sector, p)] + Headers(view, sector + ExtentSize(p))
  }

  /** The extent at `s` ends at or before sector `t`. */
  ghost predicate EndsBy(m: map<nat, Parsed>, s: nat, t: nat)
    requires s in m
  {
    s + ExtentSize(m[s]) <= t
  }

  /** Extents do not overlap. */
  ghost predicate NoOverlap(m: map<nat, Parsed>) {
    forall s, t {:trigger EndsBy(m, s, t)} | s in m && t in m && s < t :: EndsBy(m, s, t)
  }

  /** Sector `i` is in no extent. */
  ghost predicate Outside(m: map<nat, Parsed>, i: nat) {
    forall s | s in m :: !(s <= i < s + ExtentSize(m[s]))
  }

  /** Sector `i` is not in the middle of an extent. */
  ghost predicate Boundary(m: map<nat, Parsed>, i: nat) {
    forall s | s in m && s < i :: EndsBy(m, s, i)
  }

  /** `m` tells what is on the device: every key is the first sector of a record with that header, extents do not
      overlap, and no other sector (from sector 1 on) looks like a header. What lies inside an extent is free. */
  ghost predicate Laid(view: View, m: map<nat, Parsed>) {
    && (forall s | s in m :: 1 <= s < |view| && view[s] == Some(m[s]))
    && NoOverlap(m)
    && (forall i {:trigger Outside(m, i)} | 1 <= i < |view| && Outside(m, i) :: view[i].None?)
  }

  ghost predicate Ascending(found: seq<Found>) {
    forall i, j | 0 <= i < j < |found| :: found[i].sector + ExtentSize(found[i].header) <= found[j].sector
  }

  lemma StepOverRecord(view: View, m: map<nat, Parsed>, sector: nat)
    requires Laid(view, m) && Boundary(m, sector) && sector in m
    ensures Boundary(m, sector + ExtentSize(m[sector]))
    ensures forall s | s in m && s > sector :: s >= sector + ExtentSize(m[sector])
  {
    forall s | s in m && s > sector
      ensures s >= sector + ExtentSize(m[sector])
    {
      assert EndsBy(m, sector, s);
    }
  }

  lemma StepOverOther(view: View, m: map<nat, Parsed>, sector: nat)
    requires Laid(view, m) && Boundary(m, sector) && 1 <= sector < |view| && sector !in m
    ensures view[sector].None? && Boundary(m, sector + 1)
  {
    assert Outside(m, sector) by {
      forall s | s in m
        ensures !(s <= sector < s + ExtentSize(m[s]))
      {
        assert s < sector ==> EndsBy(m, s, sector);
      }
    }
  }

  /** `found` is exactly what `m` says from `sector` on. */
  ghost predicate Matches(found: seq<Found>, m: map<nat, Parsed>, sector: nat) {
    forall f: Found :: f in found <==> f.sector in m && f.sector >= sector && f.header == m[f.sector]
  }

  /** The scan finds exactly the records laid out on the disk, in order, whatever bytes their extents hold. */
  lemma {:induction false} ScanInvertsLayout(view: View, m: map<nat, Parsed>, sector: nat)
    requires Laid(view, m) && Boundary(m, sector) && sector >= 1
    ensures Matches(Headers(view, sector), m, sector)
    ensures Ascending(Headers(view, sector))
    decreases |view| - sector
  {
    if sector < |view| {
      if sector in m {
        var f, next := Found(sector, m[sector]), sector + ExtentSize(m[sector]);
        StepOverRecord(view, m, sector);
        ScanInvertsLayout(view, m, next);
        assert Headers(view, sector) == [f] + Headers(view, next);
        AscendingCons(f, Headers(view, next));
        MatchesCons(f, Headers(view, next), m, next);
      } else {
        StepOverOther(view, m, sector);
        ScanInvertsLayout(view, m, sector + 1);
        assert Headers(view, sector) == Headers(view, sector + 1);
      }
    }
  }

  lemma MatchesCons(f: Found, rest: seq<Found>, m: map<nat, Parsed>, next: nat)
    requires Matches(rest, m, next) && f.sector in m && f.header == m[f.sector] && next > f.sector
    requires forall s | s in m && s > f.sector :: s >= next
    ensures Matches([f] + rest, m, f.sector)
  {
    forall g: Found
      ensures g in [f] + rest <==> g.sector in m && g.sector >= f.sector && g.header == m[g.sector]
    {
      assert g in [f] + rest <==> g == f || g in rest;
    }
  }

  lemma AscendingCons(f: Found, rest: seq<Found>)
    requires Ascending(rest)
    requires forall g | g in rest :: f.sector + ExtentSize(f.header) <= g.sector
    ensures Ascending([f] + rest)
  {
  }

  /** Every scan result is in ascending order and starts at or after the first sector scanned. */
  lemma {:induction false} HeadersAscend(view: View, sector: nat)
    ensures Ascending(Headers(view, sector))
    ensures forall f: Found | f in Headers(view, sector) ::
              sector <= f.sector < |view| && view[f.sector] == Some(f.header)
    decreases |view| - sector
  {
    if sector < |view| {
      if view[sector].None? {
        HeadersAscend(view, sector + 1);
      } else {
        var f, next := Found(sector, view[sector].value), sector + ExtentSize(view[sector].value);
        var rest := Headers(view, next);
        HeadersAscend(view, next);
        assert Headers(view, sector) == [f] + rest;
        AscendingCons(f, rest);
        forall g: Found | g in [f] + rest
          ensures sector <= g.sector < |view| && view[g.sector] == Some(g.header)
        {
          assert g == f || g in rest;
        }
      }
    }
  }

  /** One round further. */
  lemma {:induction false} HeadersSplit(view: View, sector: nat, done: seq<Found>)
    requires Headers(view, 1) == done + Headers(view, sector)
    requires sector < |view|
    ensures view[sector].None? ==> Headers(view, 1) == done + Headers(view, sector + 1)
    ensures view[sector].Some? ==>
              Headers(view, 1) == done + [Found(sector, view[sector].value)]
                                  + Headers(view, sector + ExtentSize(view[sector].value))
  {
  }

  // ----- prepared records on a disk

  /** Record `r` was written as `perpare_record_data` lays it out, from sector `s` on. */
  ghost predicate WrittenAt(disk: Disk, s: nat, r: Record) {
    && 1 <= s && s + SectorsNeeded(|r.key|, r.valueLen) <= |disk|
    && Fits64(r) && HoldsValue(r) && 1 <= |r.key| <= 4066
    && disk[s..s + SectorsNeeded(|r.key|, r.valueLen)] == PreparedBlocks(r)
  }

  lemma WrittenIsSeen(disk: Disk, s: nat, r: Record)
    requires WrittenAt(disk, s, r)
    ensures ViewOf(disk, {})[s] == Some(HeaderOf(r))
  {
    PreparedFirstBlock(r);
    assert disk[s] == disk[s..s + SectorsNeeded(|r.key|, r.valueLen)][0];
  }

  /** A disk made of prepared records and sectors that are not headers is scanned back to those records. */
  lemma ScanInvertsDisk(disk: Disk, records: map<nat, Record>, m: map<nat, Parsed>)
    requires m.Keys == records.Keys && forall s | s in m :: m[s] == HeaderOf(records[s])
    requires forall s {:trigger WrittenAt(disk, s, records[s])} | s in records :: WrittenAt(disk, s, records[s])
    requires NoOverlap(m)
    requires forall i {:trigger Outside(m, i)} | 1 <= i < |disk| && Outside(m, i) :: ViewOf(disk, {})[i].None?
    ensures Matches(Headers(ViewOf(disk, {}), 1), m, 1)
    ensures Ascending(Headers(ViewOf(disk, {}), 1))
  {
    forall s | s in m
      ensures 1 <= s < |disk| && ViewOf(disk, {})[s] == Some(m[s])
    {
      assert WrittenAt(disk, s, records[s]);
      WrittenIsSeen(disk, s, records[s]);
    }
    ScanInvertsLayout(ViewOf(disk, {}), m, 1);
  }

  // ----- sizes in 64 bits

  /** The sectors that the program steps over for a header: the size is computed in 64 bits, without overflow checks. */
  function StepSize(p: Parsed): nat {
    (TotalSize(|p.key|, p.valueLen) % TWO_TO_THE_64 + 4095) / 4096
  }

  /** That is the size of the extent exactly if the size fits, and nothing at all for one size. */
  lemma StepSizeIff(p: Parsed)
    requires |p.key| <= MAX_KEY_SIZE && p.valueLen < TWO_TO_THE_64
    ensures StepSize(p) == ExtentSize(p) <==> TotalSize(|p.key|, p.valueLen) < TWO_TO_THE_64
    ensures StepSize(p) == 0 <==> TotalSize(|p.key|, p.valueLen) == TWO_TO_THE_64
  {
    var n := TotalSize(|p.key|, p.valueLen);
    assert n >= TWO_TO_THE_64 ==> n % TWO_TO_THE_64 == n - TWO_TO_THE_64;
  }

  /** The sector that the program's loop has come to after so many rounds. */
  function SectorAfter(view: View, rounds: nat): (sector: nat)
    ensures sector >= 1
  {
    if rounds == 0 then 1
    else
      var s := SectorAfter(view, rounds - 1);
      if s >= |view| then s else if view[s].None? then s + 1 else s + StepSize(view[s].value)
  }

  /** The loop stands at a header that it cannot get over. */
  ghost predicate StuckAfter(view: View, rounds: nat) {
    var s := SectorAfter(view, rounds);
    s < |view| && view[s].Some? && StepSize(view[s].value) == 0
  }

  lemma {:induction false} StuckStays(view: View, rounds: nat, more: nat)
    requires StuckAfter(view, rounds)
    ensures SectorAfter(view, rounds + more) == SectorAfter(view, rounds)
  {
    if more > 0 {
      StuckStays(view, rounds, more - 1);
    }
  }

  lemma {:induction false} NeverBack(view: View, rounds: nat, more: nat)
    ensures SectorAfter(view, rounds) <= SectorAfter(view, rounds + more)
  {
    if more > 0 {
      NeverBack(view, rounds, more - 1);
    }
  }

  lemma {:induction false} Advances(view: View, rounds: nat)
    requires forall k: nat :: !StuckAfter(view, k)
    ensures SectorAfter(view, rounds) > rounds || SectorAfter(view, rounds) >= |view|
  {
    if rounds > 0 {
      Advances(view, rounds - 1);
      assert !StuckAfter(view, rounds - 1);
    }
  }

  /** The program's scan comes to an end if and only if it meets no header whose size is a multiple of 2^64. */
  lemma ScanEndsIff(view: View)
    ensures (exists k: nat :: SectorAfter(view, k) >= |view|) <==> (forall k: nat :: !StuckAfter(view, k))
  {
    if forall k: nat :: !StuckAfter(view, k) {
      Advances(view, |view|);
    } else {
      var k: nat :| StuckAfter(view, k);
      forall n: nat
        ensures SectorAfter(view, n) < |view|
      {
        if n < k {
          NeverBack(view, n, k - n);
        } else {
          StuckStays(view, k, n - k);
        }
      }
    }
  }

  /** What the program's loop has found after so many rounds. */
  function FoundAfter(view: View, rounds: nat): seq<Found> {
    if rounds == 0 then []
    else
      var s := SectorAfter(view, rounds - 1);
      FoundAfter(view, rounds - 1) + if s < |view| && view[s].Some? then [Found(s, view[s].value)] else []
  }

  /** No header states a size of 2^64 or more. */
  ghost predicate SizesFit(view: View) {
    forall i | 0 <= i < |view| && view[i].Some? ::
      TotalSize(|view[i].value.key|, view[i].value.valueLen) < TWO_TO_THE_64
  }

  lemma FittingStep(p: Parsed)
    requires TotalSize(|p.key|, p.valueLen) < TWO_TO_THE_64
    ensures StepSize(p) == ExtentSize(p)
  {
  }

  /** So far the program has found what `Headers` says. */
  lemma {:induction false} FittingSoFar(view: View, rounds: nat)
    requires SizesFit(view)
    ensures Headers(view, 1) == FoundAfter(view, rounds) + Headers(view, SectorAfter(view, rounds))
  {
    if rounds > 0 {
      var s, done := SectorAfter(view, rounds - 1), FoundAfter(view, rounds - 1);
      FittingSoFar(view, rounds - 1);
      if s >= |view| || view[s].None? {
        assert FoundAfter(view, rounds) == done;
      }
      if s < |view| {
        HeadersSplit(view, s, done);
        if view[s].Some? {
          FittingStep(view[s].value);
          assert FoundAfter(view, rounds) == done + [Found(s, view[s].value)];
        }
      }
    }
  }

  /** If all sizes fit, the program's scan ends, and it has found what `Headers` says. */
  lemma FittingScan(view: View)
    requires SizesFit(view)
    ensures SectorAfter(view, |view|) >= |view| && FoundAfter(view, |view|) == Headers(view, 1)
  {
    forall k: nat
      ensures !StuckAfter(view, k)
    {
      var s := SectorAfter(view, k);
      if s < |view| && view[s].Some? {
        FittingStep(view[s].value);
      }
    }
    Advances(view, |view|);
    FittingSoFar(view, |view|);
  }
}

/** Rebuilding the indexes and the free list from what the scan finds. */
module Recovery {
  import opened Base
  import opened Format
  import opened FreeSpace
  import opened Scan

  /** The record put into the indexes for a header: its value stays on disk. */
  function ToRecord(f: Found): Record {
    Record(f.header.key, None, f.header.valueLen, f.header.timestamp, f.header.expiry, f.sector, 1)
  }

  predicate Expired(f: Found, enableTtl: bool, clock: nat -> nat) {
    enableTtl && f.header.expiry > 0 && clock(f.sector) > f.header.expiry
  }

  function Unexpired(found: seq<Found>, enableTtl: bool, clock: nat -> nat): seq<Found> {
    if found == [] then []
    else
      var last := found[|found| - 1];
      Unexpired(found[..|found| - 1], enableTtl, clock) + if Expired(last, enableTtl, clock) then [] else [last]
  }

  /** Entering the records one after the other: the last one with a key wins. */
  function IndexOf(found: seq<Found>): map<Bytes, Record> {
    if found == [] then map[]
    else
      var last := found[|found| - 1];
      IndexOf(found[..|found| - 1])[last.header.key := ToRecord(last)]
  }

  /** The records made for what was found, one after the other. */
  function RecordsOf(found: seq<Found>): (r: seq<Record>)
    ensures |r| == |found|
  {
    seq(|found|, (i: nat) requires i < |found| => ToRecord(found[i]))
  }

  /** Where the record of each key stands among them. */
  function Positions(found: seq<Found>): map<Bytes, nat> {
    if found == [] then map[]
    else var n := |found| - 1; Positions(found[..n])[found[n].header.key := n]
  }

  /** The records that a table leads to. */
  ghost function Leads(records: seq<Record>, table: map<Bytes, nat>): map<Bytes, Record> {
    map k | k in table && table[k] < |records| :: records[table[k]]
  }

  lemma {:induction false} PositionsMatchIndex(found: seq<Found>, k: Bytes)
    ensures k in Positions(found) <==> k in IndexOf(found)
    ensures k in Positions(found) ==>
              var r := Positions(found)[k];
              r < |found| && found[r].header.key == k && IndexOf(found)[k] == ToRecord(found[r])
  {
    if found != [] {
      PositionsMatchIndex(found[..|found| - 1], k);
    }
  }

  lemma PositionsLead(found: seq<Found>)
    ensures Leads(RecordsOf(found), Positions(found)) == IndexOf(found)
  {
    forall k
      ensures k in Positions(found) <==> k in IndexOf(found)
      ensures k in Positions(found) ==>
                Positions(found)[k] < |found| && RecordsOf(found)[Positions(found)[k]] == IndexOf(found)[k]
    {
      PositionsMatchIndex(found, k);
    }
  }

  function MemoryOf(found: seq<Found>): nat {
    if found == [] then 0
    else
      var last := found[|found| - 1];
      MemoryOf(found[..|found| - 1]) + RecordSize(|last.header.key|, last.header.valueLen)
  }

  /** Sectors in the extents of the records. */
  ghost function OccupiedBy(found: seq<Found>): set<nat> {
    if found == [] then {}
    else
      var last := found[|found| - 1];
      OccupiedBy(found[..|found| - 1]) + Range(last.sector, ExtentSize(last.header))
  }

  /** Record `f` is the one with the highest sector among those with its key. */
  ghost predicate Highest(found: seq<Found>, f: Found) {
    f in found && forall g: Found | g in found && g.header.key == f.header.key :: g.sector <= f.sector
  }

  /** No record has a higher sector than the one in the index for its key. */
  lemma {:induction false} IndexIsAtLeast(found: seq<Found>, i: nat)
    requires Ascending(found) && i < |found|
    ensures found[i].header.key in IndexOf(found)
    ensures found[i].sector <= IndexOf(found)[found[i].header.key].sector
  {
    var n := |found| - 1;
    if i < n {
      assert found[i].sector + ExtentSize(found[i].header) <= found[n].sector;
      assert found[..n][i] == found[i];
      IndexIsAtLeast(found[..n], i);
    }
  }

  /** Nothing else is in the index. */
  lemma {:induction false} IndexHasOnlyFound(found: seq<Found>, k: Bytes) returns (f: Found)
    requires k in IndexOf(found)
    ensures f in found && f.header.key == k && IndexOf(found)[k] == ToRecord(f)
  {
    var rest, last := found[..|found| - 1], found[|found| - 1];
    assert found == rest + [last];
    if last.header.key == k {
      f := last;
    } else {
      f := IndexHasOnlyFound(rest, k);
    }
  }

  /** In the index a key stands for the record with the highest sector. */
  lemma {:induction false} IndexKeepsHighest(found: seq<Found>, f: Found)
    requires Ascending(found) && f in found
    ensures f.header.key in IndexOf(found)
    ensures Highest(found, f) ==> IndexOf(found)[f.header.key] == ToRecord(f)
    ensures f.sector <= IndexOf(found)[f.header.key].sector
  {
    var i :| 0 <= i < |found| && found[i] == f;
    IndexIsAtLeast(found, i);
    var g := IndexHasOnlyFound(found, f.header.key);
    var j :| 0 <= j < |found| && found[j] == g;
    assert i < j ==> f.sector + ExtentSize(f.header) <= g.sector;
    assert j < i ==> g.sector + ExtentSize(g.header) <= f.sector;
  }

  ghost predicate DistinctKeys(found: seq<Found>) {
    forall i, j | 0 <= i < j < |found| :: found[i].header.key != found[j].header.key
  }

  /** The record counter is the size of the index exactly if no key was found twice. */
  lemma {:induction false} CountIsExactIff(found: seq<Found>)
    ensures |IndexOf(found).Keys| <= |found|
    ensures |IndexOf(found).Keys| == |found| <==> DistinctKeys(found)
  {
    if found != [] {
      var n := |found| - 1;
      var rest, k := found[..n], found[n].header.key;
      CountIsExactIff(rest);
      assert IndexOf(found).Keys == IndexOf(rest).Keys + {k};
      DistinctIff(found);
    }
  }

  /** Keys are distinct exactly if they are without the last record, and its key is new. */
  lemma {:induction false} DistinctIff(found: seq<Found>)
    requires found != []
    ensures var n := |found| - 1;
      DistinctKeys(found) <==> DistinctKeys(found[..n]) && found[n].header.key !in IndexOf(found[..n])
  {
    var n := |found| - 1;
    var rest, k := found[..n], found[n].header.key;
    assert forall i | 0 <= i < n :: rest[i] == found[i];
    if k in IndexOf(rest) {
      var f := IndexHasOnlyFound(rest, k);
      var i :| 0 <= i < n && rest[i] == f;
      assert found[i].header.key == found[n].header.key;
    } else {
      forall i | 0 <= i < n
        ensures found[i].header.key != k
      {
        KeyIsIndexed(rest, i);
      }
    }
  }

  lemma {:induction false} KeyIsIndexed(found: seq<Found>, i: nat)
    requires i < |found|
    ensures found[i].header.key in IndexOf(found)
  {
    var n := |found| - 1;
    if i < n {
      assert found[..n][i] == found[i];
      KeyIsIndexed(found[..n], i);
    }
  }

  lemma {:induction false} OccupiedMembers(found: seq<Found>, i: nat)
    ensures i in OccupiedBy(found) <==>
            exists f: Found :: f in found && f.sector <= i < f.sector + ExtentSize(f.header)
  {
    if found != [] {
      var rest, last := found[..|found| - 1], found[|found| - 1];
      assert found == rest + [last];
      OccupiedMembers(rest, i);
    }
  }

  /** Strictly ascending sectors; one at or past the end of the device follows its predecessor directly. */
  ghost predicate OccupiedList(occupied: seq<nat>, total: nat) {
    && (forall i, j | 0 <= i < j < |occupied| :: occupied[i] < occupied[j])
    && (forall i | 0 <= i < |occupied| :: occupied[i] >= 1)
    && (forall i | 0 <= i < |occupied| :: occupied[i] < total || (i > 0 && occupied[i] == occupied[i - 1] + 1))
  }

  ghost function Elements(occupied: seq<nat>): set<nat> {
    set o | o in occupied
  }

  /** Sectors from 16 up to `end` that are not occupied. */
  ghost function Complement(occupied: set<nat>, end: nat): set<nat> {
    set i: nat | 16 <= i < end && i !in occupied
  }

  /** The free list can be rebuilt: a record in the metadata area must run into the data area (or to the end). */
  ghost predicate Rebuildable(occupied: set<nat>, total: nat) {
    forall o | o in occupied && o + 1 < 16 && o + 1 < total :: o + 1 in occupied
  }

  /** Releasing the gap before the next occupied sector. */
  lemma GapReleased(occupied: set<nat>, lastEnd: nat, end: nat)
    requires 16 <= lastEnd <= end && forall o | o in occupied :: o < lastEnd
    ensures Range(lastEnd, end - lastEnd) !! Complement(occupied, lastEnd)
    ensures Complement(occupied, lastEnd) + Range(lastEnd, end - lastEnd) == Complement(occupied, end)
  {
  }

  lemma OccupiedAdded(occupied: set<nat>, o: nat)
    ensures Complement(occupied + {o}, o + 1) == Complement(occupied, o)
  {
  }

  /** Releases the gap from `lastEnd` up to `end`, which fails exactly if it starts in the metadata area. */
  method ReleaseGap(ghost occupied: set<nat>, lastEnd: nat, end: nat, freeSpace: FreeSpaceManager)
    returns (r: Result<()>)
    requires 1 <= lastEnd < end && forall o | o in occupied :: o < lastEnd
    requires freeSpace.Valid() && freeSpace.Free() == Complement(occupied, lastEnd)
    requires lastEnd <= 16 ==> freeSpace.byStart == map[]
    requires freeSpace.persistenceSize > 0 && end <= DeviceSectors(freeSpace.persistenceSize)
    modifies freeSpace
    ensures freeSpace.Valid() && freeSpace.persistenceSize == old(freeSpace.persistenceSize)
    ensures freeSpace.splitRemainders == old(freeSpace.splitRemainders)
    ensures r.Ok? <==> lastEnd >= 16
    ensures r.Ok? ==> freeSpace.Free() == Complement(occupied, end)
    ensures r.Err? ==> freeSpace.byStart == map[]
  {
    if lastEnd >= 16 {
      GapReleased(occupied, lastEnd, end);
    } else {
      assert Complement(occupied, lastEnd) == {};
    }
    r := freeSpace.ReleaseSectors(lastEnd, end - lastEnd);
  }

  lemma ElementsNext(occupied: seq<nat>, j: nat)
    requires j < |occupied|
    ensures Elements(occupied[..j + 1]) == Elements(occupied[..j]) + {occupied[j]}
  {
    assert occupied[..j + 1] == occupied[..j] + [occupied[j]];
  }

  /** The second half of the function: releases every gap between occupied sectors. The list comes sorted, so
      sorting it changes nothing. */
  method ReleaseGaps(occupied: seq<nat>, total: nat, freeSpace: FreeSpaceManager) returns (r: Result<()>)
    requires OccupiedList(occupied, total)
    requires freeSpace.Valid() && freeSpace.byStart == map[]
    requires freeSpace.persistenceSize > 0 && DeviceSectors(freeSpace.persistenceSize) == total
    modifies freeSpace
    ensures freeSpace.Valid()
    ensures r.Ok? <==> Rebuildable(Elements(occupied), total)
    ensures r.Ok? ==> freeSpace.Free() == Complement(Elements(occupied), total)
    ensures r.Err? ==> freeSpace.byStart == map[]
    ensures freeSpace.persistenceSize == old(freeSpace.persistenceSize)
    ensures freeSpace.splitRemainders == old(freeSpace.splitRemainders)
  {
    var lastEnd := DATA_START_BLOCK;
    var j := 0;
    assert freeSpace.Free() == {};
    while j < |occupied|
      invariant 0 <= j <= |occupied|
      invariant lastEnd == if j == 0 then 16 else occupied[j - 1] + 1
      invariant freeSpace.Valid()
      invariant freeSpace.persistenceSize == old(freeSpace.persistenceSize)
      invariant freeSpace.splitRemainders == old(freeSpace.splitRemainders)
      invariant freeSpace.Free() == Complement(Elements(occupied[..j]), lastEnd)
      invariant lastEnd <= 16 ==> freeSpace.byStart == map[]
      invariant forall i | 0 <= i < j - 1 && occupied[i] + 1 < 16 :: occupied[i + 1] == occupied[i] + 1
    {
      var o := occupied[j];
      ghost var before := Elements(occupied[..j]);
      if o > lastEnd {
        r := ReleaseGap(before, lastEnd, o, freeSpace);
        if r.Err? {
          NotRebuildable(occupied, total, j);
          return;
        }
      }
      ElementsNext(occupied, j);
      OccupiedAdded(before, o);
      lastEnd := o + 1;
      j := j + 1;
    }
    assert occupied[..j] == occupied;
    if lastEnd < total {
      r := ReleaseGap(Elements(occupied), lastEnd, total, freeSpace);
    } else {
      r := Ok(());
    }
    if r.Err? {
      NotRebuildable(occupied, total, j);
    } else {
      ConsecutiveIsRebuildable(occupied, total);
    }
  }

  /** A gap that starts in the metadata area. */
  lemma NotRebuildable(occupied: seq<nat>, total: nat, j: nat)
    requires OccupiedList(occupied, total) && 0 < j <= |occupied|
    requires occupied[j - 1] + 1 < 16 && occupied[j - 1] + 1 < total
    requires j < |occupied| ==> occupied[j - 1] + 1 < occupied[j]
    ensures !Rebuildable(Elements(occupied), total)
  {
    var o := occupied[j - 1];
    assert o in Elements(occupied);
    assert o + 1 !in Elements(occupied) by {
      forall i | 0 <= i < |occupied|
        ensures occupied[i] != o + 1
      {
        assert i < j - 1 ==> occupied[i] < occupied[j - 1];
        assert i > j ==> occupied[j] < occupied[i];
      }
    }
  }

  lemma ConsecutiveIsRebuildable(occupied: seq<nat>, total: nat)
    requires forall i | 0 <= i < |occupied| - 1 && occupied[i] + 1 < 16 :: occupied[i + 1] == occupied[i] + 1
    requires occupied != [] ==> occupied[|occupied| - 1] + 1 >= 16 || occupied[|occupied| - 1] + 1 >= total
    ensures Rebuildable(Elements(occupied), total)
  {
    forall o | o in Elements(occupied) && o + 1 < 16 && o + 1 < total
      ensures o + 1 in Elements(occupied)
    {
      var i :| 0 <= i < |occupied| && occupied[i] == o;
      assert occupied[i + 1] == o + 1;
    }
  }

  // ----- which records are taken over

  /** With the time to live on, a record whose expiry lies before the time it is looked at is left out. */
  ghost predicate Staying(f: Found, enableTtl: bool, clock: nat -> nat) {
    !enableTtl || f.header.expiry == 0 || clock(f.sector) <= f.header.expiry
  }

  lemma {:induction false} UnexpiredIff(found: seq<Found>, enableTtl: bool, clock: nat -> nat, f: Found)
    ensures f in Unexpired(found, enableTtl, clock) <==> f in found && Staying(f, enableTtl, clock)
  {
    if found != [] {
      var n := |found| - 1;
      UnexpiredIff(found[..n], enableTtl, clock, f);
      assert found == found[..n] + [found[n]];
    }
  }

  /** Leaving out expired records keeps the order. */
  lemma {:induction false} UnexpiredAscends(found: seq<Found>, enableTtl: bool, clock: nat -> nat)
    requires Ascending(found)
    ensures Ascending(Unexpired(found, enableTtl, clock))
    ensures forall f: Found | f in Unexpired(found, enableTtl, clock) :: f in found
  {
    if found != [] {
      var n := |found| - 1;
      var rest := Unexpired(found[..n], enableTtl, clock);
      UnexpiredAscends(found[..n], enableTtl, clock);
      forall i | 0 <= i < |rest|
        ensures rest[i].sector + ExtentSize(rest[i].header) <= found[n].sector
      {
        assert rest[i] in found[..n];
        var j :| 0 <= j < n && found[..n][j] == rest[i];
        assert found[j].sector + ExtentSize(found[j].header) <= found[n].sector;
      }
    }
  }

  lemma {:induction false} RecordFound(live: seq<Found>, f: Found)
    ensures ToRecord(f) in RecordsOf(live) <==> f in live
  {
    var records := RecordsOf(live);
    if f in live {
      var i :| 0 <= i < |live| && live[i] == f;
      assert records[i] == ToRecord(f);
    }
    if ToRecord(f) in records {
      var i :| 0 <= i < |records| && records[i] == ToRecord(f);
      assert live[i] == f;
    }
  }

  ghost predicate HasHeader(found: seq<Found>, rec: Record) {
    exists f: Found :: f in found && rec == ToRecord(f)
  }

  /** The records are those of the headers found that stay, in the order of their sectors. */
  ghost predicate TakenOver(found: seq<Found>, enableTtl: bool, clock: nat -> nat, records: seq<Record>) {
    && (forall f: Found | f in found :: ToRecord(f) in records <==> Staying(f, enableTtl, clock))
    && (forall rec | rec in records :: HasHeader(found, rec))
    && (forall i, j | 0 <= i < j < |records| :: records[i].sector < records[j].sector)
  }

  /** A key leads to the record with the highest sector among those of its headers that stay. */
  ghost predicate LeadsToHighest(found: seq<Found>, enableTtl: bool, clock: nat -> nat, records: seq<Record>,
                                 table: map<Bytes, nat>)
  {
    && (forall k | k in table :: table[k] < |records| && records[table[k]].key == k)
    && (forall f: Found | f in found && Staying(f, enableTtl, clock) ::
          && f.header.key in table && table[f.header.key] < |records|
          && f.sector <= records[table[f.header.key]].sector)
  }

  /** A sector is free exactly if it lies in the data area and in the extent of no header found that stays. */
  ghost predicate FreeApartFrom(found: seq<Found>, enableTtl: bool, clock: nat -> nat, free: set<nat>, total: nat) {
    forall i: nat :: i in free <==>
      16 <= i < total && !exists f: Found ::
        f in found && Staying(f, enableTtl, clock) && f.sector <= i < f.sector + ExtentSize(f.header)
  }

  lemma {:induction false} UnexpiredTakenOver(found: seq<Found>, enableTtl: bool, clock: nat -> nat)
    requires Ascending(found)
    ensures TakenOver(found, enableTtl, clock, RecordsOf(Unexpired(found, enableTtl, clock)))
  {
    var live := Unexpired(found, enableTtl, clock);
    UnexpiredAscends(found, enableTtl, clock);
    forall f: Found | f in found
      ensures ToRecord(f) in RecordsOf(live) <==> Staying(f, enableTtl, clock)
    {
      UnexpiredIff(found, enableTtl, clock, f);
      RecordFound(live, f);
    }
    forall rec | rec in RecordsOf(live)
      ensures HasHeader(found, rec)
    {
      var i :| 0 <= i < |live| && RecordsOf(live)[i] == rec;
      assert live[i] in live && rec == ToRecord(live[i]);
    }
    forall i, j | 0 <= i < j < |live|
      ensures RecordsOf(live)[i].sector < RecordsOf(live)[j].sector
    {
      assert live[i].sector + ExtentSize(live[i].header) <= live[j].sector;
    }
  }

  lemma {:induction false} UnexpiredLeads(found: seq<Found>, enableTtl: bool, clock: nat -> nat)
    requires Ascending(found)
    ensures var live := Unexpired(found, enableTtl, clock);
      LeadsToHighest(found, enableTtl, clock, RecordsOf(live), Positions(live))
  {
    var live := Unexpired(found, enableTtl, clock);
    UnexpiredAscends(found, enableTtl, clock);
    forall k | k in Positions(live)
      ensures Positions(live)[k] < |live| && RecordsOf(live)[Positions(live)[k]].key == k
    {
      PositionsMatchIndex(live, k);
    }
    forall f: Found | f in found && Staying(f, enableTtl, clock)
      ensures f.header.key in Positions(live) && Positions(live)[f.header.key] < |live|
      ensures f.sector <= RecordsOf(live)[Positions(live)[f.header.key]].sector
    {
      UnexpiredIff(found, enableTtl, clock, f);
      PositionsMatchIndex(live, f.header.key);
      IndexKeepsHighest(live, f);
    }
  }

  lemma {:induction false} UnexpiredOccupies(found: seq<Found>, enableTtl: bool, clock: nat -> nat, total: nat)
    ensures var free := Complement(OccupiedBy(Unexpired(found, enableTtl, clock)), total);
      FreeApartFrom(found, enableTtl, clock, free, total)
  {
    var live := Unexpired(found, enableTtl, clock);
    forall i: nat
      ensures i in OccupiedBy(live) <==>
        exists f: Found :: f in found && Staying(f, enableTtl, clock) && f.sector <= i < f.sector + ExtentSize(f.header)
    {
      OccupiedMembers(live, i);
      forall f: Found
        ensures f in live <==> f in found && Staying(f, enableTtl, clock)
      {
        UnexpiredIff(found, enableTtl, clock, f);
      }
    }
  }

  // ----- the scan loop

  lemma {:induction false} UnexpiredAppend(done: seq<Found>, f: Found, enableTtl: bool, clock: nat -> nat)
    ensures Unexpired(done + [f], enableTtl, clock) ==
            if Expired(f, enableTtl, clock) then Unexpired(done, enableTtl, clock)
            else Unexpired(done, enableTtl, clock) + [f]
  {
    assert (done + [f])[..|done|] == done;
  }

  /** Up to `sector` these headers have been found, of which `live` are not expired. */
  ghost predicate Scanned(view: View, enableTtl: bool, clock: nat -> nat, sector: nat, done: seq<Found>,
                          live: seq<Found>)
  {
    Headers(view, 1) == done + Headers(view, sector) && live == Unexpired(done, enableTtl, clock)
  }

  lemma {:induction false} ScannedOther(view: View, enableTtl: bool, clock: nat -> nat, sector: nat, done: seq<Found>,
                                        live: seq<Found>)
    requires Scanned(view, enableTtl, clock, sector, done, live) && sector < |view| && view[sector].None?
    ensures Scanned(view, enableTtl, clock, sector + 1, done, live)
  {
    HeadersSplit(view, sector, done);
  }

  lemma {:induction false} ScannedRecord(view: View, enableTtl: bool, clock: nat -> nat, sector: nat, done: seq<Found>,
                                         live: seq<Found>, f: Found, next: nat, kept: seq<Found>)
    requires Scanned(view, enableTtl, clock, sector, done, live)
    requires sector < |view| && view[sector] == Some(f.header) && f.sector == sector
    requires next == sector + ExtentSize(f.header)
    requires kept == if Expired(f, enableTtl, clock) then live else live + [f]
    ensures Scanned(view, enableTtl, clock, next, done + [f], kept)
  {
    HeadersSplit(view, sector, done);
    UnexpiredAppend(done, f, enableTtl, clock);
  }

  /** At the end of the device. */
  lemma {:induction false} ScannedAll(view: View, enableTtl: bool, clock: nat -> nat, sector: nat, done: seq<Found>,
                                      live: seq<Found>)
    requires Scanned(view, enableTtl, clock, sector, done, live) && sector >= |view|
    ensures live == Unexpired(Headers(view, 1), enableTtl, clock)
    ensures TakenOver(Headers(view, 1), enableTtl, clock, RecordsOf(live))
    ensures LeadsToHighest(Headers(view, 1), enableTtl, clock, RecordsOf(live), Positions(live))
  {
    assert done == Headers(view, 1);
    HeadersAscend(view, 1);
    UnexpiredTakenOver(done, enableTtl, clock);
    UnexpiredLeads(done, enableTtl, clock);
  }

  lemma {:induction false} IndexAppend(live: seq<Found>, f: Found)
    ensures RecordsOf(live + [f]) == RecordsOf(live) + [ToRecord(f)]
    ensures Positions(live + [f]) == Positions(live)[f.header.key := |live|]
    ensures MemoryOf(live + [f]) == MemoryOf(live) + RecordSize(|f.header.key|, f.header.valueLen)
    ensures OccupiedBy(live + [f]) == OccupiedBy(live) + Range(f.sector, ExtentSize(f.header))
  {
    assert (live + [f])[..|live|] == live;
  }

  lemma AppendOccupied(occupied: seq<nat>, o: nat, total: nat)
    requires OccupiedList(occupied, total) && o >= 1
    requires forall i | 0 <= i < |occupied| :: occupied[i] < o
    requires o < total || (occupied != [] && o == occupied[|occupied| - 1] + 1)
    ensures OccupiedList(occupied + [o], total)
  {
  }

  lemma OneMoreOccupied(more: seq<nat>, before: set<nat>, sector: nat, i: nat)
    requires Elements(more) == before + Range(sector, i)
    ensures Elements(more + [sector + i]) == before + Range(sector, i + 1)
  {
    assert Elements(more + [sector + i]) == Elements(more) + {sector + i};
    assert Range(sector, i + 1) == Range(sector, i) + {sector + i};
  }

  /** Adds an extent to the occupied sectors, one at a time. */
  method PushExtent(occupied: seq<nat>, sector: nat, count: nat, total: nat) returns (more: seq<nat>)
    requires OccupiedList(occupied, total) && 1 <= sector < total
    requires forall i | 0 <= i < |occupied| :: occupied[i] < sector
    ensures OccupiedList(more, total)
    ensures forall i | 0 <= i < |more| :: more[i] < sector + count
    ensures Elements(more) == Elements(occupied) + Range(sector, count)
  {
    more := occupied;
    for i := 0 to count
      invariant OccupiedList(more, total)
      invariant Elements(more) == Elements(occupied) + Range(sector, i)
      invariant i > 0 ==> |more| > 0 && more[|more| - 1] == sector + i - 1
      invariant forall j | 0 <= j < |more| :: more[j] < sector + i
    {
      AppendOccupied(more, sector + i, total);
      OneMoreOccupied(more, Elements(occupied), sector, i);
      more := more + [sector + i];
    }
  }

  /** The records, the indexes, the counters and the occupied sectors that these headers leave. */
  ghost predicate Tally(live: seq<Found>, records: seq<Record>, hashTable: map<Bytes, nat>, tree: map<Bytes, nat>,
                        recordCount: nat, memoryUsage: nat, occupied: seq<nat>)
  {
    && records == RecordsOf(live)
    && hashTable == tree == Positions(live)
    && recordCount == |live|
    && memoryUsage == MemoryOf(live)
    && Elements(occupied) == OccupiedBy(live)
  }

  lemma {:induction false} TallyNext(live: seq<Found>, records: seq<Record>, hashTable: map<Bytes, nat>,
                                     tree: map<Bytes, nat>, recordCount: nat, memoryUsage: nat, occupied: seq<nat>,
                                     f: Found, more: seq<nat>)
    requires Tally(live, records, hashTable, tree, recordCount, memoryUsage, occupied)
    requires Elements(more) == Elements(occupied) + Range(f.sector, ExtentSize(f.header))
    ensures Tally(live + [f], records + [ToRecord(f)], hashTable[f.header.key := |records|],
                  tree[f.header.key := |records|], recordCount + 1,
                  memoryUsage + RecordSize(|f.header.key|, f.header.valueLen), more)
  {
    IndexAppend(live, f);
  }

  /** Makes the record of a header, enters it into both indexes, counts it and marks its extent as occupied. */
  method TakeOver(f: Found, sectorsNeeded: nat, total: nat, records: seq<Record>, hashTable: map<Bytes, nat>,
                  tree: map<Bytes, nat>, recordCount: nat, memoryUsage: nat, occupied: seq<nat>, ghost live: seq<Found>)
    returns (moreRecords: seq<Record>, newTable: map<Bytes, nat>, newTree: map<Bytes, nat>, count: nat, usage: nat,
             more: seq<nat>)
    requires Tally(live, records, hashTable, tree, recordCount, memoryUsage, occupied)
    requires OccupiedList(occupied, total) && 1 <= f.sector < total && sectorsNeeded == ExtentSize(f.header)
    requires forall i | 0 <= i < |occupied| :: occupied[i] < f.sector
    ensures Tally(live + [f], moreRecords, newTable, newTree, count, usage, more) && OccupiedList(more, total)
    ensures forall i | 0 <= i < |more| :: more[i] < f.sector + sectorsNeeded
  {
    more := PushExtent(occupied, f.sector, sectorsNeeded, total);
    TallyNext(live, records, hashTable, tree, recordCount, memoryUsage, occupied, f, more);
    newTable, newTree := hashTable[f.header.key := |records|], tree[f.header.key := |records|];
    moreRecords := records + [ToRecord(f)];
    count, usage := recordCount + 1, memoryUsage + RecordSize(|f.header.key|, f.header.valueLen);
  }

  /** The first half of the function: makes the records, enters them into the indexes, counts them and collects the
      occupied sectors. `view[s]` is what reading and parsing sector `s` gives. */
  method ScanDevice(view: View, enableTtl: bool, clock: nat -> nat)
    returns (records: seq<Record>, hashTable: map<Bytes, nat>, tree: map<Bytes, nat>, recordCount: nat,
             memoryUsage: nat, occupied: seq<nat>)
    ensures var live := Unexpired(Headers(view, 1), enableTtl, clock);
      Tally(live, records, hashTable, tree, recordCount, memoryUsage, occupied)
    ensures OccupiedList(occupied, |view|)
    ensures TakenOver(Headers(view, 1), enableTtl, clock, records)
    ensures LeadsToHighest(Headers(view, 1), enableTtl, clock, records, hashTable) && tree == hashTable
  {
    ghost var done: seq<Found> := [];
    ghost var live: seq<Found> := [];
    records, hashTable, tree, recordCount, memoryUsage, occupied := [], map[], map[], 0, 0, [];
    var sector := 1;
    while sector < |view|
      invariant sector >= 1
      invariant Scanned(view, enableTtl, clock, sector, done, live)
      invariant Tally(live, records, hashTable, tree, recordCount, memoryUsage, occupied)
      invariant OccupiedList(occupied, |view|)
      invariant forall i | 0 <= i < |occupied| :: occupied[i] < sector
      decreases |view| - sector
    {
      if view[sector].None? {
        ScannedOther(view, enableTtl, clock, sector, done, live);
        sector := sector + 1;
        continue;
      }
      var p := view[sector].value;
      var sectorsNeeded := SectorsNeeded(|p.key|, p.valueLen);
      var f := Found(sector, p);
      if enableTtl && p.expiry > 0 && clock(sector) > p.expiry {
        ScannedRecord(view, enableTtl, clock, sector, done, live, f, sector + sectorsNeeded, live);
        sector, done := sector + sectorsNeeded, done + [f];
        continue;
      }
      ScannedRecord(view, enableTtl, clock, sector, done, live, f, sector + sectorsNeeded, live + [f]);
      records, hashTable, tree, recordCount, memoryUsage, occupied :=
        TakeOver(f, sectorsNeeded, |view|, records, hashTable, tree, recordCount, memoryUsage, occupied, live);
      sector, done, live := sector + sectorsNeeded, done + [f], live + [f];
    }
    ScannedAll(view, enableTtl, clock, sector, done, live);
  }

  /** The whole function on a device whose manager holds no chunk yet. */
  method Rebuild(disk: Disk, unreadable: set<nat>, enableTtl: bool, clock: nat -> nat, freeSpace: FreeSpaceManager)
    returns (r: Result<()>, records: seq<Record>, hashTable: map<Bytes, nat>, tree: map<Bytes, nat>, recordCount: nat,
             memoryUsage: nat)
    requires freeSpace.Valid() && freeSpace.byStart == map[]
    requires DeviceSectors(freeSpace.persistenceSize) == |disk|
    modifies freeSpace
    ensures freeSpace.Valid() && freeSpace.persistenceSize == old(freeSpace.persistenceSize)
    ensures var live := Unexpired(Headers(ViewOf(disk, unreadable), 1), enableTtl, clock);
      && records == RecordsOf(live) && hashTable == tree == Positions(live)
      && Leads(records, hashTable) == IndexOf(live)
      && recordCount == |live|
      && memoryUsage == MemoryOf(live)
      && (r.Ok? <==> Rebuildable(OccupiedBy(live), |disk|))
      && (r.Ok? ==> freeSpace.Free() == Complement(OccupiedBy(live), |disk|))
    ensures var found := Headers(ViewOf(disk, unreadable), 1);
      && TakenOver(found, enableTtl, clock, records)
      && LeadsToHighest(found, enableTtl, clock, records, hashTable) && tree == hashTable
      && (r.Ok? ==> FreeApartFrom(found, enableTtl, clock, freeSpace.Free(), |disk|))
  {
    var view := ViewOf(disk, unreadable);
    ghost var found := Headers(view, 1);
    PositionsLead(Unexpired(found, enableTtl, clock));
    UnexpiredOccupies(found, enableTtl, clock, |disk|);
    var occupied;
    records, hashTable, tree, recordCount, memoryUsage, occupied := ScanDevice(view, enableTtl, clock);
    if freeSpace.persistenceSize == 0 {
      return Ok(()), records, hashTable, tree, recordCount, memoryUsage;
    }
    r := ReleaseGaps(occupied, |disk|, freeSpace);
  }

  /** No record below sector 16 is enough for the free list to be rebuilt as the exact complement. */
  lemma NoLowRecordIsRebuildable(found: seq<Found>, total: nat)
    requires forall f: Found | f in found :: f.sector >= 16
    ensures Rebuildable(OccupiedBy(found), total)
  {
    forall o | o in OccupiedBy(found)
      ensures o >= 16
    {
      OccupiedMembers(found, o);
    }
  }
}
