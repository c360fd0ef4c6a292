/** Restarting the running store: `scan_and_rebuild_indexes` on its disk, with a new free-space manager. */
module Recovering {
  import opened Base
  import opened Format
  import opened Chunks
  import opened FreeSpace
  import opened WriteBehind
  import opened Safety
  import opened Versions
  import opened Tables
  import opened Scan
  import opened Recovery
  import opened Layouts
  import opened RestartTheorem
  import opened Reopen
  import opened Running

  /** Records without an expiry do not expire, nor does any with the time to live off. */
  lemma {:induction false} NoneExpired(found: seq<Found>, enableTtl: bool, clock: nat -> nat)
    requires enableTtl ==> forall f: Found | f in found :: f.header.expiry == 0
    ensures Unexpired(found, enableTtl, clock) == found
  {
    if found != [] {
      var n := |found| - 1;
      assert found == found[..n] + [found[n]];
      NoneExpired(found[..n], enableTtl, clock);
    }
  }

  /** The memory counted for records with different keys is that of the table they make. */
  lemma {:induction false} MemoryIsFootprint(found: seq<Found>, m: Model)
    requires DistinctKeys(found) && IndexOf(found).Keys == m.Keys
    requires forall k | k in m :: IndexOf(found)[k].valueLen == |m[k].value|
    ensures MemoryOf(found) == Footprint(m)
  {
    if found == [] {
      assert m.Keys == {};
    } else {
      var n := |found| - 1;
      var rest, k := found[..n], found[n].header.key;
      assert forall i | 0 <= i < n :: rest[i] == found[i];
      LastKeyIsNew(found);
      FootprintRemove(m, k);
      assert (m - {k}).Keys == m.Keys - {k} == IndexOf(rest).Keys;
      MemoryIsFootprint(rest, m - {k});
    }
  }

  lemma LastKeyIsNew(found: seq<Found>)
    requires DistinctKeys(found) && found != []
    ensures found[|found| - 1].header.key !in IndexOf(found[..|found| - 1])
  {
    var n := |found| - 1;
    var k := found[n].header.key;
    if k in IndexOf(found[..n]) {
      var f := IndexHasOnlyFound(found[..n], k);
    }
  }

  /** In the table of the protocol, the model has its versions. */
  lemma IndexCarries(s: State, m: Model)
    requires Inv(s) && Tabled(s, m)
    ensures MemoryIndex(s).Keys == m.Keys
    ensures forall k | k in m :: Carries(s.disk, MemoryIndex(s)[k], k, m[k])
  {
  }

  lemma SettledNeverExpires(t: State, v: View)
    requires Settled(t, v)
    ensures forall f: Found | f in Headers(v, 1) :: f.header.expiry == 0
  {
    ScanFindsExtents(t, v);
    forall f: Found | f in Headers(v, 1)
      ensures f.header.expiry == 0
    {
      var r: nat :| HasExtent(t, r) && f == FoundOf(t.slots[r]);
      SettledSlot(t, v, r);
    }
  }

  /** What the scan of a drained store finds, in terms of what is stored. */
  lemma ScanMatchesModel(s: State, steps: seq<Step>, t: State, m: Model, enableTtl: bool, clock: nat -> nat)
    requires CleanStart(s) && GoodRun(s, steps) && t == Final(s, steps) && Drained(t) && Tabled(t, m)
    ensures Inv(t)
    ensures var found := Headers(ViewOf(t.disk, {}), 1);
      && Unexpired(found, enableTtl, clock) == found
      && IndexOf(found) == MemoryIndex(t) && IndexOf(found).Keys == m.Keys
      && (forall k | k in m :: Carries(t.disk, IndexOf(found)[k], k, m[k]))
      && |found| == |m.Keys| && MemoryOf(found) == Footprint(m)
      && Rebuildable(OccupiedBy(found), |t.disk|) && Complement(OccupiedBy(found), |t.disk|) == t.free
  {
    var found := Headers(ViewOf(t.disk, {}), 1);
    RestartFrom(s, steps);
    SettledNeverExpires(t, ViewOf(t.disk, {}));
    NoneExpired(found, enableTtl, clock);
    IndexCarries(t, m);
    CountIsExactIff(found);
    MemoryIsFootprint(found, m);
  }

  /** The records and positions that recovery makes are right for a store with this model. */
  lemma RecoveredAgree(disk: Disk, found: seq<Found>, m: Model)
    requires IndexOf(found).Keys == m.Keys && (forall k | k in m :: Carries(disk, IndexOf(found)[k], k, m[k]))
    requires |found| == |m.Keys| && MemoryOf(found) == Footprint(m)
    ensures Agree(disk, RecordsOf(found), Positions(found), Positions(found), |found|, MemoryOf(found), 0, m)
  {
    forall k
      ensures k in Positions(found) <==> k in m
      ensures k in m ==>
                Positions(found)[k] < |found| && Carries(disk, RecordsOf(found)[Positions(found)[k]], k, m[k])
    {
      PositionsMatchIndex(found, k);
    }
    assert Positions(found).Keys == m.Keys;
  }

  /** Managers with the same free sectors on devices of the same size have the same chunks. */
  lemma SameChunksOf(a: FreeSpaceManager, b: FreeSpaceManager)
    requires a.Valid() && b.Valid() && a.Free() == b.Free()
    ensures a.byStart == b.byStart && a.bySize == b.bySize
  {
    Canonical(a.byStart, b.byStart);
    forall key: (nat, nat)
      ensures key in a.bySize <==> key in b.bySize
    {
      assert key == (key.0, key.1);
    }
  }

  /** Recovery after a good run, once everything is drained: it succeeds, both indexes lead to the records in memory and
      carry the model, the counters are exact, and the new manager has exactly the chunks of the old one. */
  method Recover(system: System, enableTtl: bool, clock: nat -> nat, manager: FreeSpaceManager)
    returns (r: Result<()>, records: seq<Record>, hashTable: map<Bytes, nat>, tree: map<Bytes, nat>, recordCount: nat,
             memoryUsage: nat)
    requires system.Valid() && CleanStart(system.buffer.origin)
    requires GoodRun(system.buffer.origin, system.buffer.trace) && Drained(system.buffer.state)
    requires manager != system.buffer.freeSpace && manager.Valid() && manager.byStart == map[]
    requires manager.persistenceSize == system.buffer.freeSpace.persistenceSize
    modifies manager
    ensures r.Ok?
    ensures Inv(system.buffer.state) && Leads(records, hashTable) == MemoryIndex(system.buffer.state)
    ensures Agree(system.kv.disk, records, hashTable, tree, recordCount, memoryUsage, 0, system.kv.model)
    ensures manager.Valid() && manager.byStart == system.buffer.freeSpace.byStart
    ensures manager.bySize == system.buffer.freeSpace.bySize
    ensures manager.persistenceSize == old(manager.persistenceSize)
    ensures var found := Headers(ViewOf(system.buffer.state.disk, {}), 1);
      records == RecordsOf(found) && hashTable == Positions(found)
  {
    ghost var state, model := system.buffer.state, system.kv.model;
    HistoryIsRun(system.buffer.history, system.buffer.trace);
    ShowsTabled(state, system.kv.disk, system.kv.records, system.kv.hashTable, system.kv.shards, model);
    ScanMatchesModel(system.buffer.origin, system.buffer.trace, state, model, enableTtl, clock);
    RecoveredAgree(state.disk, Headers(ViewOf(state.disk, {}), 1), model);
    r, records, hashTable, tree, recordCount, memoryUsage := Rebuild(system.kv.disk, {}, enableTtl, clock, manager);
    SameChunksOf(manager, system.buffer.freeSpace);
  }

  /** The fields that recovery leaves are those of the protocol state after a restart. */
  lemma RestartedShows(t: State, shards: nat)
    ensures var found := Headers(ViewOf(t.disk, {}), 1);
      Shows(Restarted(t, shards), t.disk, RecordsOf(found), Positions(found), seq(shards, (_: nat) => []))
  {
  }

  /** Closing the store and opening it again, however it is set up then: the clients find what they have stored, and the
      next restart is exact again. */
  method Restart(system: System, clock: nat -> nat, manager: FreeSpaceManager, enableCaching: bool, enableTtl: bool,
                 maxMemory: Option<nat>, numShards: nat)
    returns (next: System)
    requires numShards > 0 && system.Valid() && CleanStart(system.buffer.origin)
    requires GoodRun(system.buffer.origin, system.buffer.trace) && Drained(system.buffer.state)
    requires manager != system.buffer.freeSpace && manager.Valid() && manager.byStart == map[]
    requires manager.persistenceSize == system.buffer.freeSpace.persistenceSize
    modifies manager
    ensures next.Valid() && fresh(next) && next.kv.model == system.kv.model && next.kv.drift == 0
    ensures next.buffer.origin == next.buffer.state == Restarted(system.buffer.state, numShards)
    ensures CleanStart(next.buffer.origin) && next.buffer.trace == []
    ensures next.buffer.freeSpace == manager && manager.byStart == system.buffer.freeSpace.byStart
  {
    ghost var state, steps := system.buffer.state, system.buffer.trace;
    HistoryIsRun(system.buffer.history, steps);
    RestartReads(system.buffer.origin, steps, numShards);
    RestartedShows(state, numShards);
    var r, records, hashTable, tree, recordCount, memoryUsage := Recover(system, enableTtl, clock, manager);
    next := new System.Reopened(enableCaching, enableTtl, maxMemory, system.kv.disk, numShards, records, hashTable,
                                tree, recordCount, memoryUsage, manager, system.kv.model, Restarted(state, numShards));
  }
}
