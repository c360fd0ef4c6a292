/** Where the code does less than it is meant to: for all inputs of a kind, and on one store that shows the kind
    exists. */
module Findings {
  import opened Base
  import opened Format
  import opened Chunks
  import opened FreeSpace
  import opened Scan
  import opened Recovery
  import opened Versions
  import opened Store
  import opened Recovering

  lemma OneSecond(enableTtl: bool)
    ensures ExpiryOf(10, 1, enableTtl) == if enableTtl then 10 + SECOND else 0
  {
  }

  /** A store with one key. */
  method OneKey(key: Bytes, value: Bytes, persistency: bool, enableTtl: bool) returns (kv: FunKV)
    requires ValidKey(key) && ValidValue(value)
    ensures fresh(kv) && fresh(kv.cache) && kv.Valid() && |kv.shards| > 0
    ensures kv.persistency == persistency && kv.enableCaching && kv.enableTtl == enableTtl
    ensures kv.model == map[key := Version(value, 10, if enableTtl then 10 + SECOND else 0)]
    ensures key !in kv.cache.contents && kv.cache.highWatermark == 100 * MB
  {
    kv := new FunKV(persistency, true, enableTtl, None, [], 1);
    OneSecond(enableTtl);
    var inserted := kv.Put(key, value, Some(10), 1, 0, 0);
  }

  /** The same, after a read has put the value in the cache. */
  method CachedKey(key: Bytes, value: Bytes, persistency: bool, enableTtl: bool) returns (kv: FunKV)
    requires ValidKey(key) && ValidValue(value)
    ensures fresh(kv) && fresh(kv.cache) && kv.Valid() && |kv.shards| > 0
    ensures kv.persistency == persistency && kv.enableCaching && kv.enableTtl == enableTtl
    ensures kv.model == map[key := Version(value, 10, if enableTtl then 10 + SECOND else 0)]
    ensures key in kv.cache.contents && kv.cache.contents[key] == value
  {
    kv := OneKey(key, value, persistency, enableTtl);
    var first := kv.Get(key, 0);
  }

  /** Without persistency, an update leaves the value that is cached for the key, and reads return it. */
  method UpdateOfCachedKey(kv: FunKV, key: Bytes, value: Bytes, timestamp: nat, now: nat, shard: nat)
    returns (r: Result<Bytes>)
    requires kv.Valid() && shard < |kv.shards| && !kv.persistency && kv.enableCaching
    requires ValidKey(key) && ValidValue(value) && key in kv.model && 0 < timestamp
    requires kv.model[key].timestamp <= timestamp
    requires key in kv.cache.contents
    modifies kv, kv.cache
    ensures kv.Valid() && key in kv.model && kv.model[key] == Version(value, timestamp, 0)
    ensures r == Ok(old(kv.cache.contents)[key])
    ensures r == Lookup(kv.model, key, kv.enableTtl, now) <==> value == old(kv.cache.contents)[key]
  {
    var updated := kv.Put(key, value, Some(timestamp), 0, now, shard);
    r := kv.Get(key, now);
  }

  /** So a read can return what has been overwritten. */
  method StaleRead() returns (kv: FunKV, r: Result<Bytes>)
    ensures kv.Valid() && [7] in kv.model && kv.model[[7]].value == [2] && r == Ok([1])
  {
    kv := CachedKey([7], [1], false, false);
    r := UpdateOfCachedKey(kv, [7], [2], 20, 0, 0);
  }

  /** A key that has expired is still served from the cache, even with persistency. */
  method ExpiredRead() returns (kv: FunKV, r: Result<Bytes>)
    ensures kv.Valid() && kv.persistency && r == Ok([1])
    ensures Lookup(kv.model, [7], true, 11 + SECOND) == Err(KeyNotFound)
  {
    kv := CachedKey([7], [1], true, true);
    r := kv.Get([7], 11 + SECOND);
  }

  /** Incrementing a counter under a key of 65536 bytes or more takes 65536 off the memory usage. */
  method IncrementOfLongKey(kv: FunKV, key: Bytes, delta: int, timestamp: nat, shard: nat)
    requires kv.Valid() && shard < |kv.shards| && IsI64(delta) && 65536 <= |key| <= MAX_KEY_SIZE
    requires key in kv.model && 0 < timestamp && kv.model[key].timestamp <= timestamp && |kv.model[key].value| == 8
    modifies kv, kv.cache
    ensures kv.Valid() && kv.shards != [] && kv.memoryUsage == old(kv.memoryUsage) - 65536
    ensures key in kv.model && kv.model[key].timestamp == timestamp && |kv.model[key].value| == 8
  {
    ghost var before := kv.model;
    var n := kv.Increment(key, delta, Some(timestamp), 0, 0, shard);
    FootprintPut(before, key, kv.model[key]);
  }

  /** A store with a counter under a key of 65536 bytes. */
  method LongKey() returns (kv: FunKV, key: Bytes)
    ensures fresh(kv) && fresh(kv.cache) && kv.Valid() && |kv.shards| > 0 && |key| == 65536
    ensures key in kv.model && kv.model[key].timestamp == 10 && |kv.model[key].value| == 8 && kv.memoryUsage == 65664
  {
    kv := new FunKV(false, false, false, None, [], 1);
    key := seq(65536, (_: nat) => 7 as Byte);
    FootprintPut(map[], key, Version(EncodeI64(1), 10, 0));
    var one := kv.Increment(key, 1, Some(10), 0, 0, 0);
  }

  /** So the usage can drop below zero, which the program's unsigned counter cannot represent. */
  method MemoryUnderflow() returns (kv: FunKV)
    ensures kv.Valid() && kv.memoryUsage < 0
  {
    var key;
    kv, key := LongKey();
    IncrementOfLongKey(kv, key, 1, 10, 0);
    IncrementOfLongKey(kv, key, 1, 10, 0);
  }

  /** A manager over `sectors` sectors, all of which past the metadata are free. */
  method Device(sectors: nat) returns (m: FreeSpaceManager)
    requires sectors > 16
    ensures fresh(m) && m.Valid() && m.persistenceSize == 4096 * sectors && m.byStart == map[16 := sectors - 16]
    ensures m.splitRemainders == 0
  {
    m := new FreeSpaceManager();
    var r := m.Initialize(4096 * sectors);
  }

  lemma InDevice(c: map<nat, nat>, i: nat)
    requires 16 in c && 16 <= i < 16 + c[16]
    ensures i in Cover(c)
  {
    assert Within(i, 16, c[16]);
  }

  /** After one allocation that splits a chunk, the free-byte figure is twice what is free. */
  method DoubledTotalFree() returns (m: FreeSpaceManager)
    ensures m.Valid() && m.totalFree == 2 * 4096 * |m.Free()| && |m.Free()| == 3
  {
    m := Device(20);
    ghost var all := m.Free();
    InDevice(m.byStart, 16);
    assert Range(16, 1) <= all by {
      assert forall i | i in Range(16, 1) :: i == 16;
    }
    var r := m.AllocateSectors(1);
    FreeAfterOne(m, all, r);
    m.FreeBytes();
  }

  lemma FreeAfterOne(m: FreeSpaceManager, all: set<nat>, r: Result<nat>)
    requires all == Cover(map[16 := 4]) && r.Ok? && r.value == 16 && m.Free() == all - Range(16, 1)
    ensures |m.Free()| == 3
  {
    CoverAdd(map[], 16, 4);
    assert Cover(map[]) == {};
    assert map[][16 := 4] == map[16 := 4];
    assert Range(16, 1) + Range(17, 3) == Range(16, 4) by {
      RangeJoin(16, 1, 3);
    }
    assert m.Free() == Range(17, 3);
    RangeSize(17, 3);
  }

  /** Releasing a sector of the metadata area is refused, and the free chunk behind it is gone. */
  method ChunkLost() returns (m: FreeSpaceManager, r: Result<()>)
    ensures m.Valid() && r == Err(InvalidArgument) && m.byStart == map[]
  {
    m := Device(20);
    r := m.ReleaseSectors(15, 1);
    assert map[16 := 4] - {16} == map[];
  }

  /** Releasing a free sector succeeds and leaves overlapping chunks. */
  method FreedTwice() returns (m: FreeSpaceManager, r: Result<()>)
    ensures r.Ok? && !m.Valid()
  {
    m := Device(20);
    InDevice(m.byStart, 17);
    assert Within(17, 17, 1) && 17 in Range(17, 1);
    r := m.ReleaseSectors(17, 1);
  }

  /** A device that shows a header for the key [1] in these sectors and nothing else. */
  function HeadersAt(sectors: nat, at: set<nat>): (v: View)
    ensures |v| == sectors
  {
    seq(sectors, (i: nat) => if i in at then Some(Parsed([1], 1, 0, 0)) else None)
  }

  lemma {:induction false} QuietTail(v: View, sector: nat)
    requires forall i | sector <= i < |v| :: v[i].None?
    ensures Headers(v, sector) == []
    decreases |v| - sector
  {
    if sector < |v| {
      QuietTail(v, sector + 1);
    }
  }

  lemma {:induction false} QuietUpTo(v: View, sector: nat, to: nat)
    requires sector <= to <= |v| && forall i | sector <= i < to :: v[i].None?
    ensures Headers(v, sector) == Headers(v, to)
    decreases |v| - sector
  {
    if sector < to {
      QuietUpTo(v, sector + 1, to);
    }
  }

  lemma FoundTwice(v: View, f: Found, g: Found)
    requires v == HeadersAt(20, {16, 17}) && f == Found(16, Parsed([1], 1, 0, 0))
    requires g == Found(17, Parsed([1], 1, 0, 0))
    ensures Headers(v, 1) == [f, g]
  {
    QuietUpTo(v, 1, 16);
    QuietTail(v, 18);
    assert Headers(v, 17) == [g] + Headers(v, 18) == [g];
    assert Headers(v, 16) == [f] + Headers(v, 17);
  }

  lemma OneKeyIndexed(f: Found, g: Found)
    requires f.header.key == g.header.key
    ensures Positions([f, g]).Keys == {f.header.key}
  {
    assert [f, g][..1] == [f] && [f][..0] == [];
    assert Positions([f]) == map[f.header.key := 0];
  }

  /** A key found twice is counted twice. */
  method InexactCount(clock: nat -> nat) returns (table: map<Bytes, nat>, count: nat)
    ensures count == 2 && |table.Keys| == 1
  {
    var v := HeadersAt(20, {16, 17});
    ghost var f, g := Found(16, Parsed([1], 1, 0, 0)), Found(17, Parsed([1], 1, 0, 0));
    FoundTwice(v, f, g);
    NoneExpired([f, g], false, clock);
    OneKeyIndexed(f, g);
    var records, tree, memory, occupied;
    records, table, tree, count, memory, occupied := ScanDevice(v, false, clock);
  }

  /** A record in the metadata area with a gap behind it: the free list cannot be rebuilt. */
  method NoFreeList(clock: nat -> nat) returns (r: Result<()>)
    ensures r.Err?
  {
    var v := HeadersAt(20, {1});
    LowRecord(v, clock);
    var occupied := ScanOccupied(v, clock);
    var m := new FreeSpaceManager();
    m.SetPersistenceSize(4096 * 20);
    r := ReleaseGaps(occupied, 20, m);
  }

  lemma LowRecord(v: View, clock: nat -> nat)
    requires v == HeadersAt(20, {1})
    ensures var occupied := OccupiedBy(Unexpired(Headers(v, 1), false, clock)); 1 in occupied && 2 !in occupied
  {
    var f := Found(1, Parsed([1], 1, 0, 0));
    QuietTail(v, 2);
    assert Headers(v, 1) == [f] + Headers(v, 2) == [f];
    NoneExpired([f], false, clock);
    OccupiedMembers([f], 1);
    OccupiedMembers([f], 2);
  }

  method ScanOccupied(v: View, clock: nat -> nat) returns (occupied: seq<nat>)
    ensures OccupiedList(occupied, |v|) && Elements(occupied) == OccupiedBy(Unexpired(Headers(v, 1), false, clock))
  {
    var records, table, tree, count, memory;
    records, table, tree, count, memory, occupied := ScanDevice(v, false, clock);
  }
}
