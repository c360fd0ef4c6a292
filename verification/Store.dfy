/** How the fields of the store stand for a table of versions and for a state of the write-behind protocol. */
module Tables {
  import opened Base
  import opened Format
  import opened WriteBehind
  import opened Safety
  import opened Versions

  /** The record carries this version of the key, in memory or on disk. */
  ghost predicate Carries(disk: Disk, r: Record, key: Bytes, v: Version) {
    && r.key == key && r.timestamp == v.timestamp && r.expiry == v.expiry && r.valueLen == |v.value|
    && ValueOf(disk, r) == Ok(v.value)
  }

  /** The table leads from every key of the model to a record with its version. */
  ghost predicate Indexes(disk: Disk, records: seq<Record>, table: map<Bytes, nat>, m: Model) {
    && table.Keys == m.Keys
    && forall k | k in table :: table[k] < |records| && Carries(disk, records[table[k]], k, m[k])
  }

  lemma PutIndexes(disk: Disk, records: seq<Record>, table: map<Bytes, nat>, m: Model, rec: Record, v: Version)
    requires Indexes(disk, records, table, m) && Carries(disk, rec, rec.key, v)
    ensures Indexes(disk, records + [rec], table[rec.key := |records|], m[rec.key := v])
  {
    var t := table[rec.key := |records|];
    forall k | k in t
      ensures t[k] < |records| + 1 && Carries(disk, (records + [rec])[t[k]], k, m[rec.key := v][k])
    {
      if k != rec.key {
        assert Carries(disk, records[table[k]], k, m[k]);
      }
    }
  }

  /** Every cached value is the stored one. */
  ghost predicate Current(cached: map<Bytes, Bytes>, m: Model) {
    forall k | k in cached :: k in m && m[k].value == cached[k]
  }

  lemma CurrentWithout(cached: map<Bytes, Bytes>, m: Model, key: Bytes, v: Version)
    requires Current(cached, m)
    ensures Current(cached - {key}, m[key := v]) && Current(cached - {key}, m - {key})
    ensures Current(cached, m[key := v]) <==> (key in cached ==> cached[key] == v.value)
  {
    if Current(cached, m[key := v]) && key in cached {
      assert m[key := v][key].value == cached[key];
    }
  }

  /** No two keys share a record, so changing one record affects one key. */
  lemma RemoveIndexes(disk: Disk, records: seq<Record>, table: map<Bytes, nat>, m: Model, key: Bytes, rec: Record)
    requires Indexes(disk, records, table, m) && key in table
    ensures Indexes(disk, records[table[key] := rec], table - {key}, m - {key})
  {
    assert Carries(disk, records[table[key]], key, m[key]);
    forall k | k in table && k != key
      ensures table[k] != table[key] && Carries(disk, records[table[key] := rec][table[k]], k, m[k])
    {
      assert Carries(disk, records[table[k]], k, m[k]);
    }
  }

  lemma RemoveInMemory(disk: Disk, records: seq<Record>, table: map<Bytes, nat>, m: Model, key: Bytes, rec: Record)
    requires Indexes(disk, records, table, m) && InMemory(records, table) && key in table
    ensures InMemory(records[table[key] := rec], table - {key})
  {
    RemoveIndexes(disk, records, table, m, key, rec);
    forall k | k in table && k != key
      ensures records[table[key] := rec][table[k]].value.Some?
    {
      assert Carries(disk, records[table[k]], k, m[k]) && Carries(disk, records[table[key]], key, m[key]);
    }
  }

  /** Both indexes lead to the same records, which carry the model; the counters describe it. */
  ghost predicate Agree(disk: Disk, records: seq<Record>, table: map<Bytes, nat>, tree: map<Bytes, nat>,
                        count: nat, usage: int, drift: nat, m: Model)
  {
    && tree == table && Indexes(disk, records, table, m)
    && count == |m.Keys| && usage == Footprint(m) - drift
  }

  lemma InsertAgree(disk: Disk, records: seq<Record>, table: map<Bytes, nat>, tree: map<Bytes, nat>,
                    count: nat, usage: int, drift: nat, m: Model, rec: Record, v: Version)
    requires Agree(disk, records, table, tree, count, usage, drift, m) && rec.key !in m
    requires Carries(disk, rec, rec.key, v)
    ensures Agree(disk, records + [rec], table[rec.key := |records|], tree[rec.key := |records|],
                  count + 1, usage + RecordSize(|rec.key|, |v.value|), drift, m[rec.key := v])
  {
    PutIndexes(disk, records, table, m, rec, v);
    FootprintPut(m, rec.key, v);
    KeysAdded(m, rec.key, v);
  }

  lemma ReplaceAgree(disk: Disk, records: seq<Record>, table: map<Bytes, nat>, tree: map<Bytes, nat>,
                     count: nat, usage: int, drift: nat, m: Model, rec: Record, v: Version, newUsage: int,
                     newDrift: nat)
    requires Agree(disk, records, table, tree, count, usage, drift, m) && rec.key in m && Carries(disk, rec, rec.key, v)
    requires newUsage + newDrift ==
             usage + drift + RecordSize(|rec.key|, |v.value|) - RecordSize(|rec.key|, |m[rec.key].value|)
    ensures Agree(disk, records + [rec], table[rec.key := |records|], tree[rec.key := |records|], count,
                  newUsage, newDrift, m[rec.key := v])
  {
    PutIndexes(disk, records, table, m, rec, v);
    FootprintPut(m, rec.key, v);
    assert m[rec.key := v].Keys == m.Keys;
  }

  lemma RemoveAgree(disk: Disk, records: seq<Record>, table: map<Bytes, nat>, tree: map<Bytes, nat>,
                    count: nat, usage: int, drift: nat, m: Model, key: Bytes, rec: Record, left: int)
    requires Agree(disk, records, table, tree, count, usage, drift, m) && key in m
    requires left == usage - RecordSize(|key|, |m[key].value|)
    ensures count > 0
    ensures Agree(disk, records[table[key] := rec], table - {key}, tree - {key}, count - 1, left, drift, m - {key})
  {
    RemoveIndexes(disk, records, table, m, key, rec);
    FootprintRemove(m, key);
    KeysRemoved(m, key);
  }

  /** Without persistency, values never leave memory. */
  ghost predicate InMemory(records: seq<Record>, table: map<Bytes, nat>) {
    forall k | k in table :: table[k] < |records| && records[table[k]].value.Some?
  }

  lemma PutInMemory(records: seq<Record>, table: map<Bytes, nat>, rec: Record)
    requires InMemory(records, table) && rec.value.Some?
    ensures InMemory(records + [rec], table[rec.key := |records|])
  {
  }

  /** Records and shards as the protocol state has them. */
  ghost predicate Shows(s: State, disk: Disk, records: seq<Record>, table: map<Bytes, nat>, shards: seq<seq<Entry>>) {
    && s.disk == disk && s.table == table
    && |records| == |s.slots| && (forall r | 0 <= r < |records| :: records[r] == s.slots[r].rec)
    && |shards| == |s.lanes| && (forall w | 0 <= w < |shards| :: Waits(s.lanes[w], shards[w]))
  }

  /** The entries of the lane that its worker has not drained. */
  ghost predicate Waits(l: Lane, shard: seq<Entry>) {
    l.drained <= |l.queue| && shard == l.queue[l.drained..]
  }

  lemma WaitsPush(l: Lane, shard: seq<Entry>, more: seq<Entry>)
    requires Waits(l, shard)
    ensures Waits(l.(queue := l.queue + more), shard + more)
  {
  }

  /** What an insert (nothing superseded) or an update queues. */
  function Queued(rid: nat, prior: Option<nat>, oldLen: nat): seq<Entry> {
    if prior.None? then [Entry(Insert, rid, 0)]
    else [Entry(Update, rid, oldLen), Entry(Delete, prior.value, oldLen)]
  }

  /** What the put of a key queues, given the record and the version that it supersedes. */
  function QueuedBy(table: map<Bytes, nat>, m: Model, key: Bytes, rid: nat): seq<Entry> {
    if key in table && key in m then Queued(rid, Some(table[key]), |m[key].value|) else Queued(rid, None, 0)
  }

  /** `add_entry` */
  function Push(shards: seq<seq<Entry>>, i: nat, entries: seq<Entry>): (r: seq<seq<Entry>>)
    requires i < |shards|
    ensures |r| == |shards|
  {
    shards[i := shards[i] + entries]
  }

  lemma PutShows(s: State, disk: Disk, records: seq<Record>, table: map<Bytes, nat>, shards: seq<seq<Entry>>,
                 rec: Record, i: nat, prior: Option<nat>, oldLen: nat)
    requires Inv(s) && Shows(s, disk, records, table, shards) && i < |shards|
    requires prior == if rec.key in table then Some(table[rec.key]) else None
    requires prior.Some? ==> prior.value < |records| && oldLen == records[prior.value].valueLen
    ensures Shows(Put(s, rec.key, rec, i), disk, records + [rec], table[rec.key := |records|],
                  Push(shards, i, Queued(|records|, prior, oldLen)))
  {
    assert Waits(s.lanes[i], shards[i]);
    WaitsPush(s.lanes[i], shards[i], Queued(|records|, prior, oldLen));
    if prior.Some? {
      assert TableOk(s, rec.key);
    }
  }

  lemma RemoveShows(s: State, disk: Disk, records: seq<Record>, table: map<Bytes, nat>, shards: seq<seq<Entry>>,
                    key: Bytes, i: nat, oldLen: nat)
    requires Inv(s) && Shows(s, disk, records, table, shards) && i < |shards| && key in table && table[key] < |records|
    ensures Shows(Remove(s, key, 0, oldLen, true, i), disk,
                  records[table[key] := records[table[key]].(refcount := 0)], table - {key},
                  Push(shards, i, [Entry(Delete, table[key], oldLen)]))
  {
    assert Waits(s.lanes[i], shards[i]);
    WaitsPush(s.lanes[i], shards[i], [Entry(Delete, table[key], oldLen)]);
    assert TableOk(s, key);
  }

  ghost predicate WorkerStep(step: Step) {
    !step.ClientPut? && !step.ClientDelete? && !step.Sweep? && !step.SetExpiry?
  }

  /** All that a worker changes in a record is where its value is. */
  ghost predicate SameVersion(a: Record, b: Record) {
    a.key == b.key && a.valueLen == b.valueLen && a.timestamp == b.timestamp && a.expiry == b.expiry
  }

  lemma WorkersKeepVersions(s: State, step: Step)
    requires Inv(s) && Enabled(s, step) && WorkerStep(step)
    ensures var t := Next(s, step);
      t.table == s.table && |t.slots| == |s.slots|
        && forall r | 0 <= r < |s.slots| :: SameVersion(s.slots[r].rec, t.slots[r].rec)
  {
    assert LaneOk(s, step.w);
  }

  /** The table of a protocol state leads to the versions of the model. */
  ghost predicate Tabled(s: State, m: Model) {
    && s.table.Keys == m.Keys
    && forall k | k in s.table :: s.table[k] < |s.slots| && Carries(s.disk, s.slots[s.table[k]].rec, k, m[k])
  }

  lemma ShowsTabled(s: State, disk: Disk, records: seq<Record>, table: map<Bytes, nat>, shards: seq<seq<Entry>>,
                    m: Model)
    requires Shows(s, disk, records, table, shards)
    ensures Indexes(disk, records, table, m) <==> Tabled(s, m)
  {
  }

  /** Whatever step a worker takes, the table leads to the same versions. */
  lemma WorkerKeepsTabled(s: State, step: Step, m: Model)
    requires Inv(s) && Enabled(s, step) && WorkerStep(step) && Tabled(s, m)
    ensures Tabled(Next(s, step), m)
  {
    var t := Next(s, step);
    StepIsSafe(s, step);
    WorkersKeepVersions(s, step);
    forall k | k in s.table
      ensures t.table[k] < |t.slots| && Carries(t.disk, t.slots[t.table[k]].rec, k, m[k])
    {
      assert TableOk(s, k) && TableOk(t, k);
      assert Carries(s.disk, s.slots[s.table[k]].rec, k, m[k]);
      assert SameVersion(s.slots[s.table[k]].rec, t.slots[s.table[k]].rec);
      assert Contents(t)[k] == Contents(s)[k];
    }
  }

  lemma StepKeepsIndexes(s: State, step: Step, disk: Disk, records: seq<Record>, table: map<Bytes, nat>,
                         shards: seq<seq<Entry>>, newDisk: Disk, newRecords: seq<Record>,
                         newShards: seq<seq<Entry>>, m: Model)
    requires Inv(s) && Enabled(s, step) && WorkerStep(step)
    requires Shows(s, disk, records, table, shards) && Indexes(disk, records, table, m)
    requires Shows(Next(s, step), newDisk, newRecords, table, newShards)
    ensures Indexes(newDisk, newRecords, table, m) && |newShards| == |shards|
  {
    ShowsTabled(s, disk, records, table, shards, m);
    WorkerKeepsTabled(s, step, m);
    ShowsTabled(Next(s, step), newDisk, newRecords, table, newShards, m);
  }

  /** So does a whole run of workers, from step `i` of a history on. */
  lemma {:induction false} WorkersKeepTabled(states: seq<State>, steps: seq<Step>, i: nat, m: Model)
    requires History(states, steps) && i <= |steps| && Tabled(states[i], m)
    requires forall j | i <= j < |steps| :: WorkerStep(steps[j])
    ensures Tabled(states[|steps|], m)
    decreases |steps| - i
  {
    if i < |steps| {
      assert Follows(states, steps, i);
      WorkerKeepsTabled(states[i], steps[i], m);
      WorkersKeepTabled(states, steps, i + 1, m);
    }
  }
}

/** The operations of src/core/operations.rs, each atomic, with the clock and the shard of the calling thread as
    inputs. */
module Store {
  import opened Base
  import opened Format
  import opened WriteBehind
  import opened Versions
  import opened Tables
  import opened Order
  import opened Ranges
  import Cache

  predicate ValidKey(key: Bytes) {
    1 <= |key| <= MAX_KEY_SIZE
  }

  predicate ValidValue(value: Bytes) {
    1 <= |value| <= MAX_VALUE_SIZE
  }

  /** No timestamp, and zero, mean now. */
  function Settle(timestamp: Option<nat>, now: nat): nat {
    if timestamp.None? || timestamp.value == 0 then now else timestamp.value
  }

  /** What an insert returns. */
  function PutResult(m: Model, key: Bytes, value: Bytes, timestamp: nat, room: bool): Result<bool> {
    if !ValidKey(key) then Err(InvalidKeySize)
    else if !ValidValue(value) then Err(InvalidValueSize)
    else if key in m then if timestamp < m[key].timestamp then Err(OlderTimestamp) else Ok(false)
    else if room then Ok(true)
    else Err(OutOfMemory)
  }

  function DeleteResult(m: Model, key: Bytes, timestamp: nat): Result<()> {
    if !ValidKey(key) then Err(InvalidKeySize)
    else if key !in m then Err(KeyNotFound)
    else if timestamp < m[key].timestamp then Err(OlderTimestamp)
    else Ok(())
  }

  predicate ExpiredAt(v: Version, now: nat) {
    0 < v.expiry < now
  }

  /** What a read returns when no cache is in the way. */
  function Lookup(m: Model, key: Bytes, enableTtl: bool, now: nat): Result<Bytes> {
    if !ValidKey(key) then Err(InvalidKeySize)
    else if key !in m || (enableTtl && ExpiredAt(m[key], now)) then Err(KeyNotFound)
    else Ok(m[key].value)
  }

  /** `update_memory_usage` */
  function UpdatedUsage(usage: int, newSize: nat, oldSize: nat): (u: int)
    ensures u - usage == newSize - oldSize
  {
    if newSize > oldSize then usage + (newSize - oldSize) else usage - (oldSize - newSize)
  }

  /** When a version with this timestamp and time to live expires, in 64 bits; zero means never. */
  function ExpiryOf(timestamp: nat, ttlSeconds: nat, enabled: bool): nat {
    if ttlSeconds > 0 && enabled then (timestamp + ttlSeconds * SECOND) % TWO_TO_THE_64 else 0
  }

  // ----- counters in values

  const TWO_TO_THE_63: int := 0x8000_0000_0000_0000

  predicate IsI64(n: int) {
    -TWO_TO_THE_63 <= n < TWO_TO_THE_63
  }

  /** `n.to_le_bytes()` */
  function EncodeI64(n: int): (b: Bytes)
    requires IsI64(n)
    ensures |b| == 8
  {
    LeBytes(if n < 0 then n + TWO_TO_THE_64 else n, 8)
  }

  /** `i64::from_le_bytes(b)` */
  function DecodeI64(b: Bytes): int {
    var n := FromLe(b);
    if n < TWO_TO_THE_63 then n else n - TWO_TO_THE_64
  }

  lemma I64RoundTrip(n: int)
    requires IsI64(n)
    ensures DecodeI64(EncodeI64(n)) == n
  {
    LeRoundTrip64(if n < 0 then n + TWO_TO_THE_64 else n);
  }

  /** Eight bytes as a signed number: two's complement, least significant byte first. */
  ghost function Signed(b: Bytes): int
    requires |b| == 8
  {
    (b[0] as int) + 0x100 * (b[1] as int) + 0x1_0000 * (b[2] as int) + 0x100_0000 * (b[3] as int)
    + 0x1_0000_0000 * (b[4] as int) + 0x100_0000_0000 * (b[5] as int)
    + 0x1_0000_0000_0000 * (b[6] as int) + 0x100_0000_0000_0000 * (b[7] as int)
    - (if b[7] >= 128 then 0x1_0000_0000_0000_0000 else 0)
  }

  /** The nearest number that 64 bits can hold. */
  ghost function Clamped(n: int): int {
    if n < -0x8000_0000_0000_0000 then -0x8000_0000_0000_0000
    else if n > 0x7FFF_FFFF_FFFF_FFFF then 0x7FFF_FFFF_FFFF_FFFF
    else n
  }

  lemma {:induction false} FromTwoBytes(b: Bytes)
    requires |b| >= 2
    ensures FromLe(b) == (b[0] as int) + 0x100 * (b[1] as int) + 0x1_0000 * FromLe(b[2..])
  {
    assert b[1..][1..] == b[2..];
  }

  lemma {:induction false} FromEightBytes(b: Bytes)
    requires |b| == 8
    ensures FromLe(b) == (b[0] as int) + 0x100 * (b[1] as int) + 0x1_0000 * (b[2] as int) + 0x100_0000 * (b[3] as int)
                         + 0x1_0000_0000 * (b[4] as int) + 0x100_0000_0000 * (b[5] as int)
                         + 0x1_0000_0000_0000 * (b[6] as int) + 0x100_0000_0000_0000 * (b[7] as int)
  {
    FromTwoBytes(b);
    FromTwoBytes(b[2..]);
    assert b[2..][2..] == b[4..];
    FromTwoBytes(b[4..]);
    assert b[4..][2..] == b[6..];
    FromTwoBytes(b[6..]);
    assert b[6..][2..] == [];
  }

  /** The program reads the number that the bytes stand for. */
  lemma DecodesSigned(b: Bytes)
    requires |b| == 8
    ensures DecodeI64(b) == Signed(b) && IsI64(Signed(b))
  {
    FromEightBytes(b);
  }

  /** And writes bytes that stand for it. */
  lemma EncodesSigned(n: int)
    requires IsI64(n)
    ensures Signed(EncodeI64(n)) == n
  {
    I64RoundTrip(n);
    DecodesSigned(EncodeI64(n));
  }

  /** `a.saturating_add(b)` */
  function SaturatingAdd(a: int, b: int): (n: int)
    ensures IsI64(n) && (IsI64(a + b) ==> n == a + b)
    ensures IsI64(a) && IsI64(b) && !IsI64(a + b) ==> n == if b > 0 then TWO_TO_THE_63 - 1 else -TWO_TO_THE_63
  {
    if a + b < -TWO_TO_THE_63 then -TWO_TO_THE_63 else if a + b >= TWO_TO_THE_63 then TWO_TO_THE_63 - 1 else a + b
  }

  /** `key_len` of a record: 16 bits of the length. */
  function KeyLen(key: Bytes): (n: nat)
    ensures n <= |key| && (n == |key| <==> |key| < 65536)
    ensures 65536 <= |key| <= MAX_KEY_SIZE ==> n == |key| - 65536
  {
    |key| % 65536
  }

  /** What an increment returns. */
  function IncrementResult(m: Model, key: Bytes, delta: int, timestamp: nat): Result<int> {
    if !ValidKey(key) then Err(InvalidKeySize)
    else if key !in m then Ok(delta)
    else if timestamp < m[key].timestamp then Err(OlderTimestamp)
    else if |m[key].value| != 8 then Err(InvalidOperation)
    else Ok(SaturatingAdd(DecodeI64(m[key].value), delta))
  }

  class FunKV {
    /** All records ever made, which the indexes and the write buffer share. */
    var records: seq<Record>
    var hashTable: map<Bytes, nat>
    var tree: map<Bytes, nat>
    var recordCount: nat
    /** May come out negative; see `drift`. */
    var memoryUsage: int
    var disk: Disk
    var shards: seq<seq<Entry>>
    const cache: Cache.Cache
    const persistency: bool
    const enableCaching: bool
    const enableTtl: bool
    const maxMemory: Option<nat>
    /** What the clients have stored. */
    ghost var model: Model
    /** By how much the increments of long keys have understated the memory usage. */
    ghost var drift: nat

    /** Every cached value is the current one. */
    ghost predicate CacheAgrees()
      reads this, cache
    {
      Current(cache.contents, model)
    }

    /** The indexes and the counters fit the model. */
    ghost predicate Agrees()
      reads this`tree, this`hashTable, this`records, this`disk, this`model, this`recordCount, this`memoryUsage,
        this`drift
    {
      Agree(disk, records, hashTable, tree, recordCount, memoryUsage, drift, model)
    }

    ghost predicate Valid()
      reads this, cache
    {
      && cache.Valid() && Agrees() && |shards| > 0
      && (!persistency ==> InMemory(records, hashTable))
      && (persistency && enableCaching ==> CacheAgrees())
    }

    /** An empty store. */
    constructor (persistency: bool, enableCaching: bool, enableTtl: bool, maxMemory: Option<nat>, disk: Disk,
                 numShards: nat)
      requires numShards > 0
      ensures Valid() && fresh(cache) && model == map[] && drift == 0 && this.disk == disk
      ensures records == [] && hashTable == map[] && |shards| == numShards
      ensures forall w | 0 <= w < numShards :: shards[w] == []
      ensures this.persistency == persistency && this.enableCaching == enableCaching && this.enableTtl == enableTtl
      ensures this.maxMemory == maxMemory && cache.contents == map[] && cache.highWatermark == 100 * MB
    {
      this.persistency, this.enableCaching := persistency, enableCaching;
      this.enableTtl, this.maxMemory := enableTtl, maxMemory;
      records, hashTable, tree, recordCount, memoryUsage, this.disk := [], map[], map[], 0, 0, disk;
      shards := seq(numShards, (_: nat) => []);
      model, drift := map[], 0;
      cache := new Cache.Cache();
    }

    /** A persistent store that takes over what recovery has rebuilt. */
    constructor Recovered(enableCaching: bool, enableTtl: bool, maxMemory: Option<nat>, disk: Disk, numShards: nat,
                          records: seq<Record>, hashTable: map<Bytes, nat>, tree: map<Bytes, nat>, recordCount: nat,
                          memoryUsage: nat, ghost m: Model)
      requires numShards > 0 && Agree(disk, records, hashTable, tree, recordCount, memoryUsage, 0, m)
      ensures Valid() && fresh(cache) && model == m && drift == 0 && this.disk == disk
      ensures this.records == records && this.hashTable == hashTable && |shards| == numShards
      ensures forall w | 0 <= w < numShards :: shards[w] == []
      ensures persistency && this.enableCaching == enableCaching && this.enableTtl == enableTtl
      ensures this.maxMemory == maxMemory && cache.contents == map[]
    {
      this.persistency, this.enableCaching, this.enableTtl, this.maxMemory := true, enableCaching, enableTtl, maxMemory;
      this.records, this.hashTable, this.tree, this.disk := records, hashTable, tree, disk;
      this.recordCount, this.memoryUsage := recordCount, memoryUsage;
      shards := seq(numShards, (_: nat) => []);
      model, drift := m, 0;
      cache := new Cache.Cache();
    }

    /** `add_write` */
    method AddWrite(kind: Kind, rid: nat, oldLen: nat, shard: nat)
      requires shard < |shards|
      modifies this`shards
      ensures shards == Push(old(shards), shard, [Entry(kind, rid, oldLen)])
    {
      shards := shards[shard := shards[shard] + [Entry(kind, rid, oldLen)]];
    }

    /** Queues a new record and, behind it, the deletion of the record it supersedes. */
    method QueuePut(rid: nat, prior: Option<nat>, oldLen: nat, shard: nat)
      requires shard < |shards|
      modifies this`shards
      ensures shards == Push(old(shards), shard, Queued(rid, prior, oldLen))
    {
      if prior.None? {
        AddWrite(Insert, rid, 0, shard);
      } else {
        AddWrite(Update, rid, oldLen, shard);
        AddWrite(Kind.Delete, prior.value, oldLen, shard);
        assert old(shards[shard]) + [Entry(Update, rid, oldLen)] + [Entry(Kind.Delete, prior.value, oldLen)]
            == old(shards[shard]) + Queued(rid, prior, oldLen);
      }
    }

    /** Enters a record into both indexes and sets the counters. */
    method Link(rec: Record, count: nat, usage: int, ghost m: Model, ghost d: nat)
      modifies this`records, this`hashTable, this`tree, this`recordCount, this`memoryUsage, this`model, this`drift
      ensures records == old(records) + [rec]
      ensures hashTable == old(hashTable)[rec.key := |old(records)|] && tree == old(tree)[rec.key := |old(records)|]
      ensures recordCount == count && memoryUsage == usage && model == m && drift == d
    {
      var rid := |records|;
      records := records + [rec];
      hashTable := hashTable[rec.key := rid];
      tree := tree[rec.key := rid];
      recordCount, memoryUsage := count, usage;
      model, drift := m, d;
    }

    /** Indexes and counts a record for a key that has none. */
    method InsertRecord(key: Bytes, value: Bytes, timestamp: nat, expiry: nat)
      requires Agrees() && key !in model
      modifies this`records, this`hashTable, this`tree, this`recordCount, this`memoryUsage, this`model, this`drift
      ensures Agrees() && model == old(model)[key := Version(value, timestamp, expiry)] && drift == old(drift)
      ensures records == old(records) + [NewRecord(key, value, timestamp, expiry)]
      ensures hashTable == old(hashTable)[key := |old(records)|]
    {
      var rec := NewRecord(key, value, timestamp, expiry);
      ghost var v := Version(value, timestamp, expiry);
      InsertAgree(disk, records, hashTable, tree, recordCount, memoryUsage, drift, model, rec, v);
      Link(rec, recordCount + 1, memoryUsage + RecordSize(|key|, |value|), model[key := v], drift);
    }

    /** `persistent_update` */
    method PersistentUpdate(rid: nat, prior: nat, key: Bytes, oldLen: nat, shard: nat)
      requires shard < |shards| && cache.Valid()
      modifies this`shards, cache
      ensures shards == Push(old(shards), shard, Queued(rid, Some(prior), oldLen))
      ensures shards[shard] == old(shards[shard]) + [Entry(Update, rid, oldLen), Entry(Kind.Delete, prior, oldLen)]
      ensures cache.Valid()
      ensures cache.contents == if enableCaching then old(cache.contents) - {key} else old(cache.contents)
    {
      if enableCaching {
        cache.Remove(key);
      }
      QueuePut(rid, Some(prior), oldLen, shard);
    }

    /** Indexes a record that supersedes the one the key has; `newSize` is what the memory usage is told. */
    method ReplaceRecord(key: Bytes, value: Bytes, timestamp: nat, expiry: nat, newSize: nat)
      requires Agrees() && key in model && newSize <= RecordSize(|key|, |value|)
      modifies this`records, this`hashTable, this`tree, this`recordCount, this`memoryUsage, this`model, this`drift
      ensures Agrees() && model == old(model)[key := Version(value, timestamp, expiry)]
      ensures drift == old(drift) + RecordSize(|key|, |value|) - newSize
      ensures records == old(records) + [NewRecord(key, value, timestamp, expiry)]
      ensures hashTable == old(hashTable)[key := |old(records)|]
    {
      var rec := NewRecord(key, value, timestamp, expiry);
      var superseded := records[hashTable[key]];
      ghost var v := Version(value, timestamp, expiry);
      assert superseded.valueLen == |model[key].value| by {
        assert Carries(disk, superseded, key, model[key]);
      }
      var usage := UpdatedUsage(memoryUsage, newSize, RecordSize(|key|, superseded.valueLen));
      ghost var d := drift + RecordSize(|key|, |value|) - newSize;
      ReplaceAgree(disk, records, hashTable, tree, recordCount, memoryUsage, drift, model, rec, v, usage, d);
      Link(rec, recordCount, usage, model[key := v], d);
    }

    /** The value of a record, from memory or else from disk. */
    function ReadValue(rec: Record): Result<Bytes>
      reads this`disk
    {
      if rec.value.Some? then Ok(rec.value.value) else LoadValue(disk, persistency, rec)
    }

    /** The record of a key shows its version. */
    lemma ReadsModel(key: Bytes)
      requires Valid() && key in model
      ensures hashTable[key] < |records| && ReadValue(records[hashTable[key]]) == Ok(model[key].value)
      ensures var rec := records[hashTable[key]];
        rec.timestamp == model[key].timestamp && rec.expiry == model[key].expiry && rec.valueLen == |model[key].value|
    {
      assert Carries(disk, records[hashTable[key]], key, model[key]);
    }

    /** The memory usage is what keys and values take, and 120 bytes for each record, but for the drift. */
    lemma CountsBytes()
      requires Valid()
      ensures recordCount == |model.Keys|
      ensures memoryUsage == Payload(Values(model)) + 120 * recordCount - drift
    {
      FootprintIsPayload(model);
    }

    /** `check_memory_limit`: the counter has 64 bits, so a usage below zero stands for a very large one. */
    predicate HasRoom(size: nat)
      reads this`memoryUsage
    {
      maxMemory.None? || (memoryUsage + size) % TWO_TO_THE_64 <= maxMemory.value
    }

    /** A new record now holds the version of the key, and the write buffer has been told. */
    twostate predicate Stores(key: Bytes, v: Version, shard: nat)
      requires shard < |old(shards)|
      reads this
    {
      && model == old(model)[key := v] && disk == old(disk)
      && records == old(records) + [NewRecord(key, v.value, v.timestamp, v.expiry)]
      && hashTable == old(hashTable)[key := |old(records)|]
      && if persistency then
           shards == Push(old(shards), shard, QueuedBy(old(hashTable), old(model), key, |old(records)|))
         else shards == old(shards)
    }

    /** Cached values of the key are dropped, but only on the way to the write buffer. */
    twostate predicate Invalidates(key: Bytes)
      reads this, cache
    {
      if persistency && enableCaching then cache.contents == old(cache.contents) - {key}
      else cache.contents == old(cache.contents)
    }

    /** Stores a version for a key that has none. */
    method Add(key: Bytes, value: Bytes, timestamp: nat, expiry: nat, shard: nat)
      requires Valid() && shard < |shards| && key !in model
      modifies this
      ensures Valid() && Stores(key, Version(value, timestamp, expiry), shard) && drift == old(drift)
    {
      if !persistency {
        PutInMemory(records, hashTable, NewRecord(key, value, timestamp, expiry));
      }
      if persistency && enableCaching {
        CurrentWithout(cache.contents, model, key, Version(value, timestamp, expiry));
      }
      var rid := |records|;
      InsertRecord(key, value, timestamp, expiry);
      if persistency {
        QueuePut(rid, None, 0, shard);
      }
    }

    /** Indexes the new record and, with persistency, drops the cached value and queues both records. */
    method Exchange(key: Bytes, value: Bytes, timestamp: nat, expiry: nat, newSize: nat, oldLen: nat, shard: nat)
      requires Agrees() && cache.Valid() && shard < |shards| && key in model && newSize <= RecordSize(|key|, |value|)
      requires oldLen == |model[key].value|
      modifies this, cache
      ensures Agrees() && cache.Valid() && Stores(key, Version(value, timestamp, expiry), shard) && Invalidates(key)
      ensures drift == old(drift) + RecordSize(|key|, |value|) - newSize
    {
      var rid, prior := |records|, hashTable[key];
      ReplaceRecord(key, value, timestamp, expiry, newSize);
      if persistency {
        PersistentUpdate(rid, prior, key, oldLen, shard);
      }
    }

    /** Stores a version in the place of the one the key has. */
    method Supersede(key: Bytes, value: Bytes, timestamp: nat, expiry: nat, newSize: nat, shard: nat)
      requires Valid() && shard < |shards| && key in model && newSize <= RecordSize(|key|, |value|)
      modifies this, cache
      ensures Valid() && Stores(key, Version(value, timestamp, expiry), shard) && Invalidates(key)
      ensures drift == old(drift) + RecordSize(|key|, |value|) - newSize
    {
      ReadsModel(key);
      if !persistency {
        PutInMemory(records, hashTable, NewRecord(key, value, timestamp, expiry));
      } else if enableCaching {
        CurrentWithout(cache.contents, model, key, Version(value, timestamp, expiry));
      }
      Exchange(key, value, timestamp, expiry, newSize, records[hashTable[key]].valueLen, shard);
    }

    /** `insert_with_timestamp_and_ttl_internal` and `update_record_with_ttl` */
    method Put(key: Bytes, value: Bytes, timestamp: Option<nat>, ttlSeconds: nat, now: nat, shard: nat)
      returns (r: Result<bool>)
      requires Valid() && shard < |shards|
      modifies this, cache
      ensures Valid() && drift == old(drift)
      ensures r == PutResult(old(model), key, value, Settle(timestamp, now), old(HasRoom(RecordSize(|key|, |value|))))
      ensures r.Ok? ==>
                var ts := Settle(timestamp, now);
                Stores(key, Version(value, ts, ExpiryOf(ts, ttlSeconds, enableTtl)), shard)
      ensures r.Err? ==> unchanged(this) && unchanged(cache)
      ensures if r == Ok(false) then Invalidates(key) else unchanged(cache)
    {
      if !ValidKey(key) {
        return Err(InvalidKeySize);
      }
      if !ValidValue(value) {
        return Err(InvalidValueSize);
      }
      var ts := Settle(timestamp, now);
      var expiry := ExpiryOf(ts, ttlSeconds, enableTtl);
      var size := RecordSize(|key|, |value|);
      if key in hashTable {
        ReadsModel(key);
        var existing := records[hashTable[key]];
        if ts < existing.timestamp {
          return Err(OlderTimestamp);
        }
        Supersede(key, value, ts, expiry, size, shard);
        return Ok(false);
      }
      if !HasRoom(size) {
        return Err(OutOfMemory);
      }
      Add(key, value, ts, expiry, shard);
      return Ok(true);
    }

    /** Takes the record of a key out of both indexes. */
    method Unlink(key: Bytes, rid: nat, rec: Record, usage: int, ghost m: Model)
      requires rid < |records| && recordCount > 0
      modifies this`records, this`hashTable, this`tree, this`recordCount, this`memoryUsage, this`model
      ensures records == old(records)[rid := rec] && hashTable == old(hashTable) - {key} && tree == old(tree) - {key}
      ensures recordCount == old(recordCount) - 1 && memoryUsage == usage && model == m
    {
      hashTable := hashTable - {key};
      records := records[rid := rec];
      tree := tree - {key};
      recordCount, memoryUsage := recordCount - 1, usage;
      model := m;
    }

    method DropRecord(key: Bytes, oldLen: nat)
      requires Agrees() && key in model && oldLen == |model[key].value|
      modifies this`records, this`hashTable, this`tree, this`recordCount, this`memoryUsage, this`model
      ensures Agrees() && model == old(model) - {key} && hashTable == old(hashTable) - {key}
      ensures old(hashTable[key]) < |old(records)|
      ensures records == old(records)[old(hashTable[key]) := old(records[hashTable[key]]).(refcount := 0)]
    {
      var rid := hashTable[key];
      var rec := records[rid].(refcount := 0);
      var left := memoryUsage - RecordSize(|key|, oldLen);
      RemoveAgree(disk, records, hashTable, tree, recordCount, memoryUsage, drift, model, key, rec, left);
      Unlink(key, rid, rec, left, model - {key});
    }

    /** The record of the key has left the indexes and the cache, and the write buffer has been told. */
    twostate predicate Removes(key: Bytes, shard: nat)
      requires shard < |old(shards)|
      reads this, cache
    {
      && model == old(model) - {key} && hashTable == old(hashTable) - {key} && disk == old(disk)
      && cache.contents == (if enableCaching then old(cache.contents) - {key} else old(cache.contents))
      && key in old(model) && key in old(hashTable) && old(hashTable)[key] < |old(records)|
      && records == old(records)[old(hashTable)[key] := old(records)[old(hashTable)[key]].(refcount := 0)]
      && if persistency then
           shards == Push(old(shards), shard, [Entry(Kind.Delete, old(hashTable)[key], |old(model)[key].value|)])
         else shards == old(shards)
    }

    method Retire(key: Bytes, oldLen: nat, shard: nat)
      requires Agrees() && cache.Valid() && shard < |shards| && key in model && oldLen == |model[key].value|
      modifies this, cache
      ensures Agrees() && cache.Valid() && Removes(key, shard) && drift == old(drift)
    {
      var rid := hashTable[key];
      DropRecord(key, oldLen);
      if enableCaching {
        cache.Remove(key);
      }
      if persistency {
        AddWrite(Kind.Delete, rid, oldLen, shard);
      }
    }

    method Withdraw(key: Bytes, shard: nat)
      requires Valid() && shard < |shards| && key in model
      modifies this, cache
      ensures Valid() && Removes(key, shard) && drift == old(drift)
    {
      ReadsModel(key);
      var rec := records[hashTable[key]];
      if !persistency {
        RemoveInMemory(disk, records, hashTable, model, key, rec.(refcount := 0));
      } else if enableCaching {
        CurrentWithout(cache.contents, model, key, model[key]);
      }
      Retire(key, rec.valueLen, shard);
    }

    /** `delete_with_timestamp` */
    method Delete(key: Bytes, timestamp: Option<nat>, now: nat, shard: nat) returns (r: Result<()>)
      requires Valid() && shard < |shards|
      modifies this, cache
      ensures Valid() && drift == old(drift)
      ensures r == DeleteResult(old(model), key, Settle(timestamp, now))
      ensures r.Err? ==> unchanged(this) && unchanged(cache)
      ensures r.Ok? ==> Removes(key, shard)
    {
      if !ValidKey(key) {
        return Err(InvalidKeySize);
      }
      if key !in hashTable {
        return Err(KeyNotFound);
      }
      ReadsModel(key);
      var rec := records[hashTable[key]];
      if Settle(timestamp, now) < rec.timestamp {
        return Err(OlderTimestamp);
      }
      Withdraw(key, shard);
      return Ok(());
    }

    /** `get`. A cached value is returned as it is; with persistency that makes no difference but for one case: the key
        has expired and is still cached. */
    method Get(key: Bytes, now: nat) returns (r: Result<Bytes>)
      requires Valid()
      modifies cache
      ensures Valid()
      ensures r == if ValidKey(key) && enableCaching && key in old(cache.contents) then Ok(old(cache.contents)[key])
                   else Lookup(model, key, enableTtl, now)
      ensures persistency ==>
                (r == Lookup(model, key, enableTtl, now) <==>
                 !(ValidKey(key) && enableCaching && key in old(cache.contents) && enableTtl
                   && ExpiredAt(model[key], now)))
      ensures enableCaching && r.Ok? && |key| + |r.value| + 72 <= old(cache.highWatermark) / 4 ==>
                key in cache.contents && cache.contents[key] == r.value
    {
      if !ValidKey(key) {
        return Err(InvalidKeySize);
      }
      if enableCaching {
        var cached := cache.Get(key);
        if cached.Some? {
          return Ok(cached.value);
        }
      }
      if key !in hashTable {
        return Err(KeyNotFound);
      }
      ReadsModel(key);
      var rec := records[hashTable[key]];
      if enableTtl && rec.expiry > 0 && now > rec.expiry {
        return Err(KeyNotFound);
      }
      r := ReadValue(rec);
      if enableCaching {
        cache.Insert(key, r.value);
      }
    }

    /** `atomic_increment_with_timestamp_and_ttl_internal`. The memory usage is told the key length modulo 65536. */
    method Increment(key: Bytes, delta: int, timestamp: Option<nat>, ttlSeconds: nat, now: nat, shard: nat)
      returns (r: Result<int>)
      requires Valid() && shard < |shards| && IsI64(delta)
      modifies this, cache
      ensures Valid()
      ensures r == IncrementResult(old(model), key, delta, Settle(timestamp, now))
      ensures r.Ok? ==>
                var ts := Settle(timestamp, now);
                IsI64(r.value) && Stores(key, Version(EncodeI64(r.value), ts, ExpiryOf(ts, ttlSeconds, true)), shard)
      ensures r.Err? ==> unchanged(this) && unchanged(cache)
      ensures if r.Ok? && key in old(model) then Invalidates(key) else unchanged(cache)
      ensures drift == old(drift) + if r.Ok? && key in old(model) then |key| - KeyLen(key) else 0
      ensures r.Ok? ==> key in model && |model[key].value| == 8 && Signed(model[key].value) == r.value
      ensures r.Ok? && key !in old(model) ==> r.value == delta
      ensures r.Ok? && key in old(model) ==>
                |old(model)[key].value| == 8 && r.value == Clamped(Signed(old(model)[key].value) + delta)
    {
      if !ValidKey(key) {
        return Err(InvalidKeySize);
      }
      var ts := Settle(timestamp, now);
      var expiry := ExpiryOf(ts, ttlSeconds, true);
      if key !in hashTable {
        EncodesSigned(delta);
        Add(key, EncodeI64(delta), ts, expiry, shard);
        return Ok(delta);
      }
      ReadsModel(key);
      var rec := records[hashTable[key]];
      if ts < rec.timestamp {
        return Err(OlderTimestamp);
      }
      var value := ReadValue(rec).value;
      if |value| != 8 {
        return Err(InvalidOperation);
      }
      var n := SaturatingAdd(DecodeI64(value), delta);
      DecodesSigned(value);
      EncodesSigned(n);
      Supersede(key, EncodeI64(n), ts, expiry, RecordSize(KeyLen(key), 8), shard);
      return Ok(n);
    }

    /** `range_query` */
    method RangeQuery(first: Bytes, last: Bytes, limit: nat) returns (r: Result<seq<(Bytes, Bytes)>>)
      requires Valid()
      ensures !ValidKey(first) || !ValidKey(last) ==> r == Err(InvalidKeySize)
      ensures ValidKey(first) && ValidKey(last) ==> r.Ok? && IsPage(model, first, last, limit, r.value)
    {
      if !ValidKey(first) || !ValidKey(last) {
        return Err(InvalidKeySize);
      }
      var page: seq<(Bytes, Bytes)> := [];
      var rest := set k | k in tree && InRange(k, first, last);
      while rest != {}
        invariant |page| <= limit && PageSoFar(model, first, last, page, rest)
        decreases |rest|
      {
        if |page| >= limit {
          break;
        }
        var k := Least(rest);
        ReadsModel(k);
        var value := ReadValue(records[tree[k]]);
        PageNext(model, first, last, page, rest, k);
        page, rest := page + [(k, value.value)], rest - {k};
      }
      PageDone(model, first, last, limit, page, rest);
      return Ok(page);
    }

    /** A store in which workers have moved values about is as good as before. */
    twostate lemma StillValid()
      requires old(Valid()) && persistency && shards != [] && Indexes(disk, records, hashTable, model)
      requires unchanged(this`hashTable, this`tree, this`recordCount, this`memoryUsage, this`model, this`drift)
      requires unchanged(cache)
      ensures Valid()
    {
    }

    /** What the workers do to the records, the disk and the shards while the clients pause. */
    method Offload(newRecords: seq<Record>, newDisk: Disk, newShards: seq<seq<Entry>>)
      requires Valid() && persistency && |newShards| == |shards| && Indexes(newDisk, newRecords, hashTable, model)
      modifies this`records, this`disk, this`shards
      ensures Valid() && records == newRecords && disk == newDisk && shards == newShards
    {
      records, disk, shards := newRecords, newDisk, newShards;
    }
  }
}
