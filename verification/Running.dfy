/** The store at work: clients and workers share its records, every operation of a client is a step of the write-behind
    protocol, and a flush is a run of a worker's steps. */
module Running {
  import opened Base
  import opened Format
  import opened FreeSpace
  import opened WriteBehind
  import opened Safety
  import opened Versions
  import opened Tables
  import opened Store
  import opened Batch

  /** A successful put stores a valid version that is not older than the one before. */
  lemma PutIsValid(m: Model, key: Bytes, value: Bytes, timestamp: nat, room: bool)
    requires PutResult(m, key, value, timestamp, room).Ok?
    ensures ValidKey(key) && ValidValue(value) && (key in m ==> m[key].timestamp <= timestamp)
  {
  }

  /** A successful increment stores a valid version that is not older than the one before. */
  lemma IncrementIsPut(m: Model, key: Bytes, delta: int, timestamp: nat)
    requires IsI64(delta) && IncrementResult(m, key, delta, timestamp).Ok?
    ensures var n := IncrementResult(m, key, delta, timestamp).value;
      && IsI64(n) && ValidKey(key) && ValidValue(EncodeI64(n))
      && (key in m ==> m[key].timestamp <= timestamp)
  {
  }

  /** The protocol state of a store on a device that holds nothing yet. */
  ghost function StartOn(disk: Disk, shards: nat): State
    requires |disk| >= 16
  {
    State([], map[], seq(shards, (_: nat) => Lane([], 0, Idle, [], [])), Range(16, |disk| - 16), disk)
  }

  lemma StartIsSafe(disk: Disk, numShards: nat, shards: seq<seq<Entry>>)
    requires |disk| >= 16 && |shards| == numShards && forall w | 0 <= w < numShards :: shards[w] == []
    ensures var s := StartOn(disk, numShards); Init(s) && Inv(s) && Shows(s, disk, [], map[], shards)
  {
    InitIsSafe(StartOn(disk, numShards));
  }

  class System {
    const kv: FunKV
    const buffer: WriteBuffer

    ghost predicate Valid()
      reads this, kv, kv.cache, buffer, buffer.freeSpace
    {
      && kv.Valid() && kv.persistency && buffer.kv == kv
      && buffer.At(kv.disk, kv.records, kv.hashTable, kv.shards) && buffer.Manages(|kv.disk|)
    }

    /** A persistent store on a device that holds nothing yet. */
    constructor (enableCaching: bool, enableTtl: bool, maxMemory: Option<nat>, disk: Disk, numShards: nat,
                 freeSpace: FreeSpaceManager)
      requires |disk| >= 16 && numShards > 0
      requires freeSpace.Valid() && freeSpace.persistenceSize > 0
      requires DeviceSectors(freeSpace.persistenceSize) == |disk| && freeSpace.Free() == Range(16, |disk| - 16)
      ensures Valid() && fresh(kv) && fresh(kv.cache) && fresh(buffer) && buffer.freeSpace == freeSpace
      ensures kv.model == map[] && kv.disk == disk && Init(buffer.origin) && buffer.trace == []
    {
      var store := new FunKV(true, enableCaching, enableTtl, maxMemory, disk, numShards);
      kv := store;
      StartIsSafe(disk, numShards, store.shards);
      buffer := new WriteBuffer(store, freeSpace, StartOn(disk, numShards));
    }

    /** A store that takes over what recovery has rebuilt; `start` is the protocol state that goes with it. */
    constructor Reopened(enableCaching: bool, enableTtl: bool, maxMemory: Option<nat>, disk: Disk, numShards: nat,
                         records: seq<Record>, hashTable: map<Bytes, nat>, tree: map<Bytes, nat>, recordCount: nat,
                         memoryUsage: nat, freeSpace: FreeSpaceManager, ghost m: Model, ghost start: State)
      requires numShards > 0 && Agree(disk, records, hashTable, tree, recordCount, memoryUsage, 0, m)
      requires Inv(start) && Shows(start, disk, records, hashTable, seq(numShards, (_: nat) => []))
      requires freeSpace.Valid() && freeSpace.Free() == start.free
      requires freeSpace.persistenceSize > 0 && DeviceSectors(freeSpace.persistenceSize) == |disk|
      ensures Valid() && fresh(kv) && fresh(kv.cache) && fresh(buffer) && buffer.freeSpace == freeSpace
      ensures kv.model == m && kv.drift == 0 && kv.disk == disk
      ensures buffer.state == buffer.origin == start && buffer.trace == []
    {
      var store := new FunKV.Recovered(enableCaching, enableTtl, maxMemory, disk, numShards, records, hashTable, tree,
                                       recordCount, memoryUsage, m);
      kv := store;
      assert store.shards == seq(numShards, (_: nat) => []);
      buffer := new WriteBuffer(store, freeSpace, start);
    }

    /** The step that goes with a put. */
    ghost method AdvancePut(key: Bytes, v: Version, shard: nat)
      requires Valid() && shard < |kv.shards| && ValidKey(key) && ValidValue(v.value)
      requires v.timestamp < TWO_TO_THE_64 && v.expiry < TWO_TO_THE_64
      requires key in kv.model ==> kv.model[key].timestamp <= v.timestamp
      modifies buffer`state, buffer`history, buffer`trace
      ensures buffer.At(kv.disk, kv.records + [NewRecord(key, v.value, v.timestamp, v.expiry)],
                        kv.hashTable[key := |kv.records|],
                        Push(kv.shards, shard, QueuedBy(kv.hashTable, kv.model, key, |kv.records|)))
      ensures buffer.Manages(|kv.disk|) && buffer.trace == old(buffer.trace) + [PutStep(key, v, shard)]
    {
      buffer.TakePut(kv.disk, kv.records, kv.hashTable, kv.shards, kv.model, key, v, shard);
    }

    /** The step that goes with a delete. */
    ghost method AdvanceDelete(key: Bytes, timestamp: nat, shard: nat)
      requires Valid() && shard < |kv.shards| && key in kv.model && kv.model[key].timestamp <= timestamp
      modifies buffer`state, buffer`history, buffer`trace
      ensures key in kv.hashTable && kv.hashTable[key] < |kv.records|
      ensures buffer.At(kv.disk, kv.records[kv.hashTable[key] := kv.records[kv.hashTable[key]].(refcount := 0)],
                        kv.hashTable - {key},
                        Push(kv.shards, shard, [Entry(Kind.Delete, kv.hashTable[key], |kv.model[key].value|)]))
      ensures buffer.Manages(|kv.disk|) && buffer.trace == old(buffer.trace) + [ClientDelete(key, timestamp, shard)]
    {
      buffer.TakeDelete(kv.disk, kv.records, kv.hashTable, kv.shards, kv.model, key, timestamp, shard);
    }

    method Put(key: Bytes, value: Bytes, timestamp: Option<nat>, ttlSeconds: nat, now: nat, shard: nat)
      returns (r: Result<bool>)
      requires Valid() && shard < |kv.shards|
      requires Settle(timestamp, now) < TWO_TO_THE_64
      modifies buffer`state, buffer`history, buffer`trace, kv, kv.cache
      ensures Valid()
      ensures r == PutResult(old(kv.model), key, value, Settle(timestamp, now),
                             old(kv.HasRoom(RecordSize(|key|, |value|))))
      ensures r.Err? ==> buffer.trace == old(buffer.trace) && kv.model == old(kv.model)
      ensures r.Ok? ==>
                var ts := Settle(timestamp, now);
                var v := Version(value, ts, ExpiryOf(ts, ttlSeconds, kv.enableTtl));
                kv.model == old(kv.model)[key := v] && buffer.trace == old(buffer.trace) + [PutStep(key, v, shard)]
    {
      ghost var ts := Settle(timestamp, now);
      ghost var room := kv.HasRoom(RecordSize(|key|, |value|));
      ForeseePut(key, Version(value, ts, ExpiryOf(ts, ttlSeconds, kv.enableTtl)), room, shard);
      r := kv.Put(key, value, timestamp, ttlSeconds, now, shard);
    }

    /** The step of a put that will succeed; nothing if it will not. */
    ghost method ForeseePut(key: Bytes, v: Version, room: bool, shard: nat)
      requires Valid() && shard < |kv.shards| && v.timestamp < TWO_TO_THE_64 && v.expiry < TWO_TO_THE_64
      modifies buffer`state, buffer`history, buffer`trace
      ensures buffer.Manages(|kv.disk|)
      ensures PutResult(kv.model, key, v.value, v.timestamp, room).Ok? ==>
                && buffer.At(kv.disk, kv.records + [NewRecord(key, v.value, v.timestamp, v.expiry)],
                             kv.hashTable[key := |kv.records|],
                             Push(kv.shards, shard, QueuedBy(kv.hashTable, kv.model, key, |kv.records|)))
                && buffer.trace == old(buffer.trace) + [PutStep(key, v, shard)]
      ensures PutResult(kv.model, key, v.value, v.timestamp, room).Err? ==>
                buffer.At(kv.disk, kv.records, kv.hashTable, kv.shards) && buffer.trace == old(buffer.trace)
    {
      if PutResult(kv.model, key, v.value, v.timestamp, room).Ok? {
        PutIsValid(kv.model, key, v.value, v.timestamp, room);
        AdvancePut(key, v, shard);
      }
    }

    /** A worker drains its shard and processes the batch: the clients see nothing of it. */
    method Flush(device: Device, shard: nat) returns (r: Result<()>)
      requires Valid() && shard < |kv.shards| && buffer.state.lanes[shard].phase.Idle?
      modifies buffer`state, buffer`history, buffer`trace, kv`disk, kv`records, kv`shards, buffer.freeSpace
      ensures Valid() && kv.model == old(kv.model)
      ensures Extends(old(buffer.trace), buffer.trace, shard,
                      r.Ok? && AllMarked(device, Doomed(old(kv.records), old(kv.shards[shard]))))
      ensures shard < |buffer.state.lanes| && buffer.state.lanes[shard].phase.Idle?
      ensures kv.shards == old(kv.shards)[shard := []]
      ensures r.Ok? ==> Flushed(old(kv.records), kv.records, Wanted(old(kv.records), old(kv.shards[shard])), kv.disk)
      ensures r.Err? ==> kv.records == old(kv.records)
    {
      r := buffer.FlushShard(device, shard, kv.model);
      kv.StillValid();
    }

    method Delete(key: Bytes, timestamp: Option<nat>, now: nat, shard: nat) returns (r: Result<()>)
      requires Valid() && shard < |kv.shards|
      modifies buffer`state, buffer`history, buffer`trace, kv, kv.cache
      ensures Valid()
      ensures r == DeleteResult(old(kv.model), key, Settle(timestamp, now))
      ensures r.Err? ==> buffer.trace == old(buffer.trace) && kv.model == old(kv.model)
      ensures r.Ok? ==>
                && kv.model == old(kv.model) - {key}
                && buffer.trace == old(buffer.trace) + [ClientDelete(key, Settle(timestamp, now), shard)]
    {
      ForeseeDelete(key, Settle(timestamp, now), shard);
      r := kv.Delete(key, timestamp, now, shard);
    }

    /** The step of a delete that will succeed; nothing if it will not. */
    ghost method ForeseeDelete(key: Bytes, timestamp: nat, shard: nat)
      requires Valid() && shard < |kv.shards|
      modifies buffer`state, buffer`history, buffer`trace
      ensures buffer.Manages(|kv.disk|)
      ensures DeleteResult(kv.model, key, timestamp).Ok? ==>
                && key in kv.model && key in kv.hashTable && kv.hashTable[key] < |kv.records|
                && buffer.At(kv.disk, kv.records[kv.hashTable[key] := kv.records[kv.hashTable[key]].(refcount := 0)],
                             kv.hashTable - {key},
                             Push(kv.shards, shard, [Entry(Kind.Delete, kv.hashTable[key], |kv.model[key].value|)]))
                && buffer.trace == old(buffer.trace) + [ClientDelete(key, timestamp, shard)]
      ensures DeleteResult(kv.model, key, timestamp).Err? ==>
                buffer.At(kv.disk, kv.records, kv.hashTable, kv.shards) && buffer.trace == old(buffer.trace)
    {
      if DeleteResult(kv.model, key, timestamp).Ok? {
        AdvanceDelete(key, timestamp, shard);
      }
    }

    method Increment(key: Bytes, delta: int, timestamp: Option<nat>, ttlSeconds: nat, now: nat, shard: nat)
      returns (r: Result<int>)
      requires Valid() && shard < |kv.shards| && IsI64(delta)
      requires Settle(timestamp, now) < TWO_TO_THE_64
      modifies buffer`state, buffer`history, buffer`trace, kv, kv.cache
      ensures Valid()
      ensures r == IncrementResult(old(kv.model), key, delta, Settle(timestamp, now))
      ensures r.Err? ==> buffer.trace == old(buffer.trace) && kv.model == old(kv.model)
      ensures r.Ok? ==>
                IsI64(r.value) &&
                var ts := Settle(timestamp, now);
                var v := Version(EncodeI64(r.value), ts, ExpiryOf(ts, ttlSeconds, true));
                kv.model == old(kv.model)[key := v] && buffer.trace == old(buffer.trace) + [PutStep(key, v, shard)]
      ensures r.Ok? ==> key in kv.model && |kv.model[key].value| == 8 && Signed(kv.model[key].value) == r.value
      ensures r.Ok? && key !in old(kv.model) ==> r.value == delta
      ensures r.Ok? && key in old(kv.model) ==>
                |old(kv.model)[key].value| == 8 && r.value == Clamped(Signed(old(kv.model)[key].value) + delta)
    {
      ghost var ts := Settle(timestamp, now);
      ghost var expected := IncrementResult(kv.model, key, delta, ts);
      if expected.Ok? {
        IncrementIsPut(kv.model, key, delta, ts);
        AdvancePut(key, Version(EncodeI64(expected.value), ts, ExpiryOf(ts, ttlSeconds, true)), shard);
      }
      r := kv.Increment(key, delta, timestamp, ttlSeconds, now, shard);
    }

    method Get(key: Bytes, now: nat) returns (r: Result<Bytes>)
      requires Valid()
      modifies kv.cache
      ensures Valid()
      ensures !kv.enableTtl ==> r == Lookup(kv.model, key, false, now)
    {
      r := kv.Get(key, now);
    }

    /** Any worker takes any step of its own, which leaves these records, this disk, these shards and this manager: the
        clients see nothing of it. */
    method Work(newRecords: seq<Record>, newDisk: Disk, newShards: seq<seq<Entry>>, newFreeSpace: FreeSpaceManager,
                ghost step: Step)
      requires Valid() && Inv(buffer.state) && Enabled(buffer.state, step) && WorkerStep(step)
      requires Shows(Next(buffer.state, step), newDisk, newRecords, kv.hashTable, newShards)
      requires newFreeSpace.Valid() && newFreeSpace.Free() == Next(buffer.state, step).free
      requires newFreeSpace.persistenceSize > 0 && DeviceSectors(newFreeSpace.persistenceSize) == |newDisk|
      modifies buffer, kv`records, kv`disk, kv`shards
      ensures Valid() && buffer.trace == old(buffer.trace) + [step] && kv.model == old(kv.model)
    {
      StepKeepsIndexes(buffer.state, step, kv.disk, kv.records, kv.hashTable, kv.shards, newDisk, newRecords,
                       newShards, kv.model);
      buffer.Adopt(newDisk, newRecords, kv.hashTable, newShards, newFreeSpace, step);
      kv.Offload(newRecords, newDisk, newShards);
    }
  }
}
