/** What several operations on one store do together, said in bytes, nanoseconds and numbers. */
module Lifetimes {
  import opened Base
  import opened Format
  import opened Versions
  import opened Store

  // ----- writing and reading

  /** When a put is accepted, and why it is not: for its sizes, for its timestamp, or for lack of room. */
  ghost predicate PutOutcome(stored: Result<bool>, m: Model, key: Bytes, value: Bytes, ts: nat, room: bool) {
    && (stored == Err(InvalidKeySize) <==> !(1 <= |key| <= 102400))
    && (stored == Err(InvalidValueSize) <==> 1 <= |key| <= 102400 && !(1 <= |value| <= 4194304))
    && (stored == Err(OlderTimestamp) <==>
        1 <= |key| <= 102400 && 1 <= |value| <= 4194304 && key in m && ts < m[key].timestamp)
    && (stored.Ok? ==> stored.value == (key !in m))
    && (stored.Err? ==> stored.error in {InvalidKeySize, InvalidValueSize, OlderTimestamp, OutOfMemory})
    && (stored == Err(OutOfMemory) <==>
        1 <= |key| <= 102400 && 1 <= |value| <= 4194304 && key !in m && !room)
  }

  lemma PutResultIs(m: Model, key: Bytes, value: Bytes, timestamp: Option<nat>, now: nat, room: bool)
    ensures var ts := if timestamp == None || timestamp == Some(0) then now else timestamp.value;
      PutOutcome(PutResult(m, key, value, Settle(timestamp, now), room), m, key, value, ts, room)
  {
  }

  /** When an increment is accepted, and why it is not. */
  lemma IncrementResultIs(m: Model, key: Bytes, delta: int, timestamp: Option<nat>, now: nat)
    ensures var ts := if timestamp == None || timestamp == Some(0) then now else timestamp.value;
      var r := IncrementResult(m, key, delta, Settle(timestamp, now));
      && (r == Err(InvalidKeySize) <==> !(1 <= |key| <= 102400))
      && (r == Err(OlderTimestamp) <==> 1 <= |key| <= 102400 && key in m && ts < m[key].timestamp)
      && (r == Err(InvalidOperation) <==>
          1 <= |key| <= 102400 && key in m && ts >= m[key].timestamp && |m[key].value| != 8)
      && (r.Err? ==> r.error in {InvalidKeySize, OlderTimestamp, InvalidOperation})
  {
  }

  /** When a delete is accepted, and why it is not. */
  lemma DeleteResultIs(m: Model, key: Bytes, timestamp: Option<nat>, now: nat)
    ensures var ts := if timestamp == None || timestamp == Some(0) then now else timestamp.value;
      var r := DeleteResult(m, key, Settle(timestamp, now));
      && (r == Err(InvalidKeySize) <==> !(1 <= |key| <= 102400))
      && (r == Err(KeyNotFound) <==> 1 <= |key| <= 102400 && key !in m)
      && (r == Err(OlderTimestamp) <==> 1 <= |key| <= 102400 && key in m && ts < m[key].timestamp)
      && (r.Err? ==> r.error in {InvalidKeySize, KeyNotFound, OlderTimestamp})
  {
  }

  /** The time to live has passed: nanoseconds in 64 bits, of which zero means for ever. */
  ghost predicate Passed(enableTtl: bool, ts: nat, ttlSeconds: nat, later: nat) {
    var expiry := (ts + ttlSeconds * 1_000_000_000) % 0x1_0000_0000_0000_0000;
    enableTtl && ttlSeconds > 0 && expiry > 0 && later > expiry
  }

  /** A value with a time to live is there until that has passed, and not after that. */
  lemma LookupIs(m: Model, key: Bytes, value: Bytes, ts: nat, ttlSeconds: nat, enableTtl: bool, later: nat)
    requires 1 <= |key| <= 102400
    ensures Lookup(m[key := Version(value, ts, ExpiryOf(ts, ttlSeconds, enableTtl))], key, enableTtl, later) ==
            if Passed(enableTtl, ts, ttlSeconds, later) then Err(KeyNotFound) else Ok(value)
  {
  }

  /** A read of a key that is too long, empty or not stored. */
  lemma LookupFails(m: Model, key: Bytes, enableTtl: bool, later: nat)
    ensures !(1 <= |key| <= 102400) ==> Lookup(m, key, enableTtl, later) == Err(InvalidKeySize)
    ensures 1 <= |key| <= 102400 && key !in m ==> Lookup(m, key, enableTtl, later) == Err(KeyNotFound)
  {
  }

  /** A value that was stored is read back until its time to live has passed, and not after that. */
  method PutAndRead(kv: FunKV, key: Bytes, value: Bytes, timestamp: Option<nat>, ttlSeconds: nat, now: nat, later: nat,
                    shard: nat)
    returns (stored: Result<bool>, read: Result<Bytes>)
    requires kv.Valid() && shard < |kv.shards| && (kv.persistency || !kv.enableCaching)
    modifies kv, kv.cache
    ensures kv.Valid()
    ensures var ts := if timestamp == None || timestamp == Some(0) then now else timestamp.value;
      && PutOutcome(stored, old(kv.model), key, value, ts, old(kv.HasRoom(RecordSize(|key|, |value|))))
      && (stored.Ok? ==>
          read == if Passed(kv.enableTtl, ts, ttlSeconds, later) then Err(KeyNotFound) else Ok(value))
  {
    ghost var m, ts := kv.model, Settle(timestamp, now);
    PutResultIs(m, key, value, timestamp, now, kv.HasRoom(RecordSize(|key|, |value|)));
    stored := PutUncached(kv, key, value, timestamp, ttlSeconds, now, shard);
    read := kv.Get(key, later);
    if stored.Ok? {
      LookupIs(m, key, value, ts, ttlSeconds, kv.enableTtl, later);
    }
  }

  /** After a put the key is not cached, so the next read finds what was stored. */
  method PutUncached(kv: FunKV, key: Bytes, value: Bytes, timestamp: Option<nat>, ttlSeconds: nat, now: nat, shard: nat)
    returns (stored: Result<bool>)
    requires kv.Valid() && shard < |kv.shards| && (kv.persistency || !kv.enableCaching)
    modifies kv, kv.cache
    ensures kv.Valid() && |kv.shards| == |old(kv.shards)|
    ensures stored ==
      PutResult(old(kv.model), key, value, Settle(timestamp, now), old(kv.HasRoom(RecordSize(|key|, |value|))))
    ensures stored.Ok? ==>
      var ts := Settle(timestamp, now);
      && kv.model == old(kv.model)[key := Version(value, ts, ExpiryOf(ts, ttlSeconds, kv.enableTtl))]
      && ValidKey(key) && !(kv.enableCaching && key in kv.cache.contents)
  {
    assert kv.enableCaching ==> kv.CacheAgrees();
    stored := kv.Put(key, value, timestamp, ttlSeconds, now, shard);
  }

  /** A deletion is accepted exactly if it is not older than what is stored; then the key is gone, and otherwise nothing
      has happened. */
  method PutAndDelete(kv: FunKV, key: Bytes, value: Bytes, written: nat, deleted: nat, shard: nat)
    returns (gone: Result<()>, read: Result<Bytes>)
    requires kv.Valid() && shard < |kv.shards| && kv.persistency && 0 < written && 0 < deleted
    requires 1 <= |key| <= 102400 && 1 <= |value| <= 4194304
    requires key in kv.model && kv.model[key].timestamp <= written
    modifies kv, kv.cache
    ensures kv.Valid()
    ensures gone == if deleted < written then Err(OlderTimestamp) else Ok(())
    ensures read == if deleted < written then Ok(value) else Err(KeyNotFound)
  {
    var stored := PutUncached(kv, key, value, Some(written), 0, 0, shard);
    gone, read := DeleteAndRead(kv, key, deleted, shard);
  }

  method DeleteAndRead(kv: FunKV, key: Bytes, deleted: nat, shard: nat) returns (gone: Result<()>, read: Result<Bytes>)
    requires kv.Valid() && shard < |kv.shards| && kv.persistency && 0 < deleted && 1 <= |key| <= 102400
    requires key in kv.model && kv.model[key].expiry == 0 && !(kv.enableCaching && key in kv.cache.contents)
    modifies kv, kv.cache
    ensures kv.Valid()
    ensures gone == if deleted < old(kv.model)[key].timestamp then Err(OlderTimestamp) else Ok(())
    ensures read == if deleted < old(kv.model)[key].timestamp then Ok(old(kv.model)[key].value) else Err(KeyNotFound)
  {
    gone := kv.Delete(key, Some(deleted), 0, shard);
    read := kv.Get(key, 0);
  }

  // ----- room

  lemma RoomIs(kv: FunKV, keyLen: nat, valueLen: nat, limit: nat)
    requires kv.Valid() && kv.drift == 0 && kv.maxMemory == Some(limit)
    requires Payload(Values(kv.model)) + keyLen + valueLen + 120 * (|kv.model.Keys| + 1) < 0x1_0000_0000_0000_0000
    ensures kv.HasRoom(RecordSize(keyLen, valueLen)) <==>
            Payload(Values(kv.model)) + keyLen + valueLen + 120 * (|kv.model.Keys| + 1) <= limit
  {
    kv.CountsBytes();
    assert kv.memoryUsage + RecordSize(keyLen, valueLen)
        == Payload(Values(kv.model)) + keyLen + valueLen + 120 * (|kv.model.Keys| + 1);
    Unwrapped(kv.memoryUsage + RecordSize(keyLen, valueLen));
  }

  /** A usage that has dropped below zero leaves no room for a record smaller than what is missing. */
  lemma NoRoomBelowZero(kv: FunKV, size: nat, limit: nat)
    requires kv.maxMemory == Some(limit) && kv.memoryUsage + size < 0
    requires limit < 0x1_0000_0000_0000_0000 + kv.memoryUsage + size
    ensures !kv.HasRoom(size)
  {
    Wrapped(kv.memoryUsage + size);
  }

  lemma Wrapped(n: int)
    requires -0x1_0000_0000_0000_0000 < n < 0
    ensures n % TWO_TO_THE_64 == n + TWO_TO_THE_64
  {
  }

  lemma Unwrapped(n: nat)
    requires n < TWO_TO_THE_64
    ensures n % TWO_TO_THE_64 == n
  {
  }

  /** A new key is accepted exactly if all keys and values, and 120 bytes for each record, stay within the limit. */
  method PutIfRoom(kv: FunKV, key: Bytes, value: Bytes, timestamp: nat, shard: nat, limit: nat)
    returns (stored: Result<bool>)
    requires kv.Valid() && shard < |kv.shards| && kv.drift == 0 && kv.maxMemory == Some(limit) && 0 < timestamp
    requires 1 <= |key| <= 102400 && 1 <= |value| <= 4194304 && key !in kv.model
    requires Payload(Values(kv.model)) + |key| + |value| + 120 * (|kv.model.Keys| + 1) < 0x1_0000_0000_0000_0000
    modifies kv, kv.cache
    ensures kv.Valid()
    ensures stored ==
      if old(Payload(Values(kv.model))) + |key| + |value| + 120 * (|old(kv.model).Keys| + 1) <= limit then Ok(true)
      else Err(OutOfMemory)
  {
    RoomIs(kv, |key|, |value|, limit);
    stored := kv.Put(key, value, Some(timestamp), 0, 0, shard);
  }

  // ----- counting

  /** The sum of the increments that were accepted. */
  ghost function Accepted(deltas: seq<int>, results: seq<Result<int>>): int
    requires |results| == |deltas|
  {
    if deltas == [] then 0
    else
      var n := |deltas| - 1;
      Accepted(deltas[..n], results[..n]) + if results[n].Ok? then deltas[n] else 0
  }

  lemma {:induction false} AcceptedMore(deltas: seq<int>, results: seq<Result<int>>, i: nat)
    requires i < |deltas| == |results|
    ensures Accepted(deltas[..i + 1], results[..i + 1]) ==
            Accepted(deltas[..i], results[..i]) + if results[i].Ok? then deltas[i] else 0
  {
    assert deltas[..i + 1][..i] == deltas[..i] && results[..i + 1][..i] == results[..i];
  }

  /** The key holds this number. */
  ghost predicate Counts(m: Model, key: Bytes, n: int) {
    key in m && |m[key].value| == 8 && Signed(m[key].value) == n
  }

  /** No sum on the way leaves the 64-bit range. */
  ghost predicate InRangeThroughout(start: int, deltas: seq<int>, results: seq<Result<int>>)
    requires |results| == |deltas|
  {
    forall i | 0 <= i <= |deltas| ::
      -0x8000_0000_0000_0000 <= start + Accepted(deltas[..i], results[..i]) <= 0x7FFF_FFFF_FFFF_FFFF
  }

  lemma {:induction false} InRangeFront(start: int, deltas: seq<int>, results: seq<Result<int>>, i: nat)
    requires i <= |deltas| == |results| && InRangeThroughout(start, deltas, results)
    ensures InRangeThroughout(start, deltas[..i], results[..i])
  {
    forall j | 0 <= j <= i
      ensures -0x8000_0000_0000_0000 <= start + Accepted(deltas[..i][..j], results[..i][..j]) <= 0x7FFF_FFFF_FFFF_FFFF
    {
      assert deltas[..i][..j] == deltas[..j] && results[..i][..j] == results[..j];
    }
  }

  /** Unless a bound was met on the way, the counter has grown by the increments that were accepted. */
  ghost predicate Counted(m: Model, key: Bytes, start: int, deltas: seq<int>, results: seq<Result<int>>) {
    && |results| == |deltas|
    && (InRangeThroughout(start, deltas, results) ==> Counts(m, key, start + Accepted(deltas, results)))
  }

  lemma OthersStay(m: Model, key: Bytes, v: Version)
    ensures m[key := v] - {key} == m - {key}
  {
  }

  method Bump(kv: FunKV, key: Bytes, delta: int, time: nat, shard: nat) returns (r: Result<int>)
    requires kv.Valid() && shard < |kv.shards| && IsI64(delta) && key in kv.model && |kv.model[key].value| == 8
    modifies kv, kv.cache
    ensures kv.Valid() && |kv.shards| == |old(kv.shards)|
    ensures r.Err? ==> kv.model == old(kv.model) && r.error in {OlderTimestamp, InvalidKeySize}
    ensures key in kv.model && |kv.model[key].value| == 8 && kv.model - {key} == old(kv.model) - {key}
    ensures r.Ok? ==> Counts(kv.model, key, Clamped(Signed(old(kv.model)[key].value) + delta))
  {
    r := kv.Increment(key, delta, Some(time), 0, 0, shard);
    if r.Ok? {
      OthersStay(old(kv.model), key, kv.model[key]);
    }
  }

  lemma CountedNone(m: Model, key: Bytes, start: int, deltas: seq<int>)
    requires Counts(m, key, start)
    ensures Counted(m, key, start, deltas[..0], [])
  {
  }

  /** One increment further. */
  lemma {:induction false} CountedMore(before: Model, after: Model, key: Bytes, start: int, deltas: seq<int>, i: nat,
                                       results: seq<Result<int>>, r: Result<int>)
    requires i < |deltas| && Counted(before, key, start, deltas[..i], results)
    requires key in before && |before[key].value| == 8
    requires r.Err? ==> after == before
    requires r.Ok? ==> Counts(after, key, Clamped(Signed(before[key].value) + deltas[i]))
    ensures Counted(after, key, start, deltas[..i + 1], results + [r])
  {
    var more, all := deltas[..i + 1], results + [r];
    if InRangeThroughout(start, more, all) {
      InRangeFront(start, more, all, i);
      assert more[..i] == deltas[..i] && all[..i] == results && all[i] == r;
      AcceptedMore(more, all, i);
      assert more[..i + 1] == more && all[..i + 1] == all;
      assert -0x8000_0000_0000_0000 <= start + Accepted(more[..i + 1], all[..i + 1]) <= 0x7FFF_FFFF_FFFF_FFFF;
    }
  }

  /** The counter and the increments so far; the other keys are as they were. */
  ghost predicate Progress(m: Model, others: Model, key: Bytes, start: int, deltas: seq<int>,
                           results: seq<Result<int>>)
  {
    key in m && |m[key].value| == 8 && m - {key} == others && Counted(m, key, start, deltas, results)
  }

  method CountOne(kv: FunKV, key: Bytes, deltas: seq<int>, i: nat, time: nat, shard: nat, results: seq<Result<int>>,
                  ghost others: Model, ghost start: int)
    returns (more: seq<Result<int>>)
    requires kv.Valid() && shard < |kv.shards| && i < |deltas| && IsI64(deltas[i])
    requires Progress(kv.model, others, key, start, deltas[..i], results)
    modifies kv, kv.cache
    ensures kv.Valid() && |kv.shards| == |old(kv.shards)|
    ensures Progress(kv.model, others, key, start, deltas[..i + 1], more)
  {
    ghost var before := kv.model;
    var r := Bump(kv, key, deltas[i], time, shard);
    CountedMore(before, kv.model, key, start, deltas, i, results, r);
    more := results + [r];
  }

  /** Increments of one key at these times: whichever are accepted, the counter has grown by their sum, unless it met a
      bound on the way; nothing else has changed. */
  method CountUp(kv: FunKV, key: Bytes, deltas: seq<int>, times: seq<nat>, shard: nat, ghost start: int)
    returns (results: seq<Result<int>>)
    requires kv.Valid() && shard < |kv.shards| && |times| == |deltas| && Counts(kv.model, key, start)
    requires forall i | 0 <= i < |deltas| :: IsI64(deltas[i])
    modifies kv, kv.cache
    ensures kv.Valid() && kv.model - {key} == old(kv.model) - {key}
    ensures Counted(kv.model, key, start, deltas, results)
  {
    results := [];
    ghost var others := kv.model - {key};
    CountedNone(kv.model, key, start, deltas);
    for i := 0 to |deltas|
      invariant kv.Valid() && shard < |kv.shards|
      invariant Progress(kv.model, others, key, start, deltas[..i], results)
    {
      results := CountOne(kv, key, deltas, i, times[i], shard, results, others, start);
    }
    CountedAll(kv.model, key, start, deltas, results);
  }

  lemma CountedAll(m: Model, key: Bytes, start: int, deltas: seq<int>, results: seq<Result<int>>)
    requires Counted(m, key, start, deltas[..|deltas|], results)
    ensures Counted(m, key, start, deltas, results)
  {
    assert deltas[..|deltas|] == deltas;
  }
}
