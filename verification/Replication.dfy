/** Stores that receive the same writes in different orders. */
module Replication {
  import opened Base
  import opened Versions
  import opened Store

  /** A write with an explicit timestamp and without a time to live. */
  ghost predicate Plain(w: Write) {
    ValidKey(w.key) && ValidValue(w.version.value) && w.version.timestamp > 0 && w.version.expiry == 0
  }

  lemma ApplyNext(m: Model, ws: seq<Write>, i: nat)
    requires i < |ws|
    ensures ApplyAll(m, ws[..i + 1]) == Apply(ApplyAll(m, ws[..i]), ws[i])
  {
    assert ws[..i + 1][..i] == ws[..i];
  }

  /** Without a memory limit, a put follows the timestamp rule. */
  lemma PutApplies(m: Model, w: Write)
    requires Plain(w)
    ensures var r := PutResult(m, w.key, w.version.value, w.version.timestamp, true);
      Apply(m, w) == if r.Ok? then m[w.key := w.version] else m
  {
  }

  /** Hands the writes to a store one by one; those with an older timestamp are rejected. */
  method Replay(kv: FunKV, ws: seq<Write>, now: nat, shard: nat)
    requires kv.Valid() && shard < |kv.shards| && kv.maxMemory.None? && forall w | w in ws :: Plain(w)
    modifies kv, kv.cache
    ensures kv.Valid() && kv.model == ApplyAll(old(kv.model), ws)
  {
    ghost var start := kv.model;
    var i := 0;
    while i < |ws|
      invariant i <= |ws| && kv.Valid() && shard < |kv.shards|
      invariant kv.model == ApplyAll(start, ws[..i])
    {
      ApplyNext(start, ws, i);
      ReplayOne(kv, ws[i], now, shard);
      i := i + 1;
    }
    assert ws[..i] == ws;
  }

  method ReplayOne(kv: FunKV, w: Write, now: nat, shard: nat)
    requires kv.Valid() && shard < |kv.shards| && kv.maxMemory.None? && Plain(w)
    modifies kv, kv.cache
    ensures kv.Valid() && |kv.shards| == |old(kv.shards)| && kv.model == Apply(old(kv.model), w)
  {
    PutApplies(kv.model, w);
    var r := kv.Put(w.key, w.version.value, Some(w.version.timestamp), 0, now, shard);
  }

  /** Two fresh stores, however they are set up, that receive the same writes in any two orders agree in the end, if no
      two writes for one key have the same timestamp. */
  method Converge(us: seq<Write>, ws: seq<Write>, persistency: bool, enableCaching: bool, enableTtl: bool, disk: Disk,
                  numShards: nat)
    returns (a: FunKV, b: FunKV)
    requires multiset(us) == multiset(ws) && numShards > 0 && forall w | w in ws :: Plain(w)
    requires forall i, j | 0 <= i < j < |ws| && ws[i].key == ws[j].key ::
               ws[i].version.timestamp != ws[j].version.timestamp
    ensures a.Valid() && b.Valid() && a.model == b.model
    ensures forall w | w in ws :: w.key in a.model && a.model[w.key].timestamp >= w.version.timestamp
  {
    SameMembers(us, ws);
    DistinctTimestampsConverge(us, ws);
    a := new FunKV(persistency, enableCaching, enableTtl, None, disk, numShards);
    Replay(a, us, 0, 0);
    b := new FunKV(persistency, enableCaching, enableTtl, None, disk, numShards);
    Replay(b, ws, 0, 0);
  }
}
