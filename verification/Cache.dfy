/** The clock cache (src/core/cache.rs): what a bucket and a scan are. */
module Clock {
  import opened Base

  datatype Entity = Entity(key: Bytes, value: Bytes, referenced: bool, size: nat, accesses: nat)

  type Bucket = seq<Entity>

  /** What a scan makes of a bucket: a referenced entry gets a second chance, any other is evicted. */
  function SecondChance(b: Bucket): Bucket {
    if b == [] then []
    else
      var last := b[|b| - 1];
      SecondChance(b[..|b| - 1]) + if last.referenced then [last.(referenced := false)] else []
  }

  /** A bucket whose first `k` entries have been scanned. */
  function Swept(b: Bucket, k: nat): Bucket
    requires k <= |b|
  {
    SecondChance(b[..k]) + b[k..]
  }

  function BucketSize(b: Bucket): nat {
    if b == [] then 0 else BucketSize(b[..|b| - 1]) + b[|b| - 1].size
  }

  function Length(b: Bucket): nat {
    |b|
  }

  /** A measure added up over all buckets. */
  function Total(buckets: seq<Bucket>, measure: Bucket -> nat): nat {
    if buckets == [] then 0 else Total(buckets[..|buckets| - 1], measure) + measure(buckets[|buckets| - 1])
  }

  /** The memory that the entries of all buckets take. */
  function TotalSize(buckets: seq<Bucket>): nat {
    Total(buckets, BucketSize)
  }

  function EntryCount(buckets: seq<Bucket>): nat {
    Total(buckets, Length)
  }

  /** The bucket without its entry at `i`. */
  function Without(b: Bucket, i: nat): Bucket
    requires i < |b|
  {
    b[..i] + b[i + 1..]
  }

  lemma BucketSizePush(b: Bucket, e: Entity)
    ensures BucketSize(b + [e]) == BucketSize(b) + e.size
  {
    assert (b + [e])[..|b|] == b;
  }

  lemma {:induction false} BucketSizeInsert(a: Bucket, e: Entity, c: Bucket)
    ensures BucketSize(a + [e] + c) == BucketSize(a + c) + e.size
  {
    if c == [] {
      assert a + [e] + c == a + [e] && a + c == a;
      BucketSizePush(a, e);
    } else {
      var d, last := c[..|c| - 1], c[|c| - 1];
      assert a + [e] + c == a + [e] + d + [last] && a + c == a + d + [last];
      BucketSizePush(a + [e] + d, last);
      BucketSizePush(a + d, last);
      BucketSizeInsert(a, e, d);
    }
  }

  lemma {:induction false} BucketSizeRemove(b: Bucket, i: nat)
    requires i < |b|
    ensures BucketSize(b) == BucketSize(Without(b, i)) + b[i].size
  {
    var front, rest := b[..i], b[i + 1..];
    assert b == front + [b[i]] + rest;
    BucketSizeInsert(front, b[i], rest);
  }

  lemma {:induction false} BucketSizeUpdate(b: Bucket, i: nat, e: Entity)
    requires i < |b|
    ensures BucketSize(b[i := e]) == BucketSize(b) - b[i].size + e.size
  {
    var n := |b| - 1;
    if i < n {
      assert b[i := e][..n] == b[..n][i := e];
      BucketSizeUpdate(b[..n], i, e);
    } else {
      assert b[i := e][..n] == b[..n];
    }
  }

  lemma {:induction false} TotalUpdate(buckets: seq<Bucket>, i: nat, b: Bucket, measure: Bucket -> nat)
    requires i < |buckets|
    ensures Total(buckets[i := b], measure) == Total(buckets, measure) - measure(buckets[i]) + measure(b)
    ensures measure(buckets[i]) <= Total(buckets, measure)
  {
    var n := |buckets| - 1;
    if i < n {
      assert buckets[i := b][..n] == buckets[..n][i := b];
      TotalUpdate(buckets[..n], i, b, measure);
    } else {
      assert buckets[i := b][..n] == buckets[..n];
    }
  }

  lemma {:induction false} EmptyBuckets(buckets: seq<Bucket>, measure: Bucket -> nat)
    requires measure([]) == 0 && forall i | 0 <= i < |buckets| :: buckets[i] == []
    ensures Total(buckets, measure) == 0
  {
    if buckets != [] {
      EmptyBuckets(buckets[..|buckets| - 1], measure);
    }
  }

  /** If some of the buckets hold as many entries as all of them do, the others are empty. */
  lemma {:induction false} PartHoldsAll(part: seq<Bucket>, whole: seq<Bucket>)
    requires |part| == |whole| && forall i | 0 <= i < |part| :: part[i] == whole[i] || part[i] == []
    ensures EntryCount(part) <= EntryCount(whole)
    ensures EntryCount(part) == EntryCount(whole) ==> part == whole
  {
    if part != [] {
      var n := |part| - 1;
      PartHoldsAll(part[..n], whole[..n]);
      assert part == part[..n] + [part[n]] && whole == whole[..n] + [whole[n]];
    }
  }

  ghost predicate NoneReferenced(b: Bucket) {
    forall e | e in b :: !e.referenced
  }

  /** Once a scan has been over a bucket, no entry in it is referenced. */
  lemma {:induction false} SecondChanceClearsBits(b: Bucket)
    ensures NoneReferenced(SecondChance(b))
  {
    if b != [] {
      SecondChanceClearsBits(b[..|b| - 1]);
    }
  }

  /** A scan evicts every entry that is not referenced. */
  lemma {:induction false} NoSecondChance(b: Bucket)
    requires NoneReferenced(b)
    ensures SecondChance(b) == []
  {
    if b != [] {
      assert b[|b| - 1] in b;
      NoSecondChance(b[..|b| - 1]);
    }
  }

  /** Scanning one more entry, which is where the scan has got to. */
  lemma SweptNext(b: Bucket, k: nat)
    requires k < |b|
    ensures var done := |SecondChance(b[..k])|;
      && done < |Swept(b, k)| && Swept(b, k)[done] == b[k]
      && if b[k].referenced then
           && Swept(b, k + 1) == Swept(b, k)[done := b[k].(referenced := false)]
           && |SecondChance(b[..k + 1])| == done + 1
         else Swept(b, k + 1) == Without(Swept(b, k), done) && |SecondChance(b[..k + 1])| == done
  {
    assert b[..k + 1][..k] == b[..k];
    assert b[k..] == [b[k]] + b[k + 1..];
  }

  /** The memory that it frees. */
  lemma SweptSize(b: Bucket, k: nat)
    requires k < |b|
    ensures BucketSize(Swept(b, k + 1)) == BucketSize(Swept(b, k)) - if b[k].referenced then 0 else b[k].size
  {
    SweptNext(b, k);
    var done := |SecondChance(b[..k])|;
    if b[k].referenced {
      BucketSizeUpdate(Swept(b, k), done, b[k].(referenced := false));
    } else {
      BucketSizeRemove(Swept(b, k), done);
    }
  }

  /** The entries of `b` that `c` keeps: same key, value and size, in the same order. */
  ghost predicate Keeps(b: Bucket, c: Bucket) {
    forall e | e in c :: exists d :: d in b && d.key == e.key && d.value == e.value && d.size == e.size
  }

  lemma {:induction false} SecondChanceKeeps(b: Bucket)
    ensures Keeps(b, SecondChance(b))
  {
    if b != [] {
      var n := |b| - 1;
      SecondChanceKeeps(b[..n]);
      forall e | e in SecondChance(b)
        ensures exists d :: d in b && d.key == e.key && d.value == e.value && d.size == e.size
      {
        if e in SecondChance(b[..n]) {
          var d :| d in b[..n] && d.key == e.key && d.value == e.value && d.size == e.size;
          assert d in b;
        } else {
          assert b[n] in b;
        }
      }
    }
  }

  /** Every entry of `b` that was referenced is still there, with its bit or without. */
  ghost predicate Spares(b: Bucket, c: Bucket) {
    forall e | e in b && e.referenced :: e in c || e.(referenced := false) in c
  }

  lemma {:induction false} SecondChanceSpares(b: Bucket)
    ensures forall e | e in b && e.referenced :: e.(referenced := false) in SecondChance(b)
  {
    if b != [] {
      var n := |b| - 1;
      SecondChanceSpares(b[..n]);
      assert b == b[..n] + [b[n]];
    }
  }

  lemma SweptSpares(b: Bucket, k: nat)
    requires k <= |b|
    ensures Spares(b, Swept(b, k))
  {
    SecondChanceSpares(b[..k]);
    assert b == b[..k] + b[k..];
  }

  ghost predicate UniqueKeys(b: Bucket) {
    forall i, j | 0 <= i < j < |b| :: b[i].key != b[j].key
  }

  lemma {:induction false} SecondChanceUnique(b: Bucket)
    requires UniqueKeys(b)
    ensures UniqueKeys(SecondChance(b))
  {
    if b != [] {
      var n := |b| - 1;
      SecondChanceUnique(b[..n]);
      SecondChanceKeeps(b[..n]);
      var c := SecondChance(b[..n]);
      forall i | 0 <= i < |c|
        ensures c[i].key != b[n].key
      {
        assert c[i] in c;
        var d :| d in b[..n] && d.key == c[i].key;
        var j :| 0 <= j < n && b[j] == d;
      }
    }
  }

  lemma SweptKeeps(b: Bucket, k: nat)
    requires k <= |b|
    ensures Keeps(b, Swept(b, k))
  {
    var c := SecondChance(b[..k]);
    SecondChanceKeeps(b[..k]);
    forall e | e in Swept(b, k)
      ensures exists d :: d in b && d.key == e.key && d.value == e.value && d.size == e.size
    {
      if e in c {
        var d :| d in b[..k] && d.key == e.key && d.value == e.value && d.size == e.size;
        assert d in b;
      } else {
        assert e in b;
      }
    }
  }

  lemma SweptUnique(b: Bucket, k: nat)
    requires k <= |b| && UniqueKeys(b)
    ensures UniqueKeys(Swept(b, k))
  {
    var c := SecondChance(b[..k]);
    SecondChanceKeeps(b[..k]);
    SecondChanceUnique(b[..k]);
    forall i, j | 0 <= i < |c| && k <= j < |b|
      ensures c[i].key != b[j].key
    {
      assert c[i] in c;
      var d :| d in b[..k] && d.key == c[i].key;
      var m :| 0 <= m < k && b[m] == d;
    }
  }
}

/** The cache itself, a sequential client at a time. */
module Cache {
  import opened Base
  import opened Clock
  import Hash

  const MAX_SCANS: nat := 3
  const CACHE_MAX_SIZE: nat := GB
  /** `size_of::<CacheEntity>()` on a 64-bit target. */
  const ENTITY_SIZE: nat := 72

  type BucketNumber = i: nat | i < 16384

  /** `get_bucket_idx` */
  function BucketIndex(key: Bytes): BucketNumber {
    Hash.Murmur3(seq(|key|, (j: nat) requires j < |key| => key[j] as bv8), 0) as nat % 16384
  }

  function EntrySize(key: Bytes, value: Bytes): nat {
    |key| + |value| + ENTITY_SIZE
  }

  /** The bucket that the clock hand, which only ever counts up, stands at: `hand % 16384`. */
  function Around(hand: nat): (b: nat)
    ensures b < 16384
  {
    if hand < 16384 then hand else Around(hand - 16384)
  }

  lemma {:induction false} AroundIsRemainder(hand: nat)
    ensures Around(hand) == hand % 16384
  {
    if hand >= 16384 {
      AroundIsRemainder(hand - 16384);
    }
  }

  /** The bucket `steps` further than `start`. */
  function Turn(start: nat, steps: nat): (b: nat)
    requires start < 16384 && steps <= 16384
    ensures b < 16384
  {
    if start + steps < 16384 then start + steps else start + steps - 16384
  }

  lemma Advance(hand: nat, start: nat, steps: nat)
    requires start < 16384 && steps < 16384 && Around(hand) == Turn(start, steps)
    ensures Around(hand + 1) == Turn(start, steps + 1)
  {
    AroundIsRemainder(hand);
    AroundIsRemainder(hand + 1);
  }

  /** How many steps the hand takes from `start` to bucket `b`. In a round it comes to every bucket once. */
  function StepsTo(start: nat, b: nat): (steps: nat)
    requires start < 16384 && b < 16384
    ensures steps < 16384 && Turn(start, steps) == b
    ensures forall n: nat | n < 16384 && Turn(start, n) == b :: n == steps
  {
    if start <= b then b - start else b + 16384 - start
  }

  /** `c` holds some of the entries of `b`. */
  ghost predicate Thinned(b: Bucket, c: Bucket) {
    Keeps(b, c) && (UniqueKeys(b) ==> UniqueKeys(c))
  }

  ghost predicate AllThinned(before: seq<Bucket>, after: seq<Bucket>) {
    |before| == |after| && forall i | 0 <= i < |after| :: Thinned(before[i], after[i])
  }

  /** The buckets that the hand has come to after `steps` steps from `start`, the others left empty. */
  ghost predicate Visited(before: seq<Bucket>, visited: seq<Bucket>, start: nat, steps: nat) {
    && |before| == |visited| == 16384 && start < 16384
    && forall i | 0 <= i < 16384 :: visited[i] == if StepsTo(start, i) < steps then before[i] else []
  }

  /** Each of those has been scanned, the others have not been touched. */
  ghost predicate Scanned(before: seq<Bucket>, after: seq<Bucket>, start: nat, steps: nat) {
    && |before| == |after| == 16384 && start < 16384
    && forall i | 0 <= i < 16384 ::
         after[i] == if StepsTo(start, i) < steps then SecondChance(before[i]) else before[i]
  }

  /** The next bucket has not been visited yet, so its entries are counted once. */
  lemma VisitNext(before: seq<Bucket>, visited: seq<Bucket>, start: nat, steps: nat)
    requires Visited(before, visited, start, steps) && steps < 16384
    ensures var h := Turn(start, steps);
      && Visited(before, visited[h := before[h]], start, steps + 1)
      && EntryCount(visited[h := before[h]]) == EntryCount(visited) + |before[h]|
  {
    var h := Turn(start, steps);
    TotalUpdate(visited, h, before[h], Length);
    forall i | 0 <= i < 16384
      ensures visited[h := before[h]][i] == if StepsTo(start, i) < steps + 1 then before[i] else []
    {
    }
  }

  lemma ScanNext(before: seq<Bucket>, after: seq<Bucket>, start: nat, steps: nat)
    requires Scanned(before, after, start, steps) && steps < 16384
    ensures var h := Turn(start, steps);
      after[h] == before[h] && Scanned(before, after[h := SecondChance(before[h])], start, steps + 1)
  {
    var h := Turn(start, steps);
    var next := after[h := SecondChance(before[h])];
    forall i | 0 <= i < 16384
      ensures next[i] == if StepsTo(start, i) < steps + 1 then SecondChance(before[i]) else before[i]
    {
    }
  }

  /** As long as entries are left to check, there are buckets left to visit. */
  lemma EntriesLeft(before: seq<Bucket>, visited: seq<Bucket>, start: nat, steps: nat)
    requires Visited(before, visited, start, steps) && EntryCount(visited) < EntryCount(before)
    ensures steps < 16384
  {
    if steps >= 16384 {
      PartHoldsAll(before, visited);
    }
  }

  /** A scan that has come `steps` buckets far. */
  ghost predicate MidScan(before: seq<Bucket>, visited: seq<Bucket>, after: seq<Bucket>, start: nat, steps: nat) {
    Visited(before, visited, start, steps) && Scanned(before, after, start, steps)
  }

  lemma ScanBegins(before: seq<Bucket>, visited: seq<Bucket>, start: nat)
    requires |before| == |visited| == 16384 && start < 16384 && forall i | 0 <= i < 16384 :: visited[i] == []
    ensures MidScan(before, visited, before, start, 0) && EntryCount(visited) == 0 && AllPartlySwept(before, before)
  {
    forall i | 0 <= i < 16384
      ensures PartlySwept(before[i], before[i])
    {
      SweptWhole(before[i]);
    }
    EmptyBuckets(visited, Length);
  }

  /** When all entries have been checked, the buckets that were not visited are empty. */
  lemma ScanComplete(before: seq<Bucket>, visited: seq<Bucket>, after: seq<Bucket>, start: nat, steps: nat)
    requires MidScan(before, visited, after, start, steps)
    requires EntryCount(visited) >= EntryCount(before)
    ensures forall i | 0 <= i < 16384 :: after[i] == SecondChance(before[i])
  {
    PartHoldsAll(visited, before);
    forall i | 0 <= i < 16384
      ensures after[i] == SecondChance(before[i])
    {
      assert visited[i] == before[i];
    }
  }

  lemma AllThinnedRefl(buckets: seq<Bucket>)
    ensures AllThinned(buckets, buckets)
  {
  }

  lemma AllThinnedTrans(a: seq<Bucket>, b: seq<Bucket>, c: seq<Bucket>)
    requires AllThinned(a, b) && AllThinned(b, c)
    ensures AllThinned(a, c)
  {
    forall i | 0 <= i < |c|
      ensures Thinned(a[i], c[i])
    {
      assert Thinned(b[i], c[i]) && Thinned(a[i], b[i]);
    }
  }

  lemma SweptThinned(b: Bucket, checked: nat)
    requires checked <= |b|
    ensures Thinned(b, Swept(b, checked))
  {
    SweptKeeps(b, checked);
    if UniqueKeys(b) {
      SweptUnique(b, checked);
    }
  }

  lemma SweptWhole(b: Bucket)
    ensures Swept(b, |b|) == SecondChance(b) && Swept(b, 0) == b
  {
    assert b[..|b|] == b;
  }

  /** The front of a bucket has been scanned. */
  ghost predicate PartlySwept(b: Bucket, c: Bucket) {
    exists k :: 0 <= k <= |b| && c == Swept(b, k)
  }

  ghost predicate AllPartlySwept(before: seq<Bucket>, after: seq<Bucket>) {
    |before| == |after| && forall i {:trigger PartlySwept(before[i], after[i])} | 0 <= i < |after| ::
      PartlySwept(before[i], after[i])
  }

  lemma PartlySweptIsThinned(before: seq<Bucket>, after: seq<Bucket>)
    requires AllPartlySwept(before, after)
    ensures AllThinned(before, after)
  {
    forall i | 0 <= i < |after|
      ensures Thinned(before[i], after[i])
    {
      assert PartlySwept(before[i], after[i]);
      var k :| 0 <= k <= |before[i]| && after[i] == Swept(before[i], k);
      SweptThinned(before[i], k);
    }
  }

  lemma PartlySweptSpares(before: seq<Bucket>, after: seq<Bucket>)
    requires AllPartlySwept(before, after)
    ensures forall i | 0 <= i < |after| :: Spares(before[i], after[i])
  {
    forall i | 0 <= i < |after|
      ensures Spares(before[i], after[i])
    {
      assert PartlySwept(before[i], after[i]);
      var k :| 0 <= k <= |before[i]| && after[i] == Swept(before[i], k);
      SweptSpares(before[i], k);
    }
  }

  /** What a full scan leaves: entries without reference bits, and nothing at all where there were none before. */
  lemma SecondChances(before: seq<Bucket>, after: seq<Bucket>)
    requires |before| == |after| && forall i | 0 <= i < |after| :: after[i] == SecondChance(before[i])
    ensures forall i | 0 <= i < |after| :: NoneReferenced(after[i])
    ensures (forall i | 0 <= i < |before| :: NoneReferenced(before[i])) ==> TotalSize(after) == 0
  {
    forall i | 0 <= i < |after|
      ensures NoneReferenced(after[i]) && (NoneReferenced(before[i]) ==> after[i] == [])
    {
      SecondChanceClearsBits(before[i]);
      if NoneReferenced(before[i]) {
        NoSecondChance(before[i]);
      }
    }
    if forall i | 0 <= i < |before| :: NoneReferenced(before[i]) {
      EmptyBuckets(after, BucketSize);
    }
  }

  ghost predicate Found(b: Bucket, key: Bytes, value: Bytes) {
    exists e :: e in b && e.key == key && e.value == value
  }

  ghost predicate BucketOk(bucketOf: Bytes -> BucketNumber, b: Bucket, i: nat) {
    && UniqueKeys(b)
    && forall e | e in b :: bucketOf(e.key) == i && e.size == EntrySize(e.key, e.value)
  }

  lemma ThinnedIsOk(bucketOf: Bytes -> BucketNumber, b: Bucket, c: Bucket, i: nat)
    requires BucketOk(bucketOf, b, i) && Thinned(b, c)
    ensures BucketOk(bucketOf, c, i)
    ensures forall k, v | Found(c, k, v) :: Found(b, k, v)
  {
  }

  /** `c` has `value`, if any, for the key, and what `b` has for any other. */
  ghost predicate Changed(b: Bucket, c: Bucket, key: Bytes, value: Option<Bytes>) {
    forall k, v :: Found(c, k, v) <==> if k == key then value == Some(v) else Found(b, k, v)
  }

  /** Replacing the entry of a key. */
  lemma ReplaceEntry(bucketOf: Bytes -> BucketNumber, b: Bucket, i: nat, pos: nat, e: Entity)
    requires BucketOk(bucketOf, b, i) && pos < |b| && e.key == b[pos].key && e.size == EntrySize(e.key, e.value)
    ensures BucketOk(bucketOf, b[pos := e], i) && Changed(b, b[pos := e], e.key, Some(e.value))
    ensures BucketSize(b[pos := e]) == BucketSize(b) - b[pos].size + e.size
  {
    BucketSizeUpdate(b, pos, e);
    var c := b[pos := e];
    assert c[pos] == e;
    forall k, v
      ensures Found(c, k, v) <==> if k == e.key then v == e.value else Found(b, k, v)
    {
      if k != e.key && Found(b, k, v) {
        var j :| 0 <= j < |b| && b[j].key == k && b[j].value == v;
        assert c[j] == b[j];
      }
    }
  }

  /** Adding an entry for a key that has none. */
  lemma PushEntry(bucketOf: Bytes -> BucketNumber, b: Bucket, i: nat, e: Entity)
    requires BucketOk(bucketOf, b, i) && (forall d | d in b :: d.key != e.key)
    requires bucketOf(e.key) == i && e.size == EntrySize(e.key, e.value)
    ensures BucketOk(bucketOf, b + [e], i) && Changed(b, b + [e], e.key, Some(e.value))
    ensures BucketSize(b + [e]) == BucketSize(b) + e.size
  {
    BucketSizePush(b, e);
    assert e in b + [e];
    forall k, v
      ensures Found(b + [e], k, v) <==> if k == e.key then v == e.value else Found(b, k, v)
    {
      if k != e.key && Found(b, k, v) {
        var d :| d in b && d.key == k && d.value == v;
        assert d in b + [e];
      }
    }
  }

  lemma WithoutMembers(b: Bucket, pos: nat)
    requires pos < |b| && UniqueKeys(b)
    ensures UniqueKeys(Without(b, pos))
    ensures forall e :: e in Without(b, pos) <==> e in b && e.key != b[pos].key
  {
    var c := Without(b, pos);
    assert forall j | 0 <= j < |c| :: c[j] == if j < pos then b[j] else b[j + 1];
    forall e
      ensures e in c <==> e in b && e.key != b[pos].key
    {
      if e in b && e.key != b[pos].key {
        var j :| 0 <= j < |b| && b[j] == e;
        assert c[if j < pos then j else j - 1] == e;
      }
    }
  }

  /** Removing the entry of a key. */
  lemma RemoveEntry(bucketOf: Bytes -> BucketNumber, b: Bucket, i: nat, pos: nat)
    requires BucketOk(bucketOf, b, i) && pos < |b|
    ensures BucketOk(bucketOf, Without(b, pos), i) && Changed(b, Without(b, pos), b[pos].key, None)
    ensures BucketSize(Without(b, pos)) == BucketSize(b) - b[pos].size
  {
    BucketSizeRemove(b, pos);
    WithoutMembers(b, pos);
  }

  /** An entry after a hit. */
  function Touch(e: Entity): Entity {
    e.(referenced := true, accesses := e.accesses + 1)
  }

  /** The entry of the key has been hit. */
  ghost predicate Touched(b: Bucket, c: Bucket, key: Bytes) {
    exists pos :: 0 <= pos < |b| && b[pos].key == key
                  && c == b[pos := b[pos].(referenced := true, accesses := b[pos].accesses + 1)]
  }

  lemma TouchedAt(b: Bucket, pos: nat)
    requires pos < |b|
    ensures Touched(b, b[pos := Touch(b[pos])], b[pos].key)
  {
    assert Touch(b[pos]) == b[pos].(referenced := true, accesses := b[pos].accesses + 1);
  }

  /** The entry of the key has this value and will survive the next scan. */
  ghost predicate Fresh(b: Bucket, key: Bytes, value: Bytes) {
    exists e :: e in b && e.key == key && e.value == value && e.referenced
  }

  /** The buckets hold these values for these keys. */
  ghost predicate Mirrors(bucketOf: Bytes -> BucketNumber, buckets: seq<Bucket>, contents: map<Bytes, Bytes>) {
    && |buckets| == 16384
    && forall k, v {:trigger Found(buckets[bucketOf(k)], k, v)} ::
         Found(buckets[bucketOf(k)], k, v) <==> k in contents && contents[k] == v
  }

  function Put(contents: map<Bytes, Bytes>, key: Bytes, value: Option<Bytes>): map<Bytes, Bytes> {
    if value.None? then contents - {key} else contents[key := value.value]
  }

  lemma MirrorChange(bucketOf: Bytes -> BucketNumber, buckets: seq<Bucket>, contents: map<Bytes, Bytes>,
                     c: Bucket, key: Bytes, value: Option<Bytes>)
    requires Mirrors(bucketOf, buckets, contents) && Changed(buckets[bucketOf(key)], c, key, value)
    ensures Mirrors(bucketOf, buckets[bucketOf(key) := c], Put(contents, key, value))
  {
    var after, puts := buckets[bucketOf(key) := c], Put(contents, key, value);
    forall k, v
      ensures Found(after[bucketOf(k)], k, v) <==> k in puts && puts[k] == v
    {
      assert Found(buckets[bucketOf(k)], k, v) <==> k in contents && contents[k] == v;
    }
  }

  ghost predicate Submap(a: map<Bytes, Bytes>, b: map<Bytes, Bytes>) {
    forall k | k in a :: k in b && a[k] == b[k]
  }

  /** What eviction leaves of the contents. */
  lemma MirrorThin(bucketOf: Bytes -> BucketNumber, before: seq<Bucket>, after: seq<Bucket>,
                   contents: map<Bytes, Bytes>)
    returns (kept: map<Bytes, Bytes>)
    requires Mirrors(bucketOf, before, contents) && AllThinned(before, after)
    ensures Mirrors(bucketOf, after, kept) && Submap(kept, contents)
  {
    kept := map k | k in contents && Found(after[bucketOf(k)], k, contents[k]) :: contents[k];
    forall k, v
      ensures Found(after[bucketOf(k)], k, v) <==> k in kept && kept[k] == v
    {
      if Found(after[bucketOf(k)], k, v) {
        assert Thinned(before[bucketOf(k)], after[bucketOf(k)]);
        assert Found(before[bucketOf(k)], k, v);
      }
    }
  }

  /** What an entry of the key, or that there is none, says about the contents. */
  lemma MirrorAt(bucketOf: Bytes -> BucketNumber, buckets: seq<Bucket>, contents: map<Bytes, Bytes>, key: Bytes,
                 pos: Option<nat>)
    requires Mirrors(bucketOf, buckets, contents)
    requires pos.Some? ==> pos.value < |buckets[bucketOf(key)]| && buckets[bucketOf(key)][pos.value].key == key
    requires pos.None? ==> forall e | e in buckets[bucketOf(key)] :: e.key != key
    ensures key in contents <==> pos.Some?
    ensures pos.Some? ==> contents[key] == buckets[bucketOf(key)][pos.value].value
  {
    var b := buckets[bucketOf(key)];
    assert key in contents ==> Found(b, key, contents[key]);
    if pos.Some? {
      assert b[pos.value] in b;
      assert Found(b, key, b[pos.value].value);
    }
  }

  /** Without contents there is no entry. */
  lemma NothingHeld(bucketOf: Bytes -> BucketNumber, buckets: seq<Bucket>)
    requires Mirrors(bucketOf, buckets, map[]) && forall i | 0 <= i < 16384 :: BucketOk(bucketOf, buckets[i], i)
    ensures TotalSize(buckets) == 0
  {
    forall i | 0 <= i < 16384
      ensures buckets[i] == []
    {
      if buckets[i] != [] {
        var e := buckets[i][0];
        assert BucketOk(bucketOf, buckets[i], i) && e in buckets[i];
        assert Found(buckets[bucketOf(e.key)], e.key, e.value);
        assert false;
      }
    }
    EmptyBuckets(buckets, BucketSize);
  }

  /** Every entry counts with the bytes of its key and value, and 72 more. */
  lemma {:induction false} SizeOfContents(bucketOf: Bytes -> BucketNumber, buckets: seq<Bucket>,
                                          contents: map<Bytes, Bytes>)
    requires Mirrors(bucketOf, buckets, contents)
    requires forall i | 0 <= i < 16384 :: BucketOk(bucketOf, buckets[i], i)
    ensures TotalSize(buckets) == Payload(contents) + 72 * |contents.Keys|
    decreases |contents.Keys|
  {
    if contents.Keys == {} {
      assert contents == map[];
      NothingHeld(bucketOf, buckets);
    } else {
      var k :| k in contents.Keys;
      var i := bucketOf(k);
      var b := buckets[i];
      assert Found(b, k, contents[k]) && BucketOk(bucketOf, b, i);
      var pos :| 0 <= pos < |b| && b[pos].key == k && b[pos].value == contents[k];
      assert b[pos] in b && b[pos].size == |k| + |contents[k]| + 72;
      var c := Without(b, pos);
      RemoveEntry(bucketOf, b, i, pos);
      MirrorChange(bucketOf, buckets, contents, c, k, None);
      TotalUpdate(buckets, i, c, BucketSize);
      PayloadRemove(contents, k);
      PayloadKeys(contents, k);
      SizeOfContents(bucketOf, buckets[i := c], contents - {k});
    }
  }

  class Cache {
    var buckets: seq<Bucket>
    var clockHand: nat
    var highWatermark: nat
    var lowWatermark: nat
    var cacheMemory: nat
    /** What it holds, as a map. */
    ghost var contents: map<Bytes, Bytes>
    /** `get_bucket_idx` */
    const bucketOf: Bytes -> BucketNumber


    /** Keys are unique and sit in their bucket, and the memory figure is the sum of the entry sizes. */
    ghost predicate Sound()
      reads this
    {
      && |buckets| == 16384 && (forall i | 0 <= i < 16384 :: BucketOk(bucketOf, buckets[i], i))
      && cacheMemory == TotalSize(buckets)
    }

    /** The memory bound. */
    ghost predicate Bounded()
      reads this
    {
      lowWatermark < highWatermark && (cacheMemory <= highWatermark || cacheMemory <= lowWatermark + highWatermark / 4)
    }

    ghost predicate Valid()
      reads this
    {
      Sound() && Bounded() && Mirrors(bucketOf, buckets, contents)
    }

    constructor ()
      ensures Valid() && bucketOf == BucketIndex
      ensures highWatermark == 100 * MB && lowWatermark == 50 * MB && cacheMemory == 0
      ensures contents == map[]
    {
      contents := map[];
      buckets := seq(16384, (_: nat) => []);
      clockHand, highWatermark, lowWatermark, cacheMemory := 0, 100 * MB, 50 * MB, 0;
      bucketOf := BucketIndex;
      new;
      EmptyBuckets(buckets, BucketSize);
    }

    /** Where the key is in a bucket. */
    method Position(b: Bucket, key: Bytes) returns (pos: Option<nat>)
      ensures pos.Some? ==> pos.value < |b| && b[pos.value].key == key
      ensures pos.None? ==> forall e | e in b :: e.key != key
    {
      for i := 0 to |b|
        invariant forall j | 0 <= j < i :: b[j].key != key
      {
        if b[i].key == key {
          return Some(i);
        }
      }
      return None;
    }

    /** Puts `b` in the place of bucket `i`. */
    method SetBucket(i: nat, b: Bucket)
      requires |buckets| == 16384 && i < 16384
      modifies this`buckets
      ensures buckets == old(buckets)[i := b]
      ensures TotalSize(buckets) == TotalSize(old(buckets)) - BucketSize(old(buckets[i])) + BucketSize(b)
      ensures BucketSize(old(buckets[i])) <= TotalSize(old(buckets))
    {
      TotalUpdate(buckets, i, b, BucketSize);
      buckets := buckets[i := b];
    }

    /** Scans entry `i` of bucket `hand`, of which the first `k` entries have been scanned: clears its reference bit or
        evicts it. */
    method SweepEntry(hand: nat, i: nat, ghost b: Bucket, ghost k: nat) returns (next: nat)
      requires |buckets| == 16384 && hand < 16384 && cacheMemory == TotalSize(buckets)
      requires k < |b| && buckets[hand] == Swept(b, k) && i == |SecondChance(b[..k])|
      modifies this`buckets, this`cacheMemory
      ensures buckets == old(buckets)[hand := Swept(b, k + 1)] && next == |SecondChance(b[..k + 1])|
      ensures cacheMemory == TotalSize(buckets) <= old(cacheMemory)
    {
      SweptNext(b, k);
      SweptSize(b, k);
      var bucket := buckets[hand];
      var entry := bucket[i];
      if entry.referenced {
        SetBucket(hand, bucket[i := entry.(referenced := false)]);
        next := i + 1;
      } else {
        SetBucket(hand, Without(bucket, i));
        cacheMemory := cacheMemory - entry.size;
        next := i;
      }
    }

    /** Scans bucket `hand` from the front until the memory figure is down to `target`. */
    method SweepBucket(hand: nat, target: nat) returns (checked: nat)
      requires |buckets| == 16384 && hand < 16384 && cacheMemory == TotalSize(buckets) && cacheMemory > target
      modifies this`buckets, this`cacheMemory
      ensures checked <= |old(buckets[hand])| && buckets == old(buckets)[hand := Swept(old(buckets[hand]), checked)]
      ensures cacheMemory == TotalSize(buckets) <= old(cacheMemory)
      ensures cacheMemory > target ==> checked == |old(buckets[hand])|
    {
      ghost var b := buckets[hand];
      var i := 0;
      checked := 0;
      assert Swept(b, 0) == b;
      while i < |buckets[hand]|
        invariant |buckets| == 16384 && checked <= |b| && i == |SecondChance(b[..checked])|
        invariant buckets == old(buckets)[hand := Swept(b, checked)]
        invariant cacheMemory == TotalSize(buckets) && target < cacheMemory <= old(cacheMemory)
        decreases |b| - checked
      {
        i := SweepEntry(hand, i, b, checked);
        checked := checked + 1;
        if cacheMemory <= target {
          break;
        }
      }
    }

    /** Counts the entries, bucket by bucket. */
    method CountEntries() returns (count: nat)
      ensures count == EntryCount(buckets)
    {
      count := 0;
      for i := 0 to |buckets|
        invariant count == EntryCount(buckets[..i])
      {
        assert buckets[..i + 1][..i] == buckets[..i];
        count := count + |buckets[i]|;
      }
      assert buckets[..|buckets|] == buckets;
    }

    /** Moves the hand on by one bucket and scans that. */
    method ScanNextBucket(target: nat, ghost before: seq<Bucket>, ghost visited: seq<Bucket>, ghost start: nat,
                          ghost steps: nat)
      returns (checked: nat, ghost hand: nat)
      requires |buckets| == 16384 && cacheMemory == TotalSize(buckets) > target
      requires MidScan(before, visited, buckets, start, steps) && EntryCount(visited) < EntryCount(before)
      requires steps < 16384 && Around(clockHand) == Turn(start, steps) && AllPartlySwept(before, buckets)
      modifies this`buckets, this`cacheMemory, this`clockHand
      ensures clockHand == old(clockHand) + 1 && Around(clockHand) == Turn(start, steps + 1)
      ensures cacheMemory == TotalSize(buckets) <= old(cacheMemory)
      ensures |buckets| == 16384 && hand < 16384 && AllPartlySwept(before, buckets)
      ensures cacheMemory > target ==>
                && checked == EntryCount(visited[hand := before[hand]]) - EntryCount(visited)
                && MidScan(before, visited[hand := before[hand]], buckets, start, steps + 1)
    {
      ScanNext(before, buckets, start, steps);
      VisitNext(before, visited, start, steps);
      Advance(clockHand, start, steps);
      var b := Around(clockHand);
      clockHand := clockHand + 1;
      checked := SweepBucket(b, target);
      SweptWhole(before[b]);
      assert PartlySwept(before[b], Swept(before[b], checked));
      hand := b;
    }

    /** One scan of the clock. Unless it comes down to `target` first, it gives every entry its second chance. */
    method Scan(target: nat)
      requires |buckets| == 16384 && cacheMemory == TotalSize(buckets)
      modifies this`buckets, this`cacheMemory, this`clockHand
      ensures AllPartlySwept(old(buckets), buckets)
      ensures cacheMemory == TotalSize(buckets) <= old(cacheMemory)
      ensures cacheMemory <= target || forall i | 0 <= i < 16384 :: buckets[i] == SecondChance(old(buckets[i]))
    {
      ghost var start, before := Around(clockHand), buckets;
      ghost var steps: nat, visited: seq<Bucket> := 0, seq(16384, (_: nat) => []);
      ghost var hand: nat;
      ScanBegins(before, visited, start);
      var total := CountEntries();
      var checked, n := 0, 0;
      while checked < total && cacheMemory > target
        invariant |buckets| == 16384 && steps <= 16384 && Around(clockHand) == Turn(start, steps)
        invariant cacheMemory == TotalSize(buckets) <= old(cacheMemory)
        invariant AllPartlySwept(before, buckets)
        invariant cacheMemory > target ==>
                    checked == EntryCount(visited) && MidScan(before, visited, buckets, start, steps)
        decreases 16384 - steps
      {
        EntriesLeft(before, visited, start, steps);
        n, hand := ScanNextBucket(target, before, visited, start, steps);
        checked := checked + n;
        steps, visited := steps + 1, visited[hand := before[hand]];
      }
      if cacheMemory > target {
        ScanComplete(before, visited, buckets, start, steps);
      }
    }

    /** `evict_entries`. Two scans are always enough, so the limit of three never stops it short. */
    method EvictEntries() returns (ghost scansDone: nat)
      requires Sound()
      modifies this`buckets, this`cacheMemory, this`clockHand
      ensures Sound() && cacheMemory <= lowWatermark && scansDone <= 2
      ensures AllThinned(old(buckets), buckets) && (scansDone == 1 ==> AllPartlySwept(old(buckets), buckets))
      ensures old(cacheMemory) <= lowWatermark ==> buckets == old(buckets)
      ensures scansDone <= 1 ==> forall i | 0 <= i < 16384 :: Spares(old(buckets)[i], buckets[i])
    {
      AllThinnedRefl(buckets);
      var target := lowWatermark;
      var scans := 0;
      while cacheMemory > target && scans < MAX_SCANS
        invariant |buckets| == 16384 && cacheMemory == TotalSize(buckets) && scans <= 2
        invariant AllThinned(old(buckets), buckets)
        invariant scans == 0 ==> buckets == old(buckets)
        invariant scans == 1 ==> AllPartlySwept(old(buckets), buckets)
        invariant scans > 0 ==> old(cacheMemory) > target
        invariant scans == 1 && cacheMemory > target ==> forall i | 0 <= i < 16384 :: NoneReferenced(buckets[i])
        invariant scans == 2 ==> cacheMemory <= target
        decreases MAX_SCANS - scans
      {
        ghost var before := buckets;
        Scan(target);
        PartlySweptIsThinned(before, buckets);
        AllThinnedTrans(old(buckets), before, buckets);
        if cacheMemory > target {
          SecondChances(before, buckets);
        }
        scans := scans + 1;
      }
      scansDone := scans;
      if scans == 1 {
        PartlySweptSpares(old(buckets), buckets);
      }
      forall i | 0 <= i < 16384
        ensures BucketOk(bucketOf, buckets[i], i)
      {
        assert BucketOk(bucketOf, old(buckets)[i], i) && Thinned(old(buckets)[i], buckets[i]);
        ThinnedIsOk(bucketOf, old(buckets)[i], buckets[i], i);
      }
    }

    /** Puts `c` in the place of the bucket of the key, from which it differs in what it has for the key. */
    method ChangeBucket(c: Bucket, usage: nat, ghost key: Bytes, ghost value: Option<Bytes>, i: nat)
      requires Sound() && Mirrors(bucketOf, buckets, contents)
      requires i == bucketOf(key) && BucketOk(bucketOf, c, i) && Changed(buckets[i], c, key, value)
      requires usage == cacheMemory - BucketSize(buckets[i]) + BucketSize(c)
      modifies this`buckets, this`cacheMemory, this`contents
      ensures Sound() && Mirrors(bucketOf, buckets, contents)
      ensures contents == Put(old(contents), key, value) && cacheMemory == usage && buckets == old(buckets)[i := c]
    {
      MirrorChange(bucketOf, buckets, contents, c, key, value);
      SetBucket(i, c);
      cacheMemory := usage;
      contents := Put(contents, key, value);
    }

    /** `get`: finds the value, if there is one, and marks the entry as referenced. */
    method Get(key: Bytes) returns (r: Option<Bytes>)
      requires Valid()
      modifies this`buckets, this`cacheMemory, this`contents
      ensures Valid() && contents == old(contents) && cacheMemory == old(cacheMemory)
      ensures r == if key in contents then Some(contents[key]) else None
      ensures r.None? ==> buckets == old(buckets)
      ensures r.Some? ==> && buckets == old(buckets)[bucketOf(key) := buckets[bucketOf(key)]]
                          && Touched(old(buckets)[bucketOf(key)], buckets[bucketOf(key)], key)
    {
      var i := bucketOf(key);
      var bucket := buckets[i];
      assert BucketOk(bucketOf, bucket, i);
      var pos := Position(bucket, key);
      MirrorAt(bucketOf, buckets, contents, key, pos);
      if pos.None? {
        return None;
      }
      var e := bucket[pos.value];
      var touched := Touch(e);
      assert e in bucket;
      TouchedAt(bucket, pos.value);
      ReplaceEntry(bucketOf, bucket, i, pos.value, touched);
      assert contents[key := e.value] == contents;
      ChangeBucket(bucket[pos.value := touched], cacheMemory, key, Some(e.value), i);
      return Some(e.value);
    }

    /** `insert`: too large a value is not cached; a full cache is evicted from first. */
    method Insert(key: Bytes, value: Bytes)
      requires Valid()
      modifies this`buckets, this`cacheMemory, this`clockHand, this`contents
      ensures Valid()
      ensures |key| + |value| + 72 > highWatermark / 4 ==>
                buckets == old(buckets) && cacheMemory == old(cacheMemory) && contents == old(contents)
      ensures |key| + |value| + 72 <= highWatermark / 4 ==>
                && key in contents && contents[key] == value && Submap(contents - {key}, old(contents))
                && Fresh(buckets[bucketOf(key)], key, value)
                && (old(cacheMemory) + |key| + |value| + 72 <= highWatermark ==>
                    contents == old(contents)[key := value])
      ensures cacheMemory == Payload(contents) + 72 * |contents.Keys|
    {
      var size := EntrySize(key, value);
      if size > highWatermark / 4 {
        CountsBytes();
        return;
      }
      if cacheMemory + size > highWatermark {
        Evict();
      }
      PutEntry(key, value, size);
      CountsBytes();
    }

    /** Evicts and notes what is left. */
    method Evict()
      requires Sound() && Mirrors(bucketOf, buckets, contents)
      modifies this`buckets, this`cacheMemory, this`clockHand, this`contents
      ensures Sound() && Mirrors(bucketOf, buckets, contents)
      ensures cacheMemory <= lowWatermark && Submap(contents, old(contents))
    {
      ghost var before := buckets;
      ghost var n := EvictEntries();
      contents := MirrorThin(bucketOf, before, buckets, contents);
    }

    /** Replaces the entry of the key or adds one. */
    method PutEntry(key: Bytes, value: Bytes, size: nat)
      requires Sound() && Mirrors(bucketOf, buckets, contents) && size == EntrySize(key, value)
      modifies this`buckets, this`cacheMemory, this`contents
      ensures Sound() && Mirrors(bucketOf, buckets, contents)
      ensures cacheMemory <= old(cacheMemory) + size && contents == old(contents)[key := value]
      ensures Fresh(buckets[bucketOf(key)], key, value)
    {
      var i := bucketOf(key);
      var bucket := buckets[i];
      assert BucketOk(bucketOf, bucket, i);
      TotalUpdate(buckets, i, bucket, BucketSize);
      var pos := Position(bucket, key);
      if pos.Some? {
        var e := bucket[pos.value];
        var replaced := e.(value := value, size := size, referenced := true);
        ReplaceEntry(bucketOf, bucket, i, pos.value, replaced);
        var usage := if size > e.size then cacheMemory + (size - e.size) else cacheMemory - (e.size - size);
        ChangeBucket(bucket[pos.value := replaced], usage, key, Some(value), i);
        assert buckets[i][pos.value] == replaced;
      } else {
        var added := Entity(key, value, true, size, 1);
        PushEntry(bucketOf, bucket, i, added);
        ChangeBucket(bucket + [added], cacheMemory + size, key, Some(value), i);
        assert buckets[i][|bucket|] == added;
      }
    }

    /** `Vec::remove` */
    method TakeOut(bucket: Bucket, pos: nat, ghost i: nat) returns (rest: Bucket)
      requires BucketOk(bucketOf, bucket, i) && pos < |bucket|
      ensures BucketOk(bucketOf, rest, i) && Changed(bucket, rest, bucket[pos].key, None)
      ensures BucketSize(rest) == BucketSize(bucket) - bucket[pos].size
    {
      RemoveEntry(bucketOf, bucket, i, pos);
      rest := Without(bucket, pos);
    }

    method DropEntry(key: Bytes)
      requires Sound() && Mirrors(bucketOf, buckets, contents)
      modifies this`buckets, this`cacheMemory, this`contents
      ensures Sound() && Mirrors(bucketOf, buckets, contents)
      ensures cacheMemory <= old(cacheMemory) && contents == old(contents) - {key}
    {
      var i := bucketOf(key);
      var bucket := buckets[i];
      assert BucketOk(bucketOf, bucket, i);
      TotalUpdate(buckets, i, bucket, BucketSize);
      var pos := Position(bucket, key);
      MirrorAt(bucketOf, buckets, contents, key, pos);
      if pos.Some? {
        var rest := TakeOut(bucket, pos.value, i);
        ChangeBucket(rest, cacheMemory - bucket[pos.value].size, key, None, i);
      }
    }

    /** `remove` */
    method Remove(key: Bytes)
      requires Valid()
      modifies this`buckets, this`cacheMemory, this`contents
      ensures Valid() && cacheMemory <= old(cacheMemory) && contents == old(contents) - {key}
    {
      DropEntry(key);
    }

    /** `clear` */
    method Clear()
      requires Valid()
      modifies this`buckets, this`cacheMemory, this`clockHand, this`contents
      ensures Valid() && cacheMemory == 0 && clockHand == 0 && contents == map[]
    {
      for i := 0 to |buckets|
        invariant |buckets| == 16384
        invariant forall j | 0 <= j < i :: buckets[j] == []
      {
        buckets := buckets[i := []];
      }
      EmptyBuckets(buckets, BucketSize);
      cacheMemory, clockHand := 0, 0;
      contents := map[];
    }

    /** `adjust_watermarks`: refused unless low < high <= 1 GB; a cache over the new limit is evicted from at once. */
    method AdjustWatermarks(highMb: nat, lowMb: nat)
      requires Valid()
      modifies this`buckets, this`cacheMemory, this`clockHand, this`highWatermark, this`lowWatermark, this`contents
      ensures Valid()
      ensures if lowMb * MB < highMb * MB <= 1024 * MB
              then highWatermark == highMb * MB && lowWatermark == lowMb * MB && cacheMemory <= highWatermark
              else highWatermark == old(highWatermark) && lowWatermark == old(lowWatermark) && buckets == old(buckets)
      ensures Submap(contents, old(contents))
    {
      var high, low := highMb * MB, lowMb * MB;
      if high > low && high <= CACHE_MAX_SIZE {
        highWatermark, lowWatermark := high, low;
        if cacheMemory > high {
          Evict();
        }
      }
    }

    /** The memory figure is what the keys and values held take, and 72 bytes for each; so these are bounded. */
    lemma CountsBytes()
      requires Valid()
      ensures cacheMemory == Payload(contents) + 72 * |contents.Keys|
      ensures || Payload(contents) + 72 * |contents.Keys| <= highWatermark
              || Payload(contents) + 72 * |contents.Keys| <= lowWatermark + highWatermark / 4
    {
      SizeOfContents(bucketOf, buckets, contents);
    }

    /** With the low watermark at most three quarters of the high one, what is held never outgrows the high one. */
    lemma NeverAboveHigh()
      requires Valid() && 4 * lowWatermark <= 3 * highWatermark
      ensures cacheMemory <= highWatermark && Payload(contents) + 72 * |contents.Keys| <= highWatermark
    {
      CountsBytes();
    }
  }
}
