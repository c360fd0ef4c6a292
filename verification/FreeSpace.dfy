/** Free chunks as a set of sectors: the mathematics behind the free-space manager. */
module Chunks {
  import opened Base

  /** Free chunks by start sector, with their sizes. */
  type Chunks = map<nat, nat>

  /** The chunk at `s` ends before sector `t` and leaves a gap. */
  ghost predicate EndsBefore(c: Chunks, s: nat, t: nat)
    requires s in c
  {
    s + c[s] < t
  }

  /** Chunks are disjoint and never adjacent. */
  ghost predicate Separated(c: Chunks) {
    forall s, t {:trigger EndsBefore(c, s, t)} | s in c && t in c && s < t :: EndsBefore(c, s, t)
  }

  lemma InOrder(c: Chunks, s: nat, t: nat)
    requires Separated(c) && s in c && t in c
    ensures s == t || s + c[s] < t || t + c[t] < s
  {
    if s < t {
      assert EndsBefore(c, s, t);
    } else if t < s {
      assert EndsBefore(c, t, s);
    }
  }

  ghost predicate NonEmpty(c: Chunks) {
    forall s | s in c :: c[s] > 0
  }

  /** The sectors the chunks cover. */
  ghost function Cover(c: Chunks): set<nat> {
    set s: nat, i: nat | s in c && s <= i < s + c[s] && Within(i, s, c[s]) :: i
  }

  /** The chunk that covers a sector. */
  lemma ChunkOf(c: Chunks, i: nat) returns (s: nat)
    requires i in Cover(c)
    ensures s in c && s <= i < s + c[s] && Within(i, s, c[s])
  {
    s :| s in c && s <= i < s + c[s] && Within(i, s, c[s]);
  }

  lemma StartIsCovered(c: Chunks, start: nat, size: nat)
    requires NonEmpty(c) && start in c && size > 0
    ensures !(Range(start, size) !! Cover(c))
  {
    assert Within(start, start, c[start]) && Within(start, start, size);
    assert start in Range(start, size) && start in Cover(c);
  }

  lemma CoverAdd(c: Chunks, start: nat, size: nat)
    requires start !in c
    ensures Cover(c[start := size]) == Cover(c) + Range(start, size)
  {
    var d := c[start := size];
    forall i | i in Cover(c) + Range(start, size)
      ensures i in Cover(d)
    {
      if i in Cover(c) {
        var s := ChunkOf(c, i);
        assert s in d && Within(i, s, d[s]);
      } else {
        assert Within(i, start, d[start]);
      }
    }
    forall i | i in Cover(d)
      ensures i in Cover(c) + Range(start, size)
    {
      var s := ChunkOf(d, i);
      if s != start {
        assert s in c && Within(i, s, c[s]);
      }
    }
  }

  lemma CoverRemove(c: Chunks, start: nat)
    requires Separated(c) && start in c
    ensures Cover(c - {start}) == Cover(c) - Range(start, c[start])
    ensures Range(start, c[start]) <= Cover(c)
  {
    var d := c - {start};
    forall i | i in Range(start, c[start])
      ensures i in Cover(c)
    {
      assert Within(i, start, c[start]);
    }
    forall i | i in Cover(c) && i !in Range(start, c[start])
      ensures i in Cover(d)
    {
      var s := ChunkOf(c, i);
      assert s in d && Within(i, s, d[s]);
    }
    forall i | i in Cover(d)
      ensures i in Cover(c) && i !in Range(start, c[start])
    {
      var s := ChunkOf(d, i);
      assert s in c && Within(i, s, c[s]);
      InOrder(c, s, start);
    }
  }

  /** Sectors in all chunks together. */
  ghost function TotalSize(c: Chunks): nat
    decreases |c.Keys|
  {
    if c.Keys == {} then 0
    else
      var s :| s in c.Keys;
      assert (c - {s}).Keys == c.Keys - {s};
      c[s] + TotalSize(c - {s})
  }

  lemma {:induction false} TotalSizeRemove(c: Chunks, s: nat)
    requires s in c
    ensures TotalSize(c) == c[s] + TotalSize(c - {s})
    decreases |c.Keys|
  {
    assert (c - {s}).Keys == c.Keys - {s};
    var t: nat :| t in c.Keys && TotalSize(c) == c[t] + TotalSize(c - {t});
    if t != s {
      assert (c - {t}).Keys == c.Keys - {t};
      TotalSizeRemove(c - {t}, s);
      TotalSizeRemove(c - {s}, t);
      assert c - {t} - {s} == c - {s} - {t};
    }
  }

  lemma DisjointUnionSize(a: set<nat>, b: set<nat>)
    requires a !! b
    ensures |a + b| == |a| + |b|
  {
  }

  /** Separate chunks cover as many sectors as their sizes add up to. */
  lemma {:induction false} CoverSize(c: Chunks)
    requires Separated(c)
    ensures |Cover(c)| == TotalSize(c)
    decreases |c.Keys|
  {
    if c.Keys == {} {
      assert Cover(c) == {};
    } else {
      var s :| s in c.Keys;
      assert (c - {s}).Keys == c.Keys - {s};
      TotalSizeRemove(c, s);
      RemoveChunk(c, s);
      CoverSize(c - {s});
      RangeSize(s, c[s]);
      assert Cover(c) == Cover(c - {s}) + Range(s, c[s]);
      DisjointUnionSize(Cover(c - {s}), Range(s, c[s]));
    }
  }

  /** A range that no chunk overlaps or touches. */
  ghost predicate Apart(c: Chunks, start: nat, size: nat) {
    forall s | s in c :: s + c[s] < start || start + size < s
  }

  lemma AddChunk(c: Chunks, start: nat, size: nat)
    requires Separated(c) && start !in c && Apart(c, start, size)
    ensures Separated(c[start := size])
    ensures Range(start, size) !! Cover(c)
    ensures Cover(c[start := size]) == Cover(c) + Range(start, size)
    ensures TotalSize(c[start := size]) == TotalSize(c) + size
  {
    CoverAdd(c, start, size);
    TotalSizeRemove(c[start := size], start);
    assert c[start := size] - {start} == c;
    forall i | i in Cover(c)
      ensures i !in Range(start, size)
    {
      var s := ChunkOf(c, i);
    }
    var d := c[start := size];
    forall s, t | s in d && t in d && s < t
      ensures EndsBefore(d, s, t)
    {
      if s != start && t != start {
        InOrder(c, s, t);
      }
    }
  }

  /** Adding any chunk; it leaves chunks apart exactly if it is apart from them. */
  lemma AddedChunk(c: Chunks, start: nat, size: nat)
    requires start !in c
    ensures Cover(c[start := size]) == Cover(c) + Range(start, size)
    ensures TotalSize(c[start := size]) == TotalSize(c) + size
    ensures Separated(c) ==> (Separated(c[start := size]) <==> Apart(c, start, size))
  {
    CoverAdd(c, start, size);
    TotalSizeRemove(c[start := size], start);
    assert c[start := size] - {start} == c;
    if Separated(c) && Apart(c, start, size) {
      AddChunk(c, start, size);
    }
    var d := c[start := size];
    if Separated(d) {
      forall s | s in c
        ensures s + c[s] < start || start + size < s
      {
        InOrder(d, s, start);
      }
    }
  }

  lemma RemoveChunk(c: Chunks, start: nat)
    requires Separated(c) && start in c
    ensures Separated(c - {start})
    ensures Range(start, c[start]) <= Cover(c)
    ensures Cover(c - {start}) == Cover(c) - Range(start, c[start])
    ensures TotalSize(c - {start}) == TotalSize(c) - c[start]
  {
    CoverRemove(c, start);
    TotalSizeRemove(c, start);
    var d := c - {start};
    forall s, t | s in d && t in d && s < t
      ensures EndsBefore(d, s, t)
    {
      InOrder(c, s, t);
    }
  }

  /** A non-empty range that holds no free sector lies between chunks. */
  lemma RangeBetweenChunks(c: Chunks, start: nat, size: nat, s: nat)
    requires NonEmpty(c) && size > 0 && Range(start, size) !! Cover(c) && s in c
    ensures s + c[s] <= start || start + size <= s
  {
    var i := if s <= start then start else s;
    assert i in Range(start, size) <==> Within(i, start, size);
    assert Within(i, s, c[s]) ==> i in Cover(c);
  }

  lemma RangeJoin(start: nat, m: nat, n: nat)
    ensures Range(start, m) + Range(start + m, n) == Range(start, m + n)
  {
  }

  lemma MoveOut(all: set<nat>, part: set<nat>, extra: set<nat>)
    requires part <= all
    ensures (all - part) + (part + extra) == all + extra
    ensures (all - part) + (extra + part) == all + extra
  {
  }

  /** No chunk overlaps the range or ends where it starts. */
  ghost predicate ApartOnLeft(c: Chunks, start: nat, size: nat) {
    forall s | s in c :: s + c[s] < start || start + size <= s
  }

  /** Joining the range with the chunk that ends where it starts. */
  lemma AbsorbLeft(c: Chunks, start: nat, size: nat, p: nat)
    requires Separated(c) && NonEmpty(c) && size > 0 && p in c && p + c[p] == start
    ensures Cover(c - {p}) + Range(p, c[p] + size) == Cover(c) + Range(start, size)
    ensures Range(start, size) !! Cover(c) ==> ApartOnLeft(c - {p}, p, c[p] + size)
  {
    RemoveChunk(c, p);
    RangeJoin(p, c[p], size);
    MoveOut(Cover(c), Range(p, c[p]), Range(start, size));
    if Range(start, size) !! Cover(c) {
      forall s | s in c - {p}
        ensures s + c[s] < p || start + size <= s
      {
        RangeBetweenChunks(c, start, size, s);
        InOrder(c, s, p);
      }
    }
  }

  lemma NothingOnLeft(c: Chunks, start: nat, size: nat)
    requires NonEmpty(c) && size > 0 && Range(start, size) !! Cover(c)
    requires forall s | s in c :: s + c[s] != start
    ensures ApartOnLeft(c, start, size)
  {
    forall s | s in c
      ensures s + c[s] < start || start + size <= s
    {
      RangeBetweenChunks(c, start, size, s);
    }
  }

  /** Joining the range with the chunk that starts where it ends. */
  lemma AbsorbRight(c: Chunks, start: nat, size: nat)
    requires Separated(c) && start + size in c
    ensures Cover(c - {start + size}) + Range(start, size + c[start + size]) == Cover(c) + Range(start, size)
    ensures ApartOnLeft(c, start, size) ==> Apart(c - {start + size}, start, size + c[start + size])
  {
    var end := start + size;
    RemoveChunk(c, end);
    RangeJoin(start, size, c[end]);
    MoveOut(Cover(c), Range(end, c[end]), Range(start, size));
    if ApartOnLeft(c, start, size) {
      forall s | s in c - {end}
        ensures s + c[s] < start || end + c[end] < s
      {
        InOrder(c, s, end);
      }
    }
  }

  /** A range that holds a free sector overlaps a chunk, which is not one of those that merging takes out. */
  lemma OverlapRemains(c: Chunks, d: Chunks, start: nat, size: nat, mergedStart: nat, mergedSize: nat)
    requires !(Range(start, size) !! Cover(c))
    requires mergedStart <= start && start + size <= mergedStart + mergedSize
    requires forall s | s in c && s + c[s] != start && s != start + size :: s in d && d[s] == c[s]
    ensures !Apart(d, mergedStart, mergedSize)
  {
    var i :| i in Range(start, size) && i in Cover(c);
    var s := ChunkOf(c, i);
    assert s in d;
  }

  /** The remainder of a split chunk touches no other chunk. */
  lemma RemainderApart(c: Chunks, s: nat, taken: nat)
    requires Separated(c) && s in c && 0 < taken <= c[s]
    ensures Apart(c - {s}, s + taken, c[s] - taken)
    ensures s + taken !in c
  {
    if s + taken in c {
      InOrder(c, s, s + taken);
    }
    forall t | t in c - {s}
      ensures t + c[t] < s + taken || s + taken + (c[s] - taken) < t
    {
      InOrder(c, s, t);
    }
  }

  /** Taking a whole chunk and putting its tail back takes its head. */
  lemma PutBackTail(f: set<nat>, s: nat, size: nat, taken: nat)
    requires Range(s, size) <= f && taken <= size
    ensures Range(s, taken) <= f
    ensures f - Range(s, size) + Range(s + taken, size - taken) == f - Range(s, taken)
  {
    assert Range(s, size) == Range(s, taken) + Range(s + taken, size - taken);
  }

  lemma ChunkFits(c: Chunks, s: nat)
    requires s in c
    ensures c[s] <= TotalSize(c)
  {
    TotalSizeRemove(c, s);
  }

  /** A run of free sectors lies inside one chunk, because no two chunks touch. */
  lemma {:induction false} RunInChunk(c: Chunks, start: nat, count: nat) returns (s: nat)
    requires Separated(c) && count > 0
    requires Range(start, count) <= Cover(c)
    ensures s in c && s <= start && start + count <= s + c[s]
  {
    assert Within(start, start, count) && start in Range(start, count);
    if count == 1 {
      s := ChunkOf(c, start);
    } else {
      var last := start + count - 1;
      assert Range(start, count - 1) <= Range(start, count);
      s := RunInChunk(c, start, count - 1);
      assert Within(last, start, count) && last in Range(start, count);
      var t := ChunkOf(c, last);
      InOrder(c, s, t);
    }
  }

  /** Separated non-empty chunks are determined by the sectors they cover. */
  lemma Canonical(a: Chunks, b: Chunks)
    requires Separated(a) && NonEmpty(a) && Separated(b) && NonEmpty(b)
    requires Cover(a) == Cover(b)
    ensures a == b
  {
    CanonicalKeys(a, b);
    CanonicalKeys(b, a);
  }

  lemma CanonicalKeys(a: Chunks, b: Chunks)
    requires Separated(a) && NonEmpty(a) && Separated(b) && NonEmpty(b)
    requires Cover(a) == Cover(b)
    ensures forall s | s in a :: s in b && b[s] == a[s]
  {
    forall s | s in a
      ensures s in b && b[s] == a[s]
    {
      CoverRemove(a, s);
      var t := RunInChunk(b, s, a[s]);
      CoverRemove(b, t);
      var u := RunInChunk(a, t, b[t]);
      InOrder(a, u, s);
    }
  }
}

/** `FreeSpaceManager` (src/storage/free_space_manager.rs). */
module FreeSpace {
  import opened Base
  import opened Chunks

  datatype SectorStat = SectorStat(start: nat, size: nat)

  /** The order of the keys (size, start) in `by_size`. */
  predicate KeyLe(a: (nat, nat), b: (nat, nat)) {
    a.0 < b.0 || (a.0 == b.0 && a.1 <= b.1)
  }

  lemma {:induction false} LeastKey(keys: set<(nat, nat)>) returns (k: (nat, nat))
    requires keys != {}
    ensures k in keys && forall k' | k' in keys :: KeyLe(k, k')
  {
    var any :| any in keys;
    var rest := keys - {any};
    assert keys == rest + {any};
    k := any;
    if rest != {} {
      var least := LeastKey(rest);
      if !KeyLe(k, least) {
        k := least;
      }
    }
  }

  lemma {:induction false} GreatestKey(keys: set<(nat, nat)>) returns (k: (nat, nat))
    requires keys != {}
    ensures k in keys && forall k' | k' in keys :: KeyLe(k', k)
  {
    var any :| any in keys;
    var rest := keys - {any};
    assert keys == rest + {any};
    k := any;
    if rest != {} {
      var greatest := GreatestKey(rest);
      if !KeyLe(greatest, k) {
        k := greatest;
      }
    }
  }

  lemma {:induction false} GreatestNat(keys: set<nat>) returns (k: nat)
    requires keys != {}
    ensures k in keys && forall k' | k' in keys :: k' <= k
  {
    var any :| any in keys;
    var rest := keys - {any};
    assert keys == rest + {any};
    k := any;
    if rest != {} {
      var greatest := GreatestNat(rest);
      if k < greatest {
        k := greatest;
      }
    }
  }

  /** The chunk at `start` is large enough, and the least such chunk by size, then by start. */
  ghost predicate BestFit(c: Chunks, start: nat, sectors: nat) {
    && start in c && c[start] >= sectors
    && forall s | s in c && c[s] >= sectors :: KeyLe((c[start], start), (c[s], s))
  }

  lemma NoRun(c: Chunks, sectors: nat)
    requires Separated(c) && sectors > 0
    requires forall s | s in c :: c[s] < sectors
    ensures forall start: nat :: !(Range(start, sectors) <= Cover(c))
  {
    forall start: nat
      ensures !(Range(start, sectors) <= Cover(c))
    {
      if Range(start, sectors) <= Cover(c) {
        var s := RunInChunk(c, start, sectors);
      }
    }
  }

  /** The largest chunk has this many bytes; without chunks it is zero. */
  ghost predicate Largest(c: Chunks, bytes: nat) {
    && (forall s | s in c :: BytesIn(c[s]) <= bytes)
    && if c == map[] then bytes == 0 else exists s :: s in c && BytesIn(c[s]) == bytes
  }

  /** Share of the free bytes outside the largest chunk, in percent. */
  function Fragmentation(totalFree: nat, largest: nat): (p: nat)
    requires largest <= totalFree
    ensures p <= 100
    ensures totalFree == 0 ==> p == 0
    ensures totalFree > 0 ==> p * totalFree <= 100 * (totalFree - largest) < (p + 1) * totalFree
  {
    if totalFree == 0 then 0 else (totalFree - largest) * 100 / totalFree
  }

  /** Bytes in a number of sectors. */
  function BytesIn(sectors: nat): nat {
    4096 * sectors
  }

  /** Whole sectors on a device of `size` bytes. */
  function DeviceSectors(size: nat): nat {
    size / 4096
  }

  predicate ValidSectorRange(persistenceSize: nat, start: nat, count: nat) {
    persistenceSize > 0 ==> start < DeviceSectors(persistenceSize) && start + count <= DeviceSectors(persistenceSize)
  }

  predicate ValidFreeSpace(persistenceSize: nat, stat: SectorStat) {
    stat.start >= METADATA_BLOCK_SIZE && ValidSectorRange(persistenceSize, stat.start, stat.size)
  }

  /** The two maps hold the same chunks. */
  ghost predicate SameChunks(bySize: set<(nat, nat)>, byStart: Chunks) {
    forall size: nat, start: nat :: (size, start) in bySize <==> start in byStart && byStart[start] == size
  }

  /** Every chunk is past the metadata and on the device. */
  ghost predicate ChunksInBounds(persistenceSize: nat, byStart: Chunks) {
    forall s | s in byStart :: ValidFreeSpace(persistenceSize, SectorStat(s, byStart[s]))
  }


  /** `mergedStart` is the start of the chunk that ends at `start`, or `start` itself if there is none. */
  ghost predicate JoinsLeft(c: Chunks, start: nat, mergedStart: nat) {
    if mergedStart == start then forall s | s in c :: s + c[s] != start
    else mergedStart < start && mergedStart in c && mergedStart + c[mergedStart] == start
  }

  /** What merging gives is in bounds if the range is, and it starts where no chunk is left unless a chunk started at
      the range. */
  lemma MergedInBounds(persistenceSize: nat, c: Chunks, start: nat, size: nat, merged: SectorStat)
    requires Separated(c) && NonEmpty(c) && ChunksInBounds(persistenceSize, c) && size > 0
    requires ValidSectorRange(persistenceSize, start, size) && JoinsLeft(c, start, merged.start)
    requires merged.start + merged.size == start + size + if start + size in c then c[start + size] else 0
    ensures ValidFreeSpace(persistenceSize, merged) <==> start >= METADATA_BLOCK_SIZE
    ensures start in c ==> merged.start == start
    ensures start < METADATA_BLOCK_SIZE ==> merged.start == start
  {
    if start in c && merged.start < start {
      InOrder(c, merged.start, start);
    }
  }

  class FreeSpaceManager {
    /** Keys (size, start) of `by_size`; the entry under a key only repeats the key. */
    var bySize: set<(nat, nat)>
    /** Start and size of every chunk; the entry in `by_start` repeats the start. */
    var byStart: Chunks
    var totalFree: nat
    var persistenceSize: nat
    var fragmentationPercent: nat
    /** Sum of the remainders that splitting allocations have put back. */
    ghost var splitRemainders: nat

    /** The free sectors. */
    ghost function Free(): set<nat>
      reads this
    {
      Cover(byStart)
    }

    /** The two maps and the figures fit each other. The free-byte figure counts the bytes of all chunks, and once more
        every remainder that a splitting allocation has put back. */
    ghost predicate Tallied()
      reads this
    {
      && SameChunks(bySize, byStart) && NonEmpty(byStart)
      && totalFree == BytesIn(TotalSize(byStart) + splitRemainders)
      && fragmentationPercent <= 100
    }

    /** What every operation keeps: moreover, chunks are in bounds, disjoint and never adjacent. */
    ghost predicate Valid()
      reads this
    {
      Tallied() && ChunksInBounds(persistenceSize, byStart) && Separated(byStart)
    }

    /** The percentage is that of the present chunks. */
    ghost predicate Measured()
      reads this
    {
      exists largest: nat ::
        largest <= totalFree && Largest(byStart, largest) && fragmentationPercent == Fragmentation(totalFree, largest)
    }

    constructor ()
      ensures Valid()
      ensures Free() == {} && byStart == map[] && totalFree == 0 && persistenceSize == 0 && splitRemainders == 0
    {
      bySize, byStart := {}, map[];
      totalFree, persistenceSize, fragmentationPercent := 0, 0, 0;
      splitRemainders := 0;
    }

    /** Sets the device size. Chunks are not looked at, so they may end up out of bounds. */
    method SetPersistenceSize(size: nat)
      requires Tallied()
      modifies this`persistenceSize
      ensures Tallied() && persistenceSize == size
      ensures Separated(byStart) ==> (Valid() <==> ChunksInBounds(size, byStart))
    {
      persistenceSize := size;
    }

    /** Adds everything past the metadata, whatever is there already. */
    method Initialize(size: nat) returns (r: Result<()>)
      requires Tallied()
      modifies this`bySize, this`byStart, this`totalFree, this`persistenceSize
      ensures Tallied() && persistenceSize == size
      ensures r == if size / 4096 <= 16 then Err(InvalidDevice)
                   else if METADATA_BLOCK_SIZE in old(byStart) then Err(DuplicateKey)
                   else Ok(())
      ensures byStart ==
              if r.Ok? then old(byStart)[METADATA_BLOCK_SIZE := DeviceSectors(size) - METADATA_BLOCK_SIZE]
              else old(byStart)
      ensures old(byStart) == map[] && r.Ok? ==>
                Valid() && Free() == Range(16, size / 4096 - 16)
    {
      persistenceSize := size;
      var totalSectors := DeviceSectors(size);
      if totalSectors <= METADATA_BLOCK_SIZE {
        return Err(InvalidDevice);
      }
      assert byStart == map[] ==>
        Free() == {} && Apart(byStart, METADATA_BLOCK_SIZE, totalSectors - METADATA_BLOCK_SIZE);
      r := InsertFreeSpace(SectorStat(METADATA_BLOCK_SIZE, totalSectors - METADATA_BLOCK_SIZE));
    }

    /** Adds a chunk. Whether it touches others is not looked at: chunks stay disjoint and apart exactly if it does
        not. */
    method InsertFreeSpace(space: SectorStat) returns (r: Result<()>)
      requires Tallied()
      modifies this`bySize, this`byStart, this`totalFree
      ensures Tallied()
      ensures r == if space.size == 0 || !ValidFreeSpace(persistenceSize, space) then Err(InvalidArgument)
                   else if space.start in old(byStart) then Err(DuplicateKey)
                   else Ok(())
      ensures r.Ok? ==>
                && byStart == old(byStart)[space.start := space.size]
                && Free() == old(Free()) + Range(space.start, space.size)
      ensures r.Err? ==> bySize == old(bySize) && byStart == old(byStart) && totalFree == old(totalFree)
      ensures old(Valid()) ==> (Valid() <==> r.Err? || Apart(old(byStart), space.start, space.size))
    {
      if space.size == 0 || !ValidFreeSpace(persistenceSize, space) {
        return Err(InvalidArgument);
      }
      if space.start in byStart {
        return Err(DuplicateKey);
      }
      AddedChunk(byStart, space.start, space.size);
      totalFree := totalFree + BytesIn(space.size);
      bySize := bySize + {(space.size, space.start)};
      byStart := byStart[space.start := space.size];
      return Ok(());
    }

    /** `btree_remover` */
    method RemoveSpace(space: SectorStat)
      requires Valid() && space.start in byStart && byStart[space.start] == space.size
      modifies this`bySize, this`byStart, this`totalFree
      ensures Valid()
      ensures byStart == old(byStart) - {space.start}
      ensures Free() == old(Free()) - Range(space.start, space.size)
    {
      RemoveChunk(byStart, space.start);
      bySize := bySize - {(space.size, space.start)};
      byStart := byStart - {space.start};
      totalFree := totalFree - BytesIn(space.size);
    }

    /** The first chunk in the order of `by_size` that is large enough. */
    method FirstFit(sectors: nat) returns (best: Option<SectorStat>)
      requires Valid()
      ensures best.Some? ==> BestFit(byStart, best.value.start, sectors) && byStart[best.value.start] == best.value.size
      ensures best.None? ==> forall s | s in byStart :: byStart[s] < sectors
    {
      best := None;
      var rest := bySize;
      while rest != {}
        invariant rest <= bySize
        invariant forall k | k in bySize && k !in rest :: k.0 < sectors
      {
        ghost var least := LeastKey(rest);
        var key: (nat, nat) :| key in rest && forall k | k in rest :: KeyLe(key, k);
        if key.0 >= sectors {
          forall s | s in byStart && byStart[s] >= sectors
            ensures KeyLe(key, (byStart[s], s))
          {
            assert (byStart[s], s) in bySize;
          }
          assert key == (key.0, key.1);
          return Some(SectorStat(key.1, key.0));
        }
        rest := rest - {key};
      }
      forall s | s in byStart
        ensures byStart[s] < sectors
      {
        assert (byStart[s], s) in bySize;
      }
    }

    method AllocateSectors(sectors: nat) returns (r: Result<nat>)
      requires Valid()
      modifies this
      ensures Valid() && persistenceSize == old(persistenceSize)
      ensures r.Err? ==> byStart == old(byStart) && totalFree == old(totalFree)
      ensures r.Err? ==> r.error == if sectors == 0 then InvalidArgument else OutOfSpace
      ensures r == Err(OutOfSpace) <==> sectors > 0 && forall start: nat :: !(Range(start, sectors) <= old(Free()))
      ensures r.Ok? ==> Range(r.value, sectors) <= old(Free()) && Free() == old(Free()) - Range(r.value, sectors)
      ensures r.Ok? ==> BestFit(old(byStart), r.value, sectors)
      ensures splitRemainders == old(splitRemainders) + if r.Ok? then old(byStart)[r.value] - sectors else 0
      ensures r.Ok? ==> Measured()
    {
      if sectors == 0 {
        return Err(InvalidArgument);
      }
      var bestFit := FirstFit(sectors);
      if bestFit.None? {
        NoRun(byStart, sectors);
        return Err(OutOfSpace);
      }
      r := TakeFrom(bestFit.value, sectors);
    }

    method GetLargestFreeChunk() returns (largest: nat)
      requires Tallied()
      ensures largest <= totalFree && Largest(byStart, largest)
    {
      if bySize == {} {
        assert forall s | s in byStart :: (byStart[s], s) in bySize;
        return 0;
      }
      ghost var greatest := GreatestKey(bySize);
      var key: (nat, nat) :| key in bySize && forall k | k in bySize :: KeyLe(k, key);
      assert key == (key.0, key.1);
      ChunkFits(byStart, key.1);
      forall s | s in byStart
        ensures byStart[s] <= key.0
      {
        assert (byStart[s], s) in bySize;
        assert KeyLe((byStart[s], s), key);
      }
      return BytesIn(key.0);
    }

    method UpdateFragmentation()
      requires Tallied()
      modifies this`fragmentationPercent
      ensures Tallied() && Measured() && (Valid() <==> old(Valid()))
    {
      var largest := GetLargestFreeChunk();
      if totalFree == 0 {
        fragmentationPercent := 0;
        return;
      }
      fragmentationPercent := Fragmentation(totalFree, largest);
    }

    /** Takes a chunk out of both maps but leaves its bytes in the free-byte figure. */
    method DetachSpace(stat: SectorStat)
      requires Valid() && stat.start in byStart && byStart[stat.start] == stat.size
      modifies this`bySize, this`byStart, this`splitRemainders
      ensures Valid()
      ensures byStart == old(byStart) - {stat.start} && splitRemainders == old(splitRemainders) + stat.size
      ensures Range(stat.start, stat.size) <= old(Free()) && Free() == old(Free()) - Range(stat.start, stat.size)
    {
      RemoveChunk(byStart, stat.start);
      bySize := bySize - {(stat.size, stat.start)};
      byStart := byStart - {stat.start};
      splitRemainders := splitRemainders + stat.size;
    }

    /** Puts the tail of a detached chunk back. */
    method PutBack(stat: SectorStat, sectors: nat) returns (r: Result<()>)
      requires Valid() && sectors <= stat.size && ValidFreeSpace(persistenceSize, stat)
      requires stat.start + sectors !in byStart && Apart(byStart, stat.start + sectors, stat.size - sectors)
      modifies this`bySize, this`byStart, this`totalFree
      ensures Valid() && r.Ok?
      ensures Free() == old(Free()) + Range(stat.start + sectors, stat.size - sectors)
    {
      if stat.size > sectors {
        r := InsertFreeSpace(SectorStat(stat.start + sectors, stat.size - sectors));
      } else {
        assert Range(stat.start + sectors, 0) == {};
        r := Ok(());
      }
    }

    /** Takes the first sectors of a chunk and puts the rest back; the free-byte figure then counts the rest twice. */
    method TakeFrom(stat: SectorStat, sectors: nat) returns (r: Result<nat>)
      requires Valid() && stat.start in byStart && byStart[stat.start] == stat.size && 0 < sectors <= stat.size
      modifies this
      ensures Valid() && persistenceSize == old(persistenceSize)
      ensures r == Ok(stat.start)
      ensures Range(stat.start, sectors) <= old(Free()) && Free() == old(Free()) - Range(stat.start, sectors)
      ensures splitRemainders == old(splitRemainders) + (stat.size - sectors) && Measured()
    {
      if !ValidFreeSpace(persistenceSize, stat) {
        assert false;
        return Err(CorruptedData);
      }
      RemainderApart(byStart, stat.start, sectors);
      DetachSpace(stat);
      PutBackTail(old(Free()), stat.start, stat.size, sectors);
      var inserted := PutBack(stat, sectors);
      assert inserted.Ok?;  // so the roll-back of a failed insertion is never needed
      Debit(sectors);
      return Ok(stat.start);
    }

    /** Takes allocated sectors off the free-byte figure. */
    method Debit(sectors: nat)
      requires Valid() && sectors <= splitRemainders
      modifies this`totalFree, this`splitRemainders, this`fragmentationPercent
      ensures Valid() && Measured() && splitRemainders == old(splitRemainders) - sectors
    {
      totalFree := totalFree - BytesIn(sectors);
      splitRemainders := splitRemainders - sectors;
      UpdateFragmentation();
    }

    /** Takes the chunks on either side of a range out and joins them with it. The result touches no other chunk exactly
        if the range was not free. */
    method TryMergeSpaces(start: nat, size: nat) returns (merged: SectorStat)
      requires Valid() && size > 0
      modifies this`bySize, this`byStart, this`totalFree
      ensures Valid() && Free() + Range(merged.start, merged.size) == old(Free()) + Range(start, size)
      ensures JoinsLeft(old(byStart), start, merged.start)
      ensures merged.start + merged.size ==
              start + size + if start + size in old(byStart) then old(byStart)[start + size] else 0
      ensures byStart == old(byStart) - (if merged.start < start then {merged.start} else {}) - {start + size}
      ensures Apart(byStart, merged.start, merged.size) <==> Range(start, size) !! old(Free())
    {
      var left := MergePrevious(start, size);
      merged := MergeNext(left);
      if !(Range(start, size) !! old(Free())) {
        OverlapRemains(old(byStart), byStart, start, size, merged.start, merged.size);
      }
    }

    method MergeNext(space: SectorStat) returns (merged: SectorStat)
      requires Valid() && space.size > 0
      modifies this`bySize, this`byStart, this`totalFree
      ensures Valid() && Free() + Range(merged.start, merged.size) == old(Free()) + Range(space.start, space.size)
      ensures merged.start == space.start && byStart == old(byStart) - {space.start + space.size}
      ensures var end := space.start + space.size;
        merged.size == space.size + if end in old(byStart) then old(byStart)[end] else 0
      ensures ApartOnLeft(old(byStart), space.start, space.size) ==> Apart(byStart, merged.start, merged.size)
    {
      var end := space.start + space.size;
      if end !in byStart {
        assert byStart - {end} == byStart;
        return space;
      }
      AbsorbRight(byStart, space.start, space.size);
      var next := SectorStat(end, byStart[end]);
      RemoveSpace(next);
      return SectorStat(space.start, space.size + next.size);
    }

    method MergePrevious(start: nat, size: nat) returns (merged: SectorStat)
      requires Valid() && size > 0
      modifies this`bySize, this`byStart, this`totalFree
      ensures Valid() && Free() + Range(merged.start, merged.size) == old(Free()) + Range(start, size)
      ensures JoinsLeft(old(byStart), start, merged.start) && merged.start + merged.size == start + size
      ensures byStart == old(byStart) - if merged.start < start then {merged.start} else {}
      ensures Range(start, size) !! old(Free()) ==> ApartOnLeft(byStart, merged.start, merged.size)
    {
      var prev := ChunkEndingAt(start);
      if prev.None? {
        if Range(start, size) !! Free() {
          NothingOnLeft(byStart, start, size);
        }
        return SectorStat(start, size);
      }
      AbsorbLeft(byStart, start, size, prev.value.start);
      RemoveSpace(prev.value);
      return SectorStat(prev.value.start, prev.value.size + size);
    }

    /** Gives back a range. Whether it is free is not looked at: the chunks stay in order exactly if it is not. A range
        that starts in the metadata, or where a chunk starts, is refused only after the chunk that follows it has been
        taken out, and that chunk is lost. */
    method ReleaseSectors(start: nat, size: nat) returns (r: Result<()>)
      requires Valid()
      modifies this
      ensures Tallied() && persistenceSize == old(persistenceSize) && splitRemainders == old(splitRemainders)
      ensures r == if start < METADATA_BLOCK_SIZE || size == 0 || !ValidSectorRange(persistenceSize, start, size)
                   then Err(InvalidArgument)
                   else if start in old(byStart) then Err(DuplicateKey)
                   else Ok(())
      ensures r.Ok? ==> Free() == old(Free()) + Range(start, size) && Measured()
      ensures r.Ok? ==> (Valid() <==> Range(start, size) !! old(Free()))
      ensures Range(start, size) !! old(Free()) ==>
                (r.Ok? <==> start >= METADATA_BLOCK_SIZE && size > 0 && ValidSectorRange(persistenceSize, start, size))
      ensures r.Err? ==>
                && Valid()
                && byStart == if start == 0 || size == 0 || !ValidSectorRange(persistenceSize, start, size)
                              then old(byStart) else old(byStart) - {start + size}
    {
      if start == 0 || size == 0 {
        return Err(InvalidArgument);
      }
      if !ValidSectorRange(persistenceSize, start, size) {
        return Err(InvalidArgument);
      }
      if start in byStart {
        StartIsCovered(byStart, start, size);
      }
      var merged := TryMergeSpaces(start, size);
      MergedInBounds(persistenceSize, old(byStart), start, size, merged);
      r := InsertMerged(merged);
    }

    /** Adds the merged chunk and brings the fragmentation up to date. */
    method InsertMerged(merged: SectorStat) returns (r: Result<()>)
      requires Valid()
      modifies this
      ensures Tallied() && persistenceSize == old(persistenceSize) && splitRemainders == old(splitRemainders)
      ensures r == if merged.size == 0 || !ValidFreeSpace(persistenceSize, merged) then Err(InvalidArgument)
                   else if merged.start in old(byStart) then Err(DuplicateKey)
                   else Ok(())
      ensures r.Ok? ==> Free() == old(Free()) + Range(merged.start, merged.size) && Measured()
      ensures r.Err? ==> byStart == old(byStart)
      ensures Valid() <==> r.Err? || Apart(old(byStart), merged.start, merged.size)
    {
      r := InsertFreeSpace(merged);
      if r.Ok? {
        UpdateFragmentation();
      }
    }

    /** The chunk just below `start`, if it ends there. */
    method ChunkEndingAt(start: nat) returns (prev: Option<SectorStat>)
      requires Valid()
      ensures prev.Some? ==> prev.value.start in byStart && byStart[prev.value.start] == prev.value.size
      ensures prev.Some? ==> prev.value.start + prev.value.size == start
      ensures prev.None? ==> forall s | s in byStart :: s + byStart[s] != start
    {
      prev := None;
      var below := set s | s in byStart && s < start;
      if below == {} {
        forall t | t in byStart
          ensures t + byStart[t] != start
        {
          assert t !in below;
        }
      } else {
        ghost var greatest := GreatestNat(below);
        var s: nat :| s in below && forall t | t in below :: t <= s;
        if s + byStart[s] == start {
          return Some(SectorStat(s, byStart[s]));
        }
        forall t | t in byStart
          ensures t + byStart[t] != start
        {
          InOrder(byStart, t, s);
          assert t < start ==> t in below;
        }
      }
    }

    /** The free-byte figure in terms of the free sectors: it is exact as long as no allocation split a chunk. */
    lemma FreeBytes()
      requires Valid()
      ensures totalFree == BLOCK_SIZE * |Free()| + BLOCK_SIZE * splitRemainders
    {
      CoverSize(byStart);
    }
  }
}
