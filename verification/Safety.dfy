/** Every step of the write-behind protocol keeps its invariant. */
module Safety {
  import opened Base
  import opened Format
  import opened WriteBehind

  // ----- what a change leaves alone

  /** Loading a record reads no sector outside its extent. */
  lemma LoadFrame(d: Disk, e: Disk, r: Record)
    requires |d| == |e| && r.sector != 0 && r.sector + SizeOf(r) <= |d|
    requires forall i | r.sector <= i < r.sector + SizeOf(r) :: d[i] == e[i]
    ensures LoadValue(d, true, r) == LoadValue(e, true, r)
  {
    var n := SizeOf(r);
    assert d[r.sector..r.sector + n] == e[r.sector..r.sector + n];
    LoadReadsExtent(d, r);
    LoadReadsExtent(e, r);
  }

  /** The sectors of an extent are the same in both states. */
  ghost predicate SameSectors(s: State, t: State, x: Option<Extent>) {
    x.Some? ==> forall i | x.value.start <= i < x.value.start + x.value.count && i < |s.disk| && i < |t.disk| ::
      s.disk[i] == t.disk[i]
  }

  /** A record that does not change stays all right if its extent is neither freed nor, while it can be read,
      overwritten. */
  lemma SlotFrame(s: State, t: State, r: nat)
    requires r < |s.slots| && r < |t.slots| && SlotOk(s, r)
    requires t.slots[r] == s.slots[r] && |t.disk| == |s.disk|
    requires s.slots[r].extent.Some? ==> Range(s.slots[r].extent.value.start, s.slots[r].extent.value.count) !! t.free
    requires s.slots[r].del.Nowhere? && s.slots[r].rec.sector != 0 ==> SameSectors(s, t, s.slots[r].extent)
    ensures SlotOk(t, r)
    ensures s.slots[r].del.Nowhere? ==> ValueOf(t.disk, t.slots[r].rec) == ValueOf(s.disk, s.slots[r].rec)
  {
    var x := s.slots[r];
    if x.del.Nowhere? && x.rec.sector != 0 {
      LoadFrame(s.disk, t.disk, x.rec);
    }
  }

  ghost predicate SameSize(x: Slot, y: Slot) {
    y.rec.key == x.rec.key && y.rec.valueLen == x.rec.valueLen
  }

  /** What the queue of lane `w` relies on in a record. */
  ghost predicate SameForQueue(x: Slot, y: Slot, w: nat) {
    SameSize(x, y) && (x.put == Pending(w) ==> y.put == x.put) && (x.del == Pending(w) ==> y.del == x.del)
  }

  /** What the batch of lane `w` relies on in a record. */
  ghost predicate SameForBatch(x: Slot, y: Slot, w: nat) {
    SameSize(x, y) && (x.put == Listed(w) ==>
      && y.put == x.put
      && (x.rec.sector == 0 ==> y.rec.sector == 0 && y.rec.value == x.rec.value && y.extent == x.extent)
      && (x.rec.sector != 0 ==> y.rec.sector != 0))
  }

  /** What the deletions of lane `w` rely on in a record. */
  ghost predicate SameForDeletions(x: Slot, y: Slot, w: nat) {
    SameSize(x, y) && (x.del == Listed(w) ==>
      y.del == x.del && y.extent == x.extent && y.rec.sector == x.rec.sector)
  }

  ghost predicate SameFor(x: Slot, y: Slot, w: nat) {
    SameForQueue(x, y, w) && SameForBatch(x, y, w) && SameForDeletions(x, y, w)
  }

  lemma QueueKept(s: State, t: State, w: nat)
    requires w < |s.lanes| && w < |t.lanes| && QueueOk(s, w) && t.lanes[w].queue == s.lanes[w].queue
    requires |s.slots| <= |t.slots| && forall r | 0 <= r < |s.slots| :: SameForQueue(s.slots[r], t.slots[r], w)
    ensures QueueOk(t, w)
  {
    var q := s.lanes[w].queue;
    forall i | 0 <= i < |q|
      ensures EntryOk(t, w, q[i])
    {
      assert EntryOk(s, w, q[i]);
    }
  }

  lemma QueuePopped(s: State, t: State, w: nat)
    requires w < |s.lanes| && w < |t.lanes| && QueueOk(s, w) && s.lanes[w].queue != []
    requires t.lanes[w].queue == s.lanes[w].queue[1..]
    requires |s.slots| == |t.slots|
    requires var e := s.lanes[w].queue[0];
      && (forall r | 0 <= r < |s.slots| && r != e.rid :: t.slots[r] == s.slots[r])
      && e.rid < |s.slots| && SameSize(s.slots[e.rid], t.slots[e.rid])
      && (if e.kind.Delete? then t.slots[e.rid].put == s.slots[e.rid].put
          else t.slots[e.rid].del == s.slots[e.rid].del)
    ensures QueueOk(t, w)
  {
    var q := s.lanes[w].queue;
    var p := t.lanes[w].queue;
    forall i | 0 <= i < |p|
      ensures EntryOk(t, w, p[i])
    {
      assert p[i] == q[i + 1] && EntryOk(s, w, q[i + 1]);
      assert !SameTarget(q[0], q[i + 1]);
    }
    forall i, j | 0 <= i < j < |p|
      ensures !SameTarget(p[i], p[j])
    {
      assert !SameTarget(q[i + 1], q[j + 1]);
    }
  }

  /** Outside the publishing phases the batch only relies on its records. */
  lemma BatchKept(s: State, t: State, w: nat)
    requires w < |s.lanes| && w < |t.lanes| && PhaseOk(s.lanes[w]) && PhaseOk(t.lanes[w]) && BatchOk(s, w)
    requires t.lanes[w].batch == s.lanes[w].batch
    requires !s.lanes[w].phase.Clear? && !t.lanes[w].phase.Publish? && !t.lanes[w].phase.Clear?
    requires |s.slots| <= |t.slots| && forall r | 0 <= r < |s.slots| :: SameForBatch(s.slots[r], t.slots[r], w)
    ensures BatchOk(t, w)
  {
    var b := s.lanes[w].batch;
    forall i | 0 <= i < |b|
      ensures WriteOk(t, w, b[i])
    {
      assert WriteOk(s, w, b[i]);
    }
  }

  lemma DeletionsKept(s: State, t: State, w: nat)
    requires w < |s.lanes| && w < |t.lanes| && DeletionsOk(s, w) && t.lanes[w].deletions == s.lanes[w].deletions
    requires |s.slots| <= |t.slots| && forall r | 0 <= r < |s.slots| :: SameForDeletions(s.slots[r], t.slots[r], w)
    ensures DeletionsOk(t, w)
  {
    var d := s.lanes[w].deletions;
    forall i | 0 <= i < |d|
      ensures DeletionOk(t, w, d[i])
    {
      assert DeletionOk(s, w, d[i]);
    }
  }

  lemma OthersApart(s: State, r: nat)
    requires ExtentsApart(s) && r < |s.slots|
    ensures forall q | 0 <= q < |s.slots| && q != r ::
              Apart(s.slots[q].extent, s.slots[r].extent) && Apart(s.slots[r].extent, s.slots[q].extent)
  {
    forall q | 0 <= q < |s.slots| && q != r
      ensures Apart(s.slots[q].extent, s.slots[r].extent) && Apart(s.slots[r].extent, s.slots[q].extent)
    {
      if q < r {
        assert Apart(s.slots[q].extent, s.slots[r].extent);
      } else {
        assert Apart(s.slots[r].extent, s.slots[q].extent);
      }
    }
  }

  lemma OthersNotFree(s: State)
    requires Inv(s)
    ensures forall q | 0 <= q < |s.slots| && s.slots[q].extent.Some? ::
              Range(s.slots[q].extent.value.start, s.slots[q].extent.value.count) !! s.free
  {
    forall q | 0 <= q < |s.slots| && s.slots[q].extent.Some?
      ensures Range(s.slots[q].extent.value.start, s.slots[q].extent.value.count) !! s.free
    {
      assert SlotOk(s, q);
    }
  }

  lemma LaneFrame(s: State, t: State, w: nat)
    requires w < |s.lanes| && w < |t.lanes| && LaneOk(s, w)
    requires t.lanes[w] == s.lanes[w]
    requires |s.slots| <= |t.slots| && |t.disk| == |s.disk|
    requires forall r | 0 <= r < |s.slots| :: SameFor(s.slots[r], t.slots[r], w)
    requires forall i | Published(s.lanes[w]) <= i < |s.lanes[w].batch|
             && (s.lanes[w].phase.Publish? || s.lanes[w].phase.Clear?)
               :: OnDisk(t, s.lanes[w].batch[i])
    ensures LaneOk(t, w)
  {
    var l := s.lanes[w];
    QueueKept(s, t, w);
    DeletionsKept(s, t, w);
    forall i | Published(l) <= i < |l.batch|
      ensures WriteOk(t, w, l.batch[i])
    {
      assert WriteOk(s, w, l.batch[i]);
    }
  }

  // ----- steps that change one lane and nothing else

  lemma LaneOnlyStep(s: State, t: State, w: nat)
    requires Inv(s) && w < |s.lanes| && |t.lanes| == |s.lanes|
    requires t == s.(lanes := s.lanes[w := t.lanes[w]])
    requires LaneOk(t, w)
    ensures Inv(t) && Contents(t) == Contents(s)
  {
    forall v | 0 <= v < |t.lanes|
      ensures LaneOk(t, v)
    {
      if v != w {
        LaneFrame(s, t, v);
      }
    }
    forall r | 0 <= r < |t.slots|
      ensures SlotOk(t, r)
    {
      assert SlotOk(s, r);
    }
    forall k | k in t.table
      ensures TableOk(t, k)
    {
      assert TableOk(s, k);
    }
  }

  // ----- steps that change one lane and one record

  /** Record `x` becomes `y` without anyone but lane `w` noticing. */
  ghost predicate Unnoticed(s: State, t: State, x: Slot, y: Slot) {
    && y.rec.key == x.rec.key
    && (x.del.Nowhere? ==>
          && y.del.Nowhere? && y.rec.refcount == x.rec.refcount
          && ValueOf(t.disk, y.rec) == ValueOf(s.disk, x.rec))
  }

  lemma SlotStep(s: State, t: State, w: nat, r: nat)
    requires Inv(s) && w < |s.lanes| && r < |s.slots|
    requires |t.slots| == |s.slots| && t.slots == s.slots[r := t.slots[r]]
    requires |t.lanes| == |s.lanes| && t.lanes == s.lanes[w := t.lanes[w]]
    requires t.table == s.table && t.disk == s.disk && FreeInRange(t)
    requires SlotOk(t, r) && LaneOk(t, w)
    requires forall v | 0 <= v < |s.lanes| && v != w :: SameFor(s.slots[r], t.slots[r], v)
    requires Unnoticed(s, t, s.slots[r], t.slots[r])
    requires forall q | 0 <= q < |s.slots| && q != r && s.slots[q].extent.Some? ::
               Range(s.slots[q].extent.value.start, s.slots[q].extent.value.count) !! t.free
    requires forall q | 0 <= q < |s.slots| && q != r ::
               Apart(s.slots[q].extent, t.slots[r].extent) && Apart(t.slots[r].extent, s.slots[q].extent)
    ensures Inv(t) && Contents(t) == Contents(s)
  {
    forall v | 0 <= v < |t.lanes|
      ensures LaneOk(t, v)
    {
      if v != w {
        LaneFrame(s, t, v);
      }
    }
    forall q | 0 <= q < |t.slots|
      ensures SlotOk(t, q)
      ensures s.slots[q].del.Nowhere? ==> ValueOf(t.disk, t.slots[q].rec) == ValueOf(s.disk, s.slots[q].rec)
    {
      if q != r {
        SlotFrame(s, t, q);
      }
    }
    forall k | k in t.table
      ensures TableOk(t, k)
    {
      assert TableOk(s, k);
    }
    forall a, b | 0 <= a < b < |t.slots|
      ensures Apart(t.slots[a].extent, t.slots[b].extent)
    {
      assert Apart(s.slots[a].extent, s.slots[b].extent);
    }
    forall k | k in s.table
      ensures Contents(t)[k] == Contents(s)[k]
    {
      assert TableOk(s, k);
    }
  }

  // ----- steps that write to the disk

  /** Lane `w` may write to the record's extent: the record is on its list of deletions, or in its batch and not
      published. */
  ghost predicate Writable(x: Slot, w: nat) {
    x.del == Listed(w) || (x.put == Listed(w) && x.rec.sector == 0)
  }

  lemma DiskStep(s: State, t: State, w: nat)
    requires Inv(s) && w < |s.lanes|
    requires t.slots == s.slots && t.table == s.table && t.free == s.free && |t.disk| == |s.disk|
    requires |t.lanes| == |s.lanes| && t.lanes == s.lanes[w := t.lanes[w]]
    requires LaneOk(t, w)
    requires forall r | 0 <= r < |s.slots| && !Writable(s.slots[r], w) :: SameSectors(s, t, s.slots[r].extent)
    ensures Inv(t) && Contents(t) == Contents(s)
  {
    forall v | 0 <= v < |t.lanes| && v != w
      ensures LaneOk(t, v)
    {
      var l := s.lanes[v];
      assert LaneOk(s, v);
      forall i | Published(l) <= i < |l.batch| && (l.phase.Publish? || l.phase.Clear?)
        ensures OnDisk(t, l.batch[i])
      {
        var x := l.batch[i];
        assert WriteOk(s, v, x) && OnDisk(s, x);
        assert SlotOk(s, x.rid);
        assert !Writable(s.slots[x.rid], w);
        assert t.disk[x.start..x.start + |x.data|] == s.disk[x.start..x.start + |x.data|];
      }
      LaneFrame(s, t, v);
    }
    forall r | 0 <= r < |t.slots|
      ensures SlotOk(t, r)
      ensures s.slots[r].del.Nowhere? ==> ValueOf(t.disk, t.slots[r].rec) == ValueOf(s.disk, s.slots[r].rec)
    {
      assert SlotOk(s, r);
      SlotFrame(s, t, r);
    }
    forall k | k in t.table
      ensures TableOk(t, k)
      ensures ValueOf(t.disk, t.slots[t.table[k]].rec) == ValueOf(s.disk, s.slots[s.table[k]].rec)
    {
      assert TableOk(s, k);
    }
  }

  // ----- collecting

  /** A deletion for the record at the head of the queue joins the list. */
  lemma DeletionAppended(s: State, t: State, w: nat)
    requires w < |s.lanes| && w < |t.lanes| && DeletionsOk(s, w) && QueueOk(s, w) && s.lanes[w].queue != []
    requires |t.slots| == |s.slots| && t.lanes[w].deletions != []
    requires var d, e := t.lanes[w].deletions, s.lanes[w].queue[0];
      && d[..|d| - 1] == s.lanes[w].deletions
      && e.kind.Delete? && d[|d| - 1].rid == e.rid && DeletionOk(t, w, d[|d| - 1])
      && forall r | 0 <= r < |s.slots| && r != e.rid :: t.slots[r] == s.slots[r]
    ensures DeletionsOk(t, w)
  {
    var d, before := t.lanes[w].deletions, s.lanes[w].deletions;
    assert EntryOk(s, w, s.lanes[w].queue[0]);
    forall i | 0 <= i < |before|
      ensures DeletionOk(t, w, d[i]) && d[i].rid != d[|d| - 1].rid
    {
      assert d[i] == before[i] && DeletionOk(s, w, before[i]);
    }
    forall i, j | 0 <= i < j < |d|
      ensures d[i].rid != d[j].rid
    {
      assert j < |d| - 1 ==> d[i] == before[i] && d[j] == before[j];
    }
  }

  lemma CheckKeepsInv(s: State, w: nat)
    requires Inv(s) && Enabled(s, CheckEntry(w))
    ensures Inv(Checked(s, w)) && Contents(Checked(s, w)) == Contents(s)
  {
    var t, l := Checked(s, w), s.lanes[w];
    assert LaneOk(s, w);
    var e := l.queue[0];
    assert EntryOk(s, w, e);
    var x := s.slots[e.rid];
    assert SlotOk(s, e.rid);
    BatchKept(s, t, w);
    if !e.kind.Delete? && x.rec.refcount > 0 && x.rec.sector == 0 {
      QueueKept(s, t, w);
      DeletionsKept(s, t, w);
      LaneOnlyStep(s, t, w);
    } else {
      QueuePopped(s, t, w);
      if e.kind.Delete? && x.rec.sector != 0 {
        ReleasedIsPrefix(|x.rec.key|, x.rec.valueLen, e.oldLen);
        DeletionAppended(s, t, w);
      } else {
        DeletionsKept(s, t, w);
      }
      OthersApart(s, e.rid);
      OthersNotFree(s);
      SlotStep(s, t, w, e.rid);
    }
  }

  lemma RangeApart(a: Extent, free: set<nat>, start: nat, count: nat)
    requires Range(a.start, a.count) !! free && Range(start, count) <= free && count > 0 && a.count > 0
    ensures Apart(Some(a), Some(Extent(start, count))) && Apart(Some(Extent(start, count)), Some(a))
  {
    var i := if a.start <= start then start else a.start;
    assert i in Range(start, count) <==> Within(i, start, count);
    assert i in Range(a.start, a.count) <==> Within(i, a.start, a.count);
  }

  /** The record at the head of the queue joins the batch. */
  lemma WriteAppended(s: State, t: State, w: nat)
    requires w < |s.lanes| && w < |t.lanes| && PhaseOk(s.lanes[w]) && PhaseOk(t.lanes[w])
    requires BatchOk(s, w) && QueueOk(s, w) && s.lanes[w].queue != []
    requires s.lanes[w].phase.Allocate? && t.lanes[w].phase.Collect?
    requires |t.slots| == |s.slots| && t.lanes[w].batch != []
    requires var b, e := t.lanes[w].batch, s.lanes[w].queue[0];
      && b[..|b| - 1] == s.lanes[w].batch
      && !e.kind.Delete? && b[|b| - 1].rid == e.rid && WriteOk(t, w, b[|b| - 1])
      && forall r | 0 <= r < |s.slots| && r != e.rid :: t.slots[r] == s.slots[r]
    ensures BatchOk(t, w)
  {
    var b, before := t.lanes[w].batch, s.lanes[w].batch;
    assert EntryOk(s, w, s.lanes[w].queue[0]);
    forall i | 0 <= i < |before|
      ensures WriteOk(t, w, b[i]) && b[i].rid != b[|b| - 1].rid
    {
      assert b[i] == before[i] && WriteOk(s, w, before[i]);
    }
    forall i, j | 0 <= i < j < |b|
      ensures b[i].rid != b[j].rid
    {
      assert j < |b| - 1 ==> b[i] == before[i] && b[j] == before[j];
    }
  }

  lemma AllocateKeepsInv(s: State, w: nat, start: nat)
    requires Inv(s) && Enabled(s, AllocateExtent(w, start))
    ensures Inv(Allocated(s, w, start)) && Contents(Allocated(s, w, start)) == Contents(s)
  {
    var t, l := Allocated(s, w, start), s.lanes[w];
    assert LaneOk(s, w);
    var rid := l.queue[0].rid;
    assert EntryOk(s, w, l.queue[0]);
    assert SlotOk(s, rid);
    var x := s.slots[rid];
    var n := SizeOf(x.rec);
    PreparedValue(x.rec);
    assert Within(start, start, n) && Within(start + n - 1, start, n);
    assert start in s.free && start + n - 1 in s.free;
    QueuePopped(s, t, w);
    DeletionsKept(s, t, w);
    WriteAppended(s, t, w);
    OthersNotFree(s);
    forall q | 0 <= q < |s.slots| && q != rid
      ensures Apart(s.slots[q].extent, t.slots[rid].extent) && Apart(t.slots[rid].extent, s.slots[q].extent)
    {
      if s.slots[q].extent.Some? {
        assert SlotOk(s, q);
        RangeApart(s.slots[q].extent.value, s.free, start, n);
      }
    }
    SlotStep(s, t, w, rid);
  }

  // ----- deletions

  lemma FreeGrows(s: State, extent: Extent, count: nat, free: set<nat>)
    requires FreeInRange(s) && 16 <= extent.start && extent.start + extent.count <= |s.disk| && count <= extent.count
    requires free == s.free + Range(extent.start, count)
    ensures forall i | i in free :: 16 <= i < |s.disk|
  {
  }

  /** Releasing part of one extent frees no sector of another. */
  lemma OthersStayOwned(s: State, r: nat, count: nat)
    requires Inv(s) && r < |s.slots| && s.slots[r].extent.Some? && count <= s.slots[r].extent.value.count
    ensures forall q | 0 <= q < |s.slots| && q != r && s.slots[q].extent.Some? ::
              Range(s.slots[q].extent.value.start, s.slots[q].extent.value.count)
              !! s.free + Range(s.slots[r].extent.value.start, count)
  {
    OthersApart(s, r);
    OthersNotFree(s);
  }

  lemma DeletionPopped(s: State, t: State, w: nat)
    requires w < |s.lanes| && w < |t.lanes| && DeletionsOk(s, w) && s.lanes[w].deletions != []
    requires t.lanes[w].deletions == s.lanes[w].deletions[1..] && |t.slots| == |s.slots|
    requires forall r | 0 <= r < |s.slots| && r != s.lanes[w].deletions[0].rid :: t.slots[r] == s.slots[r]
    ensures DeletionsOk(t, w)
  {
    var d, p := s.lanes[w].deletions, t.lanes[w].deletions;
    forall i | 0 <= i < |p|
      ensures DeletionOk(t, w, p[i])
    {
      assert p[i] == d[i + 1] && DeletionOk(s, w, d[i + 1]);
    }
  }

  lemma ReleaseKeepsInv(s: State, w: nat)
    requires Inv(s) && Enabled(s, ReleaseDeleted(w))
    ensures Inv(Released(s, w)) && Contents(Released(s, w)) == Contents(s)
  {
    var t, l := Released(s, w), s.lanes[w];
    assert LaneOk(s, w);
    var d := l.deletions[0];
    assert DeletionOk(s, w, d) && SlotOk(s, d.rid);
    QueueKept(s, t, w);
    BatchKept(s, t, w);
    DeletionPopped(s, t, w);
    OthersStayOwned(s, d.rid, Freed(d));
    FreeGrows(s, s.slots[d.rid].extent.value, Freed(d), t.free);
    SlotStep(s, t, w, d.rid);
  }

  lemma MarkerKeepsInv(s: State, w: nat, written: Block)
    requires Inv(s) && Enabled(s, WriteMarker(w, written))
    ensures Inv(Next(s, WriteMarker(w, written))) && Contents(Next(s, WriteMarker(w, written))) == Contents(s)
  {
    var t, l := Next(s, WriteMarker(w, written)), s.lanes[w];
    assert LaneOk(s, w);
    var d := l.deletions[0];
    assert DeletionOk(s, w, d) && SlotOk(s, d.rid);
    QueueKept(s, t, w);
    BatchKept(s, t, w);
    DeletionsKept(s, t, w);
    OthersApart(s, d.rid);
    forall r | 0 <= r < |s.slots| && !Writable(s.slots[r], w)
      ensures SameSectors(s, t, s.slots[r].extent)
    {
      assert Apart(s.slots[r].extent, s.slots[d.rid].extent);
    }
    DiskStep(s, t, w);
  }

  // ----- writing the batch

  lemma {:induction false} WriteAllFrame(disk: Disk, batch: seq<Write>, i: nat)
    requires i < |disk| && !InBatch(batch, i)
    ensures WriteAll(disk, batch)[i] == disk[i]
    decreases batch
  {
    if batch != [] {
      var first := WriteAt(disk, batch[0].start, batch[0].data);
      assert forall j | 0 <= j < |batch[1..]| :: batch[1..][j] == batch[j + 1];
      WriteAllFrame(first, batch[1..], i);
      assert !(batch[0].start <= i < batch[0].start + |batch[0].data|);
    }
  }

  /** The sectors of two elements of a batch do not overlap. */
  ghost predicate WritesApart(a: Write, b: Write) {
    a.start + |a.data| <= b.start || b.start + |b.data| <= a.start
  }

  lemma {:induction false} WriteAllStores(disk: Disk, batch: seq<Write>, j: nat, i: nat)
    requires j < |batch| && i < |disk| && batch[j].start <= i < batch[j].start + |batch[j].data|
    requires forall a, b | 0 <= a < b < |batch| :: WritesApart(batch[a], batch[b])
    ensures WriteAll(disk, batch)[i] == batch[j].data[i - batch[j].start]
    decreases batch
  {
    var first, rest := WriteAt(disk, batch[0].start, batch[0].data), batch[1..];
    if j > 0 {
      WriteAllStores(first, rest, j - 1, i);
    } else {
      assert forall k | 0 <= k < |rest| :: rest[k] == batch[k + 1] && WritesApart(batch[0], batch[k + 1]);
      WriteAllFrame(first, rest, i);
    }
  }

  /** A batch that has not been published keeps to the extents of its own records. */
  lemma BatchApart(s: State, w: nat)
    requires Inv(s) && w < |s.lanes| && !s.lanes[w].phase.Clear?
    ensures var b := s.lanes[w].batch; forall i, j | 0 <= i < j < |b| :: WritesApart(b[i], b[j])
    ensures var b := s.lanes[w].batch; forall i | 0 <= i < |b| :: b[i].start + |b[i].data| <= |s.disk|
    ensures forall r | 0 <= r < |s.slots| && !Writable(s.slots[r], w) && s.slots[r].extent.Some? ::
              var x := s.slots[r].extent.value;
              forall i | x.start <= i < x.start + x.count :: !InBatch(s.lanes[w].batch, i)
  {
    assert LaneOk(s, w);
    var b := s.lanes[w].batch;
    forall i | 0 <= i < |b|
      ensures WriteOk(s, w, b[i]) && b[i].start + |b[i].data| <= |s.disk|
    {
      assert WriteOk(s, w, b[i]) && SlotOk(s, b[i].rid);
    }
    forall i, j | 0 <= i < j < |b|
      ensures WritesApart(b[i], b[j])
    {
      assert WriteOk(s, w, b[i]) && WriteOk(s, w, b[j]);
      OthersApart(s, b[i].rid);
      assert Apart(s.slots[b[i].rid].extent, s.slots[b[j].rid].extent);
    }
    forall r, i | 0 <= r < |s.slots| && !Writable(s.slots[r], w) && s.slots[r].extent.Some?
               && s.slots[r].extent.value.start <= i < s.slots[r].extent.value.start + s.slots[r].extent.value.count
      ensures !InBatch(b, i)
    {
      if InBatch(b, i) {
        var j :| 0 <= j < |b| && b[j].start <= i < b[j].start + |b[j].data|;
        assert WriteOk(s, w, b[j]);
        OthersApart(s, b[j].rid);
      }
    }
  }

  lemma BatchWrittenKeepsInv(s: State, w: nat)
    requires Inv(s) && Enabled(s, BatchWritten(w))
    ensures Inv(Next(s, BatchWritten(w))) && Contents(Next(s, BatchWritten(w))) == Contents(s)
  {
    var t, l := Next(s, BatchWritten(w)), s.lanes[w];
    assert LaneOk(s, w);
    BatchApart(s, w);
    QueueKept(s, t, w);
    DeletionsKept(s, t, w);
    forall j | 0 <= j < |l.batch|
      ensures WriteOk(t, w, l.batch[j]) && OnDisk(t, l.batch[j])
    {
      var x := l.batch[j];
      assert WriteOk(s, w, x);
      forall i | x.start <= i < x.start + |x.data|
        ensures t.disk[i] == x.data[i - x.start]
      {
        WriteAllStores(s.disk, l.batch, j, i);
      }
      assert t.disk[x.start..x.start + |x.data|] == x.data;
    }
    forall r | 0 <= r < |s.slots| && !Writable(s.slots[r], w)
      ensures SameSectors(s, t, s.slots[r].extent)
    {
      assert SlotOk(s, r);
      if s.slots[r].extent.Some? {
        forall i | s.slots[r].extent.value.start <= i < s.slots[r].extent.value.start + s.slots[r].extent.value.count
          ensures s.disk[i] == t.disk[i]
        {
          WriteAllFrame(s.disk, l.batch, i);
        }
      }
    }
    DiskStep(s, t, w);
  }

  lemma BatchFailedKeepsInv(s: State, w: nat, torn: Disk)
    requires Inv(s) && Enabled(s, BatchFailed(w, torn))
    ensures Inv(Next(s, BatchFailed(w, torn))) && Contents(Next(s, BatchFailed(w, torn))) == Contents(s)
  {
    var t := Next(s, BatchFailed(w, torn));
    assert LaneOk(s, w);
    BatchApart(s, w);
    QueueKept(s, t, w);
    BatchKept(s, t, w);
    DeletionsKept(s, t, w);
    forall r | 0 <= r < |s.slots| && !Writable(s.slots[r], w)
      ensures SameSectors(s, t, s.slots[r].extent)
    {
      assert SlotOk(s, r);
    }
    DiskStep(s, t, w);
  }

  // ----- publishing and rolling back

  lemma PublishKeepsInv(s: State, w: nat)
    requires Inv(s) && Enabled(s, PublishSector(w))
    ensures Inv(SectorPublished(s, w)) && Contents(SectorPublished(s, w)) == Contents(s)
  {
    var t, l := SectorPublished(s, w), s.lanes[w];
    assert LaneOk(s, w);
    var x := l.batch[0];
    assert WriteOk(s, w, x) && OnDisk(s, x) && SlotOk(s, x.rid);
    LoadReadsExtent(t.disk, t.slots[x.rid].rec);
    QueueKept(s, t, w);
    DeletionsKept(s, t, w);
    forall j | 1 <= j < |l.batch|
      ensures WriteOk(t, w, l.batch[j]) && OnDisk(t, l.batch[j])
    {
      assert WriteOk(s, w, l.batch[j]) && OnDisk(s, l.batch[j]) && l.batch[0].rid != l.batch[j].rid;
    }
    OthersApart(s, x.rid);
    OthersNotFree(s);
    SlotStep(s, t, w, x.rid);
  }

  lemma ClearKeepsLane(s: State, w: nat)
    requires Inv(s) && Enabled(s, ClearValue(w))
    ensures LaneOk(ValueCleared(s, w), w)
  {
    var t, l := ValueCleared(s, w), s.lanes[w];
    assert LaneOk(s, w);
    QueueKept(s, t, w);
    DeletionsKept(s, t, w);
    forall j | 0 <= j < |t.lanes[w].batch|
      ensures WriteOk(t, w, t.lanes[w].batch[j]) && OnDisk(t, t.lanes[w].batch[j])
    {
      assert t.lanes[w].batch[j] == l.batch[j + 1];
      assert WriteOk(s, w, l.batch[j + 1]) && OnDisk(s, l.batch[j + 1]) && l.batch[0].rid != l.batch[j + 1].rid;
    }
  }

  lemma ClearKeepsInv(s: State, w: nat)
    requires Inv(s) && Enabled(s, ClearValue(w))
    ensures Inv(ValueCleared(s, w)) && Contents(ValueCleared(s, w)) == Contents(s)
  {
    var t, l := ValueCleared(s, w), s.lanes[w];
    assert LaneOk(s, w);
    var r := l.batch[0].rid;
    assert SlotOk(s, r);
    if s.slots[r].rec.value.Some? && s.slots[r].del.Nowhere? {
      assert ValueOnDisk(s, r);
    }
    ClearKeepsLane(s, w);
    OthersApart(s, r);
    OthersNotFree(s);
    SlotStep(s, t, w, r);
  }

  lemma RollbackKeepsLane(s: State, w: nat)
    requires Inv(s) && Enabled(s, RollbackOne(w))
    ensures LaneOk(RolledBack(s, w), w)
  {
    var t, l := RolledBack(s, w), s.lanes[w];
    assert LaneOk(s, w) && WriteOk(s, w, l.batch[0]) && SlotOk(s, l.batch[0].rid);
    QueueKept(s, t, w);
    DeletionsKept(s, t, w);
    forall j | 0 <= j < |t.lanes[w].batch|
      ensures WriteOk(t, w, t.lanes[w].batch[j])
    {
      assert t.lanes[w].batch[j] == l.batch[j + 1];
      assert WriteOk(s, w, l.batch[j + 1]) && l.batch[0].rid != l.batch[j + 1].rid;
    }
  }

  lemma RollbackKeepsInv(s: State, w: nat)
    requires Inv(s) && Enabled(s, RollbackOne(w))
    ensures Inv(RolledBack(s, w)) && Contents(RolledBack(s, w)) == Contents(s)
  {
    var t, l := RolledBack(s, w), s.lanes[w];
    assert LaneOk(s, w);
    var x := l.batch[0];
    assert WriteOk(s, w, x) && SlotOk(s, x.rid);
    RollbackKeepsLane(s, w);
    OthersStayOwned(s, x.rid, 1);
    FreeGrows(s, s.slots[x.rid].extent.value, 1, t.free);
    SlotStep(s, t, w, x.rid);
  }

  /** The worker moves on without touching a record: draining, changing phase, giving up. */
  lemma LaneMoveKeepsInv(s: State, step: Step)
    requires Inv(s) && Enabled(s, step)
    requires step.Drain? || step.CollectDone? || step.DeletionsDone? || step.PublishDone? || step.RollbackDone?
    ensures Inv(Next(s, step)) && Contents(Next(s, step)) == Contents(s)
  {
    var t := Next(s, step);
    assert LaneOk(s, step.w);
    QueueKept(s, t, step.w);
    DeletionsKept(s, t, step.w);
    BatchKept(s, t, step.w);
    LaneOnlyStep(s, t, step.w);
  }

  /** Giving up a batch changes only records that nobody but its lane relies on. */
  lemma AbandonedFrame(s: State, w: nat, r: nat)
    requires Inv(s) && w < |s.lanes| && s.lanes[w].phase.Allocate? && r < |s.slots|
    ensures var y := Abandoned(s.slots, s.lanes[w].batch)[r];
      && y.rec == s.slots[r].rec && y.del == s.slots[r].del
      && (y == s.slots[r] || (y.extent.None? && s.slots[r].rec.sector == 0 && s.slots[r].put == Listed(w)))
  {
    assert LaneOk(s, w);
    var b := s.lanes[w].batch;
    if InWrites(b, r) {
      var j :| 0 <= j < |b| && b[j].rid == r;
      assert WriteOk(s, w, b[j]);
    }
  }

  lemma AbortKeepsLane(s: State, w: nat)
    requires Inv(s) && Enabled(s, AbortOutOfSpace(w))
    ensures LaneOk(Aborted(s, w), w)
  {
    var t := Aborted(s, w);
    assert LaneOk(s, w);
    var q, p, n := s.lanes[w].queue, t.lanes[w].queue, s.lanes[w].drained;
    forall i | 0 <= i < |p|
      ensures EntryOk(t, w, p[i])
    {
      assert p[i] == q[i + n] && EntryOk(s, w, q[i + n]);
      AbandonedFrame(s, w, p[i].rid);
    }
    forall i, j | 0 <= i < j < |p|
      ensures !SameTarget(p[i], p[j])
    {
      assert !SameTarget(q[i + n], q[j + n]);
    }
  }

  lemma AbortKeepsInv(s: State, w: nat)
    requires Inv(s) && Enabled(s, AbortOutOfSpace(w))
    ensures Inv(Aborted(s, w)) && Contents(Aborted(s, w)) == Contents(s)
  {
    var t := Aborted(s, w);
    AbortKeepsLane(s, w);
    forall r | 0 <= r < |s.slots|
      ensures SlotOk(t, r)
      ensures t.slots[r].rec == s.slots[r].rec && t.slots[r].del == s.slots[r].del
      ensures forall v | 0 <= v < |s.lanes| && v != w :: SameFor(s.slots[r], t.slots[r], v)
      ensures t.slots[r].extent == s.slots[r].extent || t.slots[r].extent.None?
    {
      assert SlotOk(s, r);
      AbandonedFrame(s, w, r);
    }
    forall v | 0 <= v < |t.lanes|
      ensures LaneOk(t, v)
    {
      if v != w {
        assert LaneOk(s, v);
        LaneFrame(s, t, v);
      }
    }
    forall k | k in t.table
      ensures TableOk(t, k)
    {
      assert TableOk(s, k);
    }
    forall a, b | 0 <= a < b < |t.slots|
      ensures Apart(t.slots[a].extent, t.slots[b].extent)
    {
      assert Apart(s.slots[a].extent, s.slots[b].extent);
    }
  }

  // ----- client operations

  /** Entries join the end of the queue. */
  lemma LaneAppended(s: State, t: State, w: nat, more: seq<Entry>)
    requires w < |s.lanes| && w < |t.lanes| && LaneOk(s, w)
    requires t.lanes[w] == s.lanes[w].(queue := s.lanes[w].queue + more)
    requires |s.slots| <= |t.slots| && t.disk == s.disk
    requires forall r | 0 <= r < |s.slots| :: SameFor(s.slots[r], t.slots[r], w)
    requires forall i | 0 <= i < |more| :: EntryOk(t, w, more[i])
    requires forall i, j | 0 <= i < j < |more| :: !SameTarget(more[i], more[j])
    requires forall i | 0 <= i < |more| ::
               |s.slots| <= more[i].rid || (more[i].kind.Delete? && s.slots[more[i].rid].del.Nowhere?)
    ensures LaneOk(t, w)
  {
    var l, q, p := s.lanes[w], s.lanes[w].queue, t.lanes[w].queue;
    forall i | 0 <= i < |p|
      ensures EntryOk(t, w, p[i])
    {
      if i < |q| {
        assert p[i] == q[i] && EntryOk(s, w, q[i]);
      } else {
        assert p[i] == more[i - |q|];
      }
    }
    forall i, j | 0 <= i < j < |p|
      ensures !SameTarget(p[i], p[j])
    {
      if j < |q| {
        assert !SameTarget(q[i], q[j]);
      } else if i < |q| {
        assert EntryOk(s, w, q[i]);
      } else {
        assert !SameTarget(more[i - |q|], more[j - |q|]);
      }
    }
    DeletionsKept(s, t, w);
    forall i | Published(l) <= i < |l.batch|
      ensures WriteOk(t, w, l.batch[i])
    {
      assert WriteOk(s, w, l.batch[i]);
    }
  }

  /** A client operation: some records change how far their deletion has come, new records appear, the queue of one
      shard grows, and the table moves to records nobody is deleting. */
  lemma ClientStep(s: State, t: State, w: nat)
    requires Inv(s) && w < |s.lanes| && |t.lanes| == |s.lanes| && t.lanes == s.lanes[w := t.lanes[w]]
    requires |s.slots| <= |t.slots| && t.disk == s.disk && t.free == s.free
    requires forall r | 0 <= r < |s.slots| :: t.slots[r].extent == s.slots[r].extent
    requires forall r | |s.slots| <= r < |t.slots| :: t.slots[r].extent.None?
    requires forall r | 0 <= r < |s.slots|, v | 0 <= v < |s.lanes| :: SameFor(s.slots[r], t.slots[r], v)
    requires forall r | 0 <= r < |t.slots| :: SlotOk(t, r)
    requires forall k | k in t.table :: TableOk(t, k)
    requires LaneOk(t, w)
    ensures Inv(t)
  {
    forall v | 0 <= v < |t.lanes|
      ensures LaneOk(t, v)
    {
      if v != w {
        assert LaneOk(s, v);
        LaneFrame(s, t, v);
      }
    }
    forall a, b | 0 <= a < b < |t.slots|
      ensures Apart(t.slots[a].extent, t.slots[b].extent)
    {
      if b < |s.slots| {
        assert Apart(s.slots[a].extent, s.slots[b].extent);
      }
    }
  }

  ghost predicate Unflushed(rec: Record, key: Bytes) {
    rec.key == key && HoldsValue(rec) && rec.sector == 0 && rec.refcount == 1
  }

  lemma PutSlots(s: State, key: Bytes, rec: Record, i: nat)
    requires Inv(s) && i < |s.lanes| && Unflushed(rec, key)
    ensures var t := Put(s, key, rec, i);
      && (forall r | 0 <= r < |t.slots| :: SlotOk(t, r))
      && (forall r | 0 <= r < |s.slots|, v | 0 <= v < |s.lanes| :: SameFor(s.slots[r], t.slots[r], v))
  {
    var t := Put(s, key, rec, i);
    assert key in s.table ==> TableOk(s, key);
    forall r | 0 <= r < |t.slots|
      ensures SlotOk(t, r)
    {
      if r < |s.slots| {
        assert SlotOk(s, r);
      }
    }
  }

  lemma PutTable(s: State, key: Bytes, rec: Record, i: nat)
    requires Inv(s) && i < |s.lanes| && Unflushed(rec, key)
    ensures var t := Put(s, key, rec, i);
      && (forall k | k in t.table :: TableOk(t, k))
      && (forall k | k in s.table && k != key :: TableOk(s, k) && t.slots[t.table[k]] == s.slots[s.table[k]])
  {
    var t := Put(s, key, rec, i);
    assert key in s.table ==> TableOk(s, key);
    forall k | k in s.table && k != key
      ensures TableOk(s, k) && TableOk(t, k) && t.slots[t.table[k]] == s.slots[s.table[k]]
    {
      assert TableOk(s, k);
    }
  }

  lemma PutLane(s: State, key: Bytes, rec: Record, i: nat)
    requires Inv(s) && i < |s.lanes| && Unflushed(rec, key)
    ensures LaneOk(Put(s, key, rec, i), i)
  {
    var t, n := Put(s, key, rec, i), |s.slots|;
    assert LaneOk(s, i);
    if key in s.table {
      assert TableOk(s, key);
      var prior := s.table[key];
      var oldLen := s.slots[prior].rec.valueLen;
      LaneAppended(s, t, i, [Entry(Update, n, oldLen), Entry(Delete, prior, oldLen)]);
    } else {
      LaneAppended(s, t, i, [Entry(Insert, n, 0)]);
    }
  }

  lemma PutKeepsInv(s: State, key: Bytes, rec: Record, i: nat)
    requires Inv(s) && i < |s.lanes| && Unflushed(rec, key)
    ensures Inv(Put(s, key, rec, i))
  {
    PutSlots(s, key, rec, i);
    PutTable(s, key, rec, i);
    PutLane(s, key, rec, i);
    ClientStep(s, Put(s, key, rec, i), i);
  }

  lemma PutContents(s: State, key: Bytes, rec: Record, i: nat)
    requires Inv(s) && i < |s.lanes| && Unflushed(rec, key) && Inv(Put(s, key, rec, i))
    ensures Contents(Put(s, key, rec, i)) == Contents(s)[key := Ok(rec.value.value)]
  {
    PutTable(s, key, rec, i);
  }

  lemma RemoveSlots(s: State, key: Bytes, refcount: nat, oldLen: nat, queued: bool, i: nat)
    requires Inv(s) && i < |s.lanes| && key in s.table
    ensures var t := Remove(s, key, refcount, oldLen, queued, i);
      && (forall r | 0 <= r < |t.slots| :: SlotOk(t, r))
      && (forall r | 0 <= r < |s.slots|, v | 0 <= v < |s.lanes| :: SameFor(s.slots[r], t.slots[r], v))
      && (forall k | k in t.table :: TableOk(t, k) && t.slots[t.table[k]] == s.slots[s.table[k]])
  {
    var t := Remove(s, key, refcount, oldLen, queued, i);
    assert TableOk(s, key);
    forall r | 0 <= r < |t.slots|
      ensures SlotOk(t, r)
    {
      assert SlotOk(s, r);
    }
    forall k | k in t.table
      ensures TableOk(t, k) && t.slots[t.table[k]] == s.slots[s.table[k]]
    {
      assert TableOk(s, k);
    }
  }

  lemma RemoveKeepsInv(s: State, key: Bytes, refcount: nat, oldLen: nat, queued: bool, i: nat)
    requires Inv(s) && i < |s.lanes| && key in s.table
    requires queued ==> oldLen <= s.slots[s.table[key]].rec.valueLen
    ensures Inv(Remove(s, key, refcount, oldLen, queued, i))
  {
    var t := Remove(s, key, refcount, oldLen, queued, i);
    RemoveSlots(s, key, refcount, oldLen, queued, i);
    assert LaneOk(s, i) && TableOk(s, key);
    if queued {
      LaneAppended(s, t, i, [Entry(Delete, s.table[key], oldLen)]);
    } else {
      LaneFrame(s, t, i);
    }
    ClientStep(s, t, i);
  }

  lemma RemoveContents(s: State, key: Bytes, refcount: nat, oldLen: nat, queued: bool, i: nat)
    requires Inv(s) && i < |s.lanes| && key in s.table && Inv(Remove(s, key, refcount, oldLen, queued, i))
    ensures Contents(Remove(s, key, refcount, oldLen, queued, i)) == Contents(s) - {key}
  {
    RemoveSlots(s, key, refcount, oldLen, queued, i);
  }

  /** Records change in what no lane relies on. */
  lemma QuietStep(s: State, t: State)
    requires Inv(s) && t.lanes == s.lanes && t.disk == s.disk && t.free == s.free && |t.slots| == |s.slots|
    requires forall r | 0 <= r < |s.slots| :: t.slots[r].extent == s.slots[r].extent
    requires forall r | 0 <= r < |s.slots|, v | 0 <= v < |s.lanes| :: SameFor(s.slots[r], t.slots[r], v)
    requires forall r | 0 <= r < |t.slots| :: SlotOk(t, r)
    requires forall k | k in t.table :: TableOk(t, k)
    ensures Inv(t)
  {
    forall v | 0 <= v < |t.lanes|
      ensures LaneOk(t, v)
    {
      assert LaneOk(s, v);
      LaneFrame(s, t, v);
    }
    forall a, b | 0 <= a < b < |t.slots|
      ensures Apart(t.slots[a].extent, t.slots[b].extent)
    {
      assert Apart(s.slots[a].extent, s.slots[b].extent);
    }
  }

  /** A record with another expiry. */
  lemma ExpirySlot(s: State, t: State, r: nat, expiry: nat, q: nat)
    requires r < |s.slots| && q < |s.slots| && SlotOk(s, q) && t.disk == s.disk && t.free == s.free
    requires t.slots == s.slots[r := s.slots[r].(rec := s.slots[r].rec.(expiry := expiry))]
    ensures SlotOk(t, q) && ValueOf(t.disk, t.slots[q].rec) == ValueOf(s.disk, s.slots[q].rec)
  {
  }

  lemma SetExpiryKeepsInv(s: State, key: Bytes, expiry: nat)
    requires Inv(s) && Enabled(s, SetExpiry(key, expiry))
    ensures Inv(Next(s, SetExpiry(key, expiry))) && Contents(Next(s, SetExpiry(key, expiry))) == Contents(s)
  {
    var t, r := Next(s, SetExpiry(key, expiry)), s.table[key];
    assert TableOk(s, key);
    forall q | 0 <= q < |t.slots|
      ensures SlotOk(t, q) && ValueOf(t.disk, t.slots[q].rec) == ValueOf(s.disk, s.slots[q].rec)
    {
      assert SlotOk(s, q);
      ExpirySlot(s, t, r, expiry, q);
    }
    forall k | k in t.table
      ensures TableOk(t, k)
    {
      assert TableOk(s, k);
    }
    QuietStep(s, t);
  }


  // ----- runs

  /** What a step means for the user: a put binds the key, a delete or an expiry unbinds it, and nothing that the
      workers do shows. */
  ghost function SpecNext(c: map<Bytes, Result<Bytes>>, step: Step): map<Bytes, Result<Bytes>> {
    match step
    case ClientPut(key, value, _, _, _) => c[key := Ok(value)]
    case ClientDelete(key, _, _) => c - {key}
    case Sweep(key, _) => c - {key}
    case _ => c
  }

  lemma StepIsSafe(s: State, step: Step)
    requires Inv(s) && Enabled(s, step)
    ensures Inv(Next(s, step)) && Contents(Next(s, step)) == SpecNext(Contents(s), step)
  {
    match step
    case ClientPut(key, value, timestamp, expiry, i) =>
      PutKeepsInv(s, key, NewRecord(key, value, timestamp, expiry), i);
      PutContents(s, key, NewRecord(key, value, timestamp, expiry), i);
    case ClientDelete(key, _, i) =>
      RemoveKeepsInv(s, key, 0, s.slots[s.table[key]].rec.valueLen, true, i);
      RemoveContents(s, key, 0, s.slots[s.table[key]].rec.valueLen, true, i);
    case Sweep(key, i) =>
      var rec := s.slots[s.table[key]].rec;
      RemoveKeepsInv(s, key, rec.refcount, 0, rec.sector > 0, i);
      RemoveContents(s, key, rec.refcount, 0, rec.sector > 0, i);
    case SetExpiry(key, expiry) => SetExpiryKeepsInv(s, key, expiry);
    case CheckEntry(w) => CheckKeepsInv(s, w);
    case AllocateExtent(w, start) => AllocateKeepsInv(s, w, start);
    case AbortOutOfSpace(w) => AbortKeepsInv(s, w);
    case WriteMarker(w, written) => MarkerKeepsInv(s, w, written);
    case ReleaseDeleted(w) => ReleaseKeepsInv(s, w);
    case BatchWritten(w) => BatchWrittenKeepsInv(s, w);
    case BatchFailed(w, torn) => BatchFailedKeepsInv(s, w, torn);
    case PublishSector(w) => PublishKeepsInv(s, w);
    case ClearValue(w) => ClearKeepsInv(s, w);
    case RollbackOne(w) => RollbackKeepsInv(s, w);
    case _ => LaneMoveKeepsInv(s, step);
  }

  /** A sequence of steps, each possible where it is taken. */
  ghost predicate IsRun(s: State, steps: seq<Step>)
    requires Inv(s)
    decreases steps
  {
    steps == [] || (Enabled(s, steps[0]) && (StepIsSafe(s, steps[0]); IsRun(Next(s, steps[0]), steps[1..])))
  }

  ghost function Final(s: State, steps: seq<Step>): State
    requires Inv(s) && IsRun(s, steps)
    decreases steps
  {
    if steps == [] then s else (StepIsSafe(s, steps[0]); Final(Next(s, steps[0]), steps[1..]))
  }

  ghost function SpecFinal(c: map<Bytes, Result<Bytes>>, steps: seq<Step>): map<Bytes, Result<Bytes>>
    decreases steps
  {
    if steps == [] then c else SpecFinal(SpecNext(c, steps[0]), steps[1..])
  }

  /** Offloading is invisible: whatever the workers do, and however their writes fail, the store reads as a map that
      only the clients change. */
  lemma {:induction false} RunsRefineMap(s: State, steps: seq<Step>)
    requires Inv(s) && IsRun(s, steps)
    ensures Inv(Final(s, steps))
    ensures Contents(Final(s, steps)) == SpecFinal(Contents(s), steps)
    decreases steps
  {
    if steps != [] {
      StepIsSafe(s, steps[0]);
      RunsRefineMap(Next(s, steps[0]), steps[1..]);
    }
  }

  /** A run can be extended at its end. */
  lemma {:induction false} RunExtends(s: State, steps: seq<Step>, step: Step)
    requires Inv(s) && IsRun(s, steps) && Inv(Final(s, steps)) && Enabled(Final(s, steps), step)
    ensures IsRun(s, steps + [step]) && Final(s, steps + [step]) == Next(Final(s, steps), step)
    decreases steps
  {
    var longer := steps + [step];
    StepIsSafe(s, longer[0]);
    if steps == [] {
      assert longer[1..] == [];
    } else {
      assert longer[0] == steps[0] && longer[1..] == steps[1..] + [step];
      RunExtends(Next(s, steps[0]), steps[1..], step);
    }
  }

  ghost predicate Reaches(s: State, t: State, steps: seq<Step>) {
    Inv(s) && IsRun(s, steps) && Final(s, steps) == t && Inv(t)
  }

  lemma Forward(s: State, t: State, steps: seq<Step>, step: Step)
    requires Reaches(s, t, steps) && Enabled(t, step)
    ensures Reaches(s, Next(t, step), steps + [step])
  {
    RunExtends(s, steps, step);
    StepIsSafe(t, step);
  }

  // ----- runs, state by state

  ghost predicate Follows(states: seq<State>, steps: seq<Step>, i: nat)
    requires i < |steps| < |states|
  {
    Inv(states[i]) && Enabled(states[i], steps[i]) && states[i + 1] == Next(states[i], steps[i])
  }

  ghost predicate SafeAt(states: seq<State>, i: nat)
    requires i < |states|
  {
    Inv(states[i])
  }

  /** The states on the way of a run. */
  ghost predicate History(states: seq<State>, steps: seq<Step>) {
    && |states| == |steps| + 1
    && (forall i {:trigger SafeAt(states, i)} | 0 <= i < |states| :: SafeAt(states, i))
    && (forall i {:trigger Follows(states, steps, i)} | 0 <= i < |steps| :: Follows(states, steps, i))
  }

  lemma HistoryExtends(states: seq<State>, steps: seq<Step>, step: Step)
    requires History(states, steps) && SafeAt(states, |steps|) && Enabled(states[|steps|], step)
    ensures History(states + [Next(states[|steps|], step)], steps + [step])
  {
    var longer, more := states + [Next(states[|steps|], step)], steps + [step];
    StepIsSafe(states[|steps|], step);
    forall i | 0 <= i < |longer|
      ensures SafeAt(longer, i)
    {
      if i < |states| {
        assert SafeAt(states, i);
      }
    }
    forall i | 0 <= i < |more|
      ensures Follows(longer, more, i)
    {
      assert SafeAt(states, i);
      if i < |steps| {
        assert Follows(states, steps, i);
      }
    }
  }

  lemma {:induction false} HistoryIsRun(states: seq<State>, steps: seq<Step>)
    requires History(states, steps)
    ensures Inv(states[0]) && Inv(states[|steps|])
    ensures IsRun(states[0], steps) && Final(states[0], steps) == states[|steps|]
    decreases steps
  {
    assert SafeAt(states, 0) && SafeAt(states, |steps|);
    if steps != [] {
      assert Follows(states, steps, 0);
      StepIsSafe(states[0], steps[0]);
      var later, rest := states[1..], steps[1..];
      forall i | 0 <= i < |later|
        ensures SafeAt(later, i)
      {
        assert SafeAt(states, i + 1);
      }
      forall i | 0 <= i < |rest|
        ensures Follows(later, rest, i)
      {
        assert Follows(states, steps, i + 1);
      }
      HistoryIsRun(later, rest);
    }
  }

  /** Steps from the same state lead through the same states. */
  lemma {:induction false} SameHistory(a: seq<State>, first: seq<Step>, b: seq<State>, steps: seq<Step>, i: nat)
    requires History(a, first) && History(b, steps) && a[0] == b[0] && first <= steps && i <= |first|
    ensures a[i] == b[i]
  {
    if i > 0 {
      SameHistory(a, first, b, steps, i - 1);
      assert Follows(a, first, i - 1) && Follows(b, steps, i - 1);
    }
  }

  /** A device just initialised: nothing stored, everything past the metadata free. */
  ghost predicate Init(s: State) {
    && s.slots == [] && s.table == map[] && |s.disk| >= 16
    && s.free == Range(16, |s.disk| - 16)
    && forall w | 0 <= w < |s.lanes| :: s.lanes[w] == Lane([], 0, Idle, [], [])
  }

  lemma InitIsSafe(s: State)
    requires Init(s)
    ensures Inv(s) && Contents(s) == map[]
  {
  }

  /** Every key of the table can be read, in every state. */
  lemma ReadsSucceed(s: State, key: Bytes)
    requires Inv(s) && key in s.table
    ensures Contents(s)[key].Ok?
  {
    assert TableOk(s, key) && SlotOk(s, s.table[key]);
    LoadSucceeds(s.disk, s.slots[s.table[key]].rec);
  }

  // ----- ownership

  ghost predicate Owns(s: State, r: nat, i: nat)
    requires r < |s.slots|
  {
    s.slots[r].extent.Some? && Within(i, s.slots[r].extent.value.start, s.slots[r].extent.value.count)
  }

  ghost predicate Owned(s: State, i: nat) {
    exists r :: 0 <= r < |s.slots| && Owns(s, r, i)
  }

  /** In every reachable state a sector has at most one owner, an owned sector is not free, and lies on the device
      past the metadata. */
  lemma OwnershipIsExclusive(s: State, r: nat, i: nat)
    requires Inv(s) && r < |s.slots| && Owns(s, r, i)
    ensures i !in s.free && 16 <= i < |s.disk|
    ensures forall q | 0 <= q < |s.slots| && q != r :: !Owns(s, q, i)
  {
    assert SlotOk(s, r);
    OthersApart(s, r);
  }

  /** A batch write, whether it succeeds or not, changes only sectors of the batch. */
  lemma {:induction false} WrittenByBatch(d: Disk, e: Disk, batch: seq<Write>, i: nat) returns (j: nat)
    requires |d| == |e| && i < |d| && e[i] != d[i]
    requires e == WriteAll(d, batch) || forall k | 0 <= k < |e| && !InBatch(batch, k) :: e[k] == d[k]
    ensures j < |batch| && batch[j].start <= i < batch[j].start + |batch[j].data|
  {
    if e == WriteAll(d, batch) && !InBatch(batch, i) {
      WriteAllFrame(d, batch, i);
    }
    j :| 0 <= j < |batch| && batch[j].start <= i < batch[j].start + |batch[j].data|;
  }

  /** The record whose extent a worker writes to. */
  lemma WriterOwns(s: State, w: nat, batch: bool, i: nat) returns (r: nat)
    requires Inv(s) && w < |s.lanes| && i < |s.disk|
    requires if batch then s.lanes[w].phase.Attempt? && InBatch(s.lanes[w].batch, i)
             else s.lanes[w].deletions != [] && i == s.lanes[w].deletions[0].start
    ensures r < |s.slots| && Owns(s, r, i) && Writable(s.slots[r], w)
  {
    assert LaneOk(s, w);
    var l := s.lanes[w];
    if batch {
      var j :| 0 <= j < |l.batch| && l.batch[j].start <= i < l.batch[j].start + |l.batch[j].data|;
      r := l.batch[j].rid;
      assert WriteOk(s, w, l.batch[j]);
    } else {
      r := l.deletions[0].rid;
      assert DeletionOk(s, w, l.deletions[0]);
    }
  }

  /** A sector changes only in the extent of a record that the writing worker is flushing or deleting; so it was
      neither free nor part of another record. */
  lemma WritesStayInOwnExtent(s: State, step: Step, i: nat) returns (r: nat)
    requires Inv(s) && Enabled(s, step) && i < |s.disk|
    requires Next(s, step).disk[i] != s.disk[i]
    ensures r < |s.slots| && Owns(s, r, i) && (step.WriteMarker? || step.BatchWritten? || step.BatchFailed?)
    ensures Writable(s.slots[r], step.w)
    ensures i !in s.free && forall q | 0 <= q < |s.slots| && q != r :: !Owns(s, q, i)
  {
    if !step.WriteMarker? {
      var j := WrittenByBatch(s.disk, Next(s, step).disk, s.lanes[step.w].batch, i);
    }
    r := WriterOwns(s, step.w, !step.WriteMarker?, i);
    OwnershipIsExclusive(s, r, i);
  }
}
