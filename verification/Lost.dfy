/** Sectors that get lost: neither free nor in the extent of a record that the table or a worker still knows. Which
    steps lose which. */
module Lost {
  import opened Base
  import opened Format
  import opened WriteBehind
  import opened Safety

  // ----- who still knows a record

  /** The record is in the batch, on the list of deletions, or queued for deletion. */
  ghost predicate HeldBy(l: Lane, r: nat) {
    InWrites(l.batch, r) || InDeletions(l.deletions, r) || InQueue(l.queue, r, true)
  }

  /** Some worker has the record in a hand that can still give its extent back. */
  ghost predicate InHand(s: State, r: nat) {
    exists w :: 0 <= w < |s.lanes| && HeldBy(s.lanes[w], r)
  }

  ghost predicate Held(s: State, r: nat)
    requires r < |s.slots|
  {
    InTable(s, r) || InHand(s, r)
  }

  ghost predicate HeldSector(s: State, i: nat) {
    exists r :: 0 <= r < |s.slots| && Owns(s, r, i) && Held(s, r)
  }

  ghost function LostSectors(s: State): set<nat> {
    set i | 16 <= i < |s.disk| && i !in s.free && !HeldSector(s, i)
  }

  /** The deletion of the record is queued or listed. */
  ghost predicate DeletionUnderWay(s: State, r: nat) {
    exists w :: 0 <= w < |s.lanes| && (InDeletions(s.lanes[w].deletions, r) || InQueue(s.lanes[w].queue, r, true))
  }

  /** A deletion that the worker has listed or drained. */
  ghost predicate Dropped(l: Lane, r: nat)
    requires l.drained <= |l.queue|
  {
    InDeletions(l.deletions, r) || InQueue(l.queue[..l.drained], r, true)
  }

  ghost predicate InOtherBatch(s: State, w: nat, r: nat) {
    exists v :: 0 <= v < |s.lanes| && v != w && InWrites(s.lanes[v].batch, r)
  }

  /** Sector `i` is in the extent of a record whose deletion worker `w` drops, and that no other worker is writing. */
  ghost predicate InDropped(s: State, w: nat, i: nat)
    requires w < |s.lanes| && s.lanes[w].drained <= |s.lanes[w].queue|
  {
    exists r :: 0 <= r < |s.slots| && Owns(s, r, i) && Dropped(s.lanes[w], r) && !InOtherBatch(s, w, r)
  }

  ghost function ExtentOf(x: Slot): set<nat> {
    if x.extent.Some? then Range(x.extent.value.start, x.extent.value.count) else {}
  }

  /** The sectors that a step loses: those of an extent that a delete or a rollback does not give back; the extent of a
      record that the worker finishes writing when nobody wants it any more; and, when the device turns out to be full,
      all that the worker has allocated and all that it should have deleted. */
  ghost function Leak(s: State, step: Step): set<nat>
    requires Inv(s) && Enabled(s, step)
  {
    match step
    case ReleaseDeleted(w) =>
      assert LaneOk(s, w) && DeletionOk(s, w, s.lanes[w].deletions[0]);
      var d := s.lanes[w].deletions[0];
      assert SlotOk(s, d.rid);
      Range(d.start + Freed(d), SizeOf(s.slots[d.rid].rec) - Freed(d))
    case RollbackOne(w) =>
      assert LaneOk(s, w) && WriteOk(s, w, s.lanes[w].batch[0]);
      Range(s.lanes[w].batch[0].start + 1, |s.lanes[w].batch[0].data| - 1)
    case ClearValue(w) =>
      assert LaneOk(s, w);
      var r := s.lanes[w].batch[0].rid;
      if InTable(s, r) || DeletionUnderWay(s, r) then {} else ExtentOf(s.slots[r])
    case AbortOutOfSpace(w) =>
      assert LaneOk(s, w);
      set i | 0 <= i < |s.disk| && (InBatch(s.lanes[w].batch, i) || InDropped(s, w, i))
    case _ => {}
  }

  // ----- an extent whose sector is not published is in a batch

  ghost predicate CarriedSlot(s: State, r: nat)
    requires r < |s.slots|
  {
    var x := s.slots[r];
    && (x.put.Listed? ==> x.put.w < |s.lanes| && InWrites(s.lanes[x.put.w].batch, r))
    && (x.extent.Some? && x.rec.sector == 0 ==> x.put.Listed?)
  }

  ghost predicate Carried(s: State) {
    forall r | 0 <= r < |s.slots| :: CarriedSlot(s, r)
  }

  ghost predicate SamePut(x: Slot, y: Slot) {
    && (y.put.Listed? ==> y.put == x.put)
    && (y.extent.Some? && y.rec.sector == 0 ==> x.extent.Some? && x.rec.sector == 0 && y.put == x.put)
  }

  ghost predicate Unwritten(x: Slot) {
    !x.put.Listed? && x.extent.None?
  }

  lemma CarriedKept(s: State, t: State)
    requires Carried(s) && |t.lanes| == |s.lanes|
    requires forall w | 0 <= w < |s.lanes| :: t.lanes[w].batch == s.lanes[w].batch
    requires |s.slots| <= |t.slots|
    requires forall r | 0 <= r < |s.slots| :: SamePut(s.slots[r], t.slots[r])
    requires forall r | |s.slots| <= r < |t.slots| :: Unwritten(t.slots[r])
    ensures Carried(t)
  {
    forall r | 0 <= r < |t.slots|
      ensures CarriedSlot(t, r)
    {
      if r < |s.slots| {
        assert CarriedSlot(s, r) && SamePut(s.slots[r], t.slots[r]);
      } else {
        assert Unwritten(t.slots[r]);
      }
    }
  }

  lemma WritesJoin(a: seq<Write>, b: seq<Write>, r: nat)
    ensures InWrites(a + b, r) <==> InWrites(a, r) || InWrites(b, r)
  {
    var c := a + b;
    if InWrites(c, r) {
      var i :| 0 <= i < |c| && c[i].rid == r;
      assert if i < |a| then a[i].rid == r else b[i - |a|].rid == r;
    }
    if InWrites(a, r) {
      var i :| 0 <= i < |a| && a[i].rid == r;
      assert c[i].rid == r;
    }
    if InWrites(b, r) {
      var i :| 0 <= i < |b| && b[i].rid == r;
      assert c[|a| + i].rid == r;
    }
  }

  lemma DeletionsJoin(a: seq<Deletion>, b: seq<Deletion>, r: nat)
    ensures InDeletions(a + b, r) <==> InDeletions(a, r) || InDeletions(b, r)
  {
    var c := a + b;
    if InDeletions(c, r) {
      var i :| 0 <= i < |c| && c[i].rid == r;
      assert if i < |a| then a[i].rid == r else b[i - |a|].rid == r;
    }
    if InDeletions(a, r) {
      var i :| 0 <= i < |a| && a[i].rid == r;
      assert c[i].rid == r;
    }
    if InDeletions(b, r) {
      var i :| 0 <= i < |b| && b[i].rid == r;
      assert c[|a| + i].rid == r;
    }
  }

  lemma QueueJoin(a: seq<Entry>, b: seq<Entry>, r: nat, deletion: bool)
    ensures InQueue(a + b, r, deletion) <==> InQueue(a, r, deletion) || InQueue(b, r, deletion)
  {
    var c := a + b;
    if InQueue(c, r, deletion) {
      var i :| 0 <= i < |c| && c[i].rid == r && c[i].kind.Delete? == deletion;
      if i < |a| {
        assert a[i] == c[i];
      } else {
        assert b[i - |a|] == c[i];
      }
    }
    if InQueue(a, r, deletion) {
      var i :| 0 <= i < |a| && a[i].rid == r && a[i].kind.Delete? == deletion;
      assert c[i] == a[i];
    }
    if InQueue(b, r, deletion) {
      var i :| 0 <= i < |b| && b[i].rid == r && b[i].kind.Delete? == deletion;
      assert c[|a| + i] == b[i];
    }
  }

  /** A record joins the batch of worker `w`. */
  lemma CarriedAllocate(s: State, w: nat, start: nat)
    requires Inv(s) && Carried(s) && Enabled(s, AllocateExtent(w, start))
    ensures Carried(Allocated(s, w, start))
  {
    var t, l := Allocated(s, w, start), s.lanes[w];
    assert LaneOk(s, w);
    var x := Write(l.queue[0].rid, start, PreparedBlocks(s.slots[l.queue[0].rid].rec));
    assert t.lanes[w].batch == l.batch + [x];
    forall r | 0 <= r < |t.slots|
      ensures CarriedSlot(t, r)
    {
      assert CarriedSlot(s, r);
      WritesJoin(l.batch, [x], r);
      assert [x][0].rid == x.rid;
    }
  }

  /** The first record of the batch of worker `w` is dealt with. */
  lemma CarriedPopped(s: State, t: State, w: nat)
    requires Carried(s) && w < |s.lanes| && |t.lanes| == |s.lanes| && t.lanes == s.lanes[w := t.lanes[w]]
    requires s.lanes[w].batch != [] && t.lanes[w].batch == s.lanes[w].batch[1..]
    requires |t.slots| == |s.slots| && s.lanes[w].batch[0].rid < |s.slots|
    requires forall r | 0 <= r < |s.slots| && r != s.lanes[w].batch[0].rid :: t.slots[r] == s.slots[r]
    requires var y := t.slots[s.lanes[w].batch[0].rid]; y.put.Done? && (y.extent.Some? ==> y.rec.sector != 0)
    ensures Carried(t)
  {
    var b := s.lanes[w].batch;
    forall r | 0 <= r < |t.slots|
      ensures CarriedSlot(t, r)
    {
      assert CarriedSlot(s, r);
      assert b == b[..1] + b[1..];
      WritesJoin(b[..1], b[1..], r);
    }
  }

  lemma CarriedAbort(s: State, w: nat)
    requires Inv(s) && Carried(s) && Enabled(s, AbortOutOfSpace(w))
    ensures Carried(Aborted(s, w))
  {
    var t := Aborted(s, w);
    assert LaneOk(s, w);
    forall r | 0 <= r < |t.slots|
      ensures CarriedSlot(t, r)
    {
      assert CarriedSlot(s, r);
    }
  }

  lemma CarriedCheck(s: State, w: nat)
    requires Inv(s) && Carried(s) && Enabled(s, CheckEntry(w))
    ensures Carried(Checked(s, w))
  {
    assert LaneOk(s, w) && EntryOk(s, w, s.lanes[w].queue[0]) && SlotOk(s, s.lanes[w].queue[0].rid);
    CarriedKept(s, Checked(s, w));
  }

  lemma CarriedClear(s: State, w: nat)
    requires Inv(s) && Carried(s) && Enabled(s, ClearValue(w))
    ensures Carried(ValueCleared(s, w))
  {
    assert LaneOk(s, w);
    CarriedPopped(s, ValueCleared(s, w), w);
  }

  lemma CarriedRollback(s: State, w: nat)
    requires Inv(s) && Carried(s) && Enabled(s, RollbackOne(w))
    ensures Carried(RolledBack(s, w))
  {
    assert LaneOk(s, w) && WriteOk(s, w, s.lanes[w].batch[0]);
    CarriedPopped(s, RolledBack(s, w), w);
  }

  lemma CarriedClient(s: State, step: Step)
    requires Inv(s) && Carried(s) && Enabled(s, step)
    requires step.ClientPut? || step.ClientDelete? || step.Sweep? || step.SetExpiry?
    ensures Carried(Next(s, step))
  {
    assert step.key in s.table ==> TableOk(s, step.key);
    CarriedKept(s, Next(s, step));
  }

  lemma CarriedPublish(s: State, w: nat)
    requires Inv(s) && Carried(s) && Enabled(s, PublishSector(w))
    ensures Carried(SectorPublished(s, w))
  {
    assert LaneOk(s, w) && WriteOk(s, w, s.lanes[w].batch[0]);
    CarriedKept(s, SectorPublished(s, w));
  }

  lemma CarriedRelease(s: State, w: nat)
    requires Inv(s) && Carried(s) && Enabled(s, ReleaseDeleted(w))
    ensures Carried(Released(s, w))
  {
    assert LaneOk(s, w) && DeletionOk(s, w, s.lanes[w].deletions[0]);
    CarriedKept(s, Released(s, w));
  }

  /** The step moves a worker on or writes to the disk, and changes no record. */
  predicate MovesOnly(step: Step) {
    match step
    case Drain(_) => true
    case CollectDone(_) => true
    case WriteMarker(_, _) => true
    case DeletionsDone(_) => true
    case BatchWritten(_) => true
    case BatchFailed(_, _) => true
    case PublishDone(_) => true
    case RollbackDone(_) => true
    case _ => false
  }

  lemma Moves(s: State, step: Step)
    requires Inv(s) && Enabled(s, step) && MovesOnly(step)
    ensures var t := Next(s, step);
      && t.slots == s.slots && t.table == s.table && t.free == s.free && |t.lanes| == |s.lanes|
      && forall w | 0 <= w < |s.lanes| :: t.lanes[w].batch == s.lanes[w].batch
                                       && t.lanes[w].deletions == s.lanes[w].deletions
                                       && t.lanes[w].queue == s.lanes[w].queue
  {
  }

  lemma CarriedMoves(s: State, step: Step)
    requires Inv(s) && Carried(s) && Enabled(s, step) && MovesOnly(step)
    ensures Carried(Next(s, step))
  {
    Moves(s, step);
    CarriedKept(s, Next(s, step));
  }

  /** In every reachable state, an extent whose sector is not published is in a batch. */
  lemma CarriedStep(s: State, step: Step)
    requires Inv(s) && Carried(s) && Enabled(s, step)
    ensures Carried(Next(s, step))
  {
    match step
    case ClientPut(_, _, _, _, _) => CarriedClient(s, step);
    case ClientDelete(_, _, _) => CarriedClient(s, step);
    case Sweep(_, _) => CarriedClient(s, step);
    case SetExpiry(_, _) => CarriedClient(s, step);
    case CheckEntry(w) => CarriedCheck(s, w);
    case AllocateExtent(w, start) => CarriedAllocate(s, w, start);
    case AbortOutOfSpace(w) => CarriedAbort(s, w);
    case ClearValue(w) => CarriedClear(s, w);
    case RollbackOne(w) => CarriedRollback(s, w);
    case PublishSector(w) => CarriedPublish(s, w);
    case ReleaseDeleted(w) => CarriedRelease(s, w);
    case _ => CarriedMoves(s, step);
  }

  // ----- who is held after a step

  lemma HeldKept(s: State, t: State, w: nat, q: nat)
    requires q < |s.slots| && q < |t.slots| && t.slots[q].rec.key == s.slots[q].rec.key && t.table == s.table
    requires w < |s.lanes| && |t.lanes| == |s.lanes| && t.lanes == s.lanes[w := t.lanes[w]]
    requires HeldBy(t.lanes[w], q) <==> HeldBy(s.lanes[w], q)
    ensures Held(t, q) <==> Held(s, q)
  {
    if InHand(s, q) {
      var v :| 0 <= v < |s.lanes| && HeldBy(s.lanes[v], q);
      assert HeldBy(t.lanes[v], q);
    }
    if InHand(t, q) {
      var v :| 0 <= v < |t.lanes| && HeldBy(t.lanes[v], q);
      assert HeldBy(s.lanes[v], q);
    }
  }

  /** A record in a batch is held. */
  lemma CarriedIsHeld(s: State, r: nat)
    requires Carried(s) && r < |s.slots| && s.slots[r].extent.Some? && s.slots[r].rec.sector == 0
    ensures InHand(s, r)
  {
    assert CarriedSlot(s, r);
    assert HeldBy(s.lanes[s.slots[r].put.w], r);
  }

  ghost predicate Keeps(s: State, t: State, q: nat)
    requires q < |s.slots| && q < |t.slots|
  {
    && t.slots[q].extent == s.slots[q].extent
    && (s.slots[q].extent.Some? ==> (Held(t, q) <==> Held(s, q)))
  }

  /** What the other records hold stays as it is. */
  ghost predicate OthersKept(s: State, t: State, r: nat) {
    && |t.slots| == |s.slots| && |t.disk| == |s.disk|
    && forall q | 0 <= q < |s.slots| && q != r :: Keeps(s, t, q)
  }

  lemma KeptSector(s: State, t: State, i: nat)
    requires |s.slots| <= |t.slots|
    requires forall q | 0 <= q < |s.slots| && (Owns(s, q, i) || Owns(t, q, i)) :: Keeps(s, t, q)
    requires forall q | |s.slots| <= q < |t.slots| :: t.slots[q].extent.None?
    ensures HeldSector(t, i) <==> HeldSector(s, i)
  {
    if HeldSector(s, i) {
      var q :| 0 <= q < |s.slots| && Owns(s, q, i) && Held(s, q);
      assert Keeps(s, t, q) && Owns(t, q, i);
    }
    if HeldSector(t, i) {
      var q :| 0 <= q < |t.slots| && Owns(t, q, i) && Held(t, q);
      assert Keeps(s, t, q) && Owns(s, q, i);
    }
  }

  /** Every record keeps its extent and stays held. */
  lemma LosesNothing(s: State, t: State)
    requires |s.slots| <= |t.slots| && |t.disk| == |s.disk| && t.free == s.free
    requires forall q | 0 <= q < |s.slots| :: Keeps(s, t, q)
    requires forall q | |s.slots| <= q < |t.slots| :: t.slots[q].extent.None?
    ensures LostSectors(t) == LostSectors(s)
  {
    forall i
      ensures HeldSector(t, i) <==> HeldSector(s, i)
    {
      KeptSector(s, t, i);
    }
  }

  /** The only record that a sector of an extent can be held for is its owner. */
  lemma HeldByOwner(s: State, r: nat, i: nat)
    requires Inv(s) && r < |s.slots| && Owns(s, r, i)
    ensures i !in s.free && 16 <= i < |s.disk|
    ensures HeldSector(s, i) <==> Held(s, r)
  {
    OwnershipIsExclusive(s, r, i);
  }

  /** A held record gives up its extent, of which the first `count` sectors become free. */
  lemma LosesRest(s: State, t: State, r: nat, count: nat)
    requires Inv(s) && r < |s.slots| && s.slots[r].extent.Some? && count <= s.slots[r].extent.value.count && Held(s, r)
    requires OthersKept(s, t, r) && t.slots[r].extent.None?
    requires t.free == s.free + Range(s.slots[r].extent.value.start, count)
    ensures var x := s.slots[r].extent.value;
      && LostSectors(t) == LostSectors(s) + Range(x.start + count, x.count - count)
      && LostSectors(s) !! Range(x.start + count, x.count - count)
  {
    var x := s.slots[r].extent.value;
    forall i: nat
      ensures i in LostSectors(t) <==> i in LostSectors(s) || Within(i, x.start + count, x.count - count)
      ensures Within(i, x.start + count, x.count - count) ==> i !in LostSectors(s)
    {
      if Within(i, x.start, x.count) {
        assert Owns(s, r, i);
        HeldByOwner(s, r, i);
        OwnershipIsExclusive(s, r, i);
        forall q | 0 <= q < |t.slots|
          ensures !Owns(t, q, i)
        {
          assert q != r ==> Keeps(s, t, q) && !Owns(s, q, i);
        }
      } else {
        KeptSector(s, t, i);
      }
    }
  }

  /** A held record is forgotten. */
  lemma LosesWhole(s: State, t: State, r: nat)
    requires Inv(s) && Inv(t) && r < |s.slots| && Held(s, r)
    requires OthersKept(s, t, r) && t.slots[r].extent == s.slots[r].extent && !Held(t, r) && t.free == s.free
    ensures LostSectors(t) == LostSectors(s) + ExtentOf(s.slots[r])
    ensures LostSectors(s) !! ExtentOf(s.slots[r])
  {
    forall i: nat
      ensures i in LostSectors(t) <==> i in LostSectors(s) || i in ExtentOf(s.slots[r])
      ensures i in ExtentOf(s.slots[r]) ==> i !in LostSectors(s)
    {
      assert i in ExtentOf(s.slots[r]) <==> Owns(s, r, i);
      if Owns(s, r, i) {
        assert Owns(t, r, i);
        HeldByOwner(s, r, i);
        HeldByOwner(t, r, i);
      } else {
        KeptSector(s, t, i);
      }
    }
  }

  /** A record without an extent takes one that was free. */
  lemma LosesNoneOfTaken(s: State, t: State, r: nat)
    requires r < |s.slots| && s.slots[r].extent.None?
    requires OthersKept(s, t, r) && t.slots[r].extent.Some? && Held(t, r)
    requires var x := t.slots[r].extent.value;
      Range(x.start, x.count) <= s.free && t.free == s.free - Range(x.start, x.count)
    ensures LostSectors(t) == LostSectors(s)
  {
    var x := t.slots[r].extent.value;
    forall i: nat
      ensures i in LostSectors(t) <==> i in LostSectors(s)
    {
      if Within(i, x.start, x.count) {
        assert Owns(t, r, i) && i in Range(x.start, x.count);
      } else {
        KeptSector(s, t, i);
      }
    }
  }

  // ----- step by step

  lemma ReleaseLoses(s: State, w: nat)
    requires Inv(s) && Enabled(s, ReleaseDeleted(w))
    ensures LostSectors(Released(s, w)) == LostSectors(s) + Leak(s, ReleaseDeleted(w))
    ensures LostSectors(s) !! Leak(s, ReleaseDeleted(w))
  {
    var t, ds := Released(s, w), s.lanes[w].deletions;
    assert LaneOk(s, w) && DeletionOk(s, w, ds[0]);
    var d := ds[0];
    assert SlotOk(s, d.rid) && HeldBy(s.lanes[w], d.rid);
    forall q | 0 <= q < |s.slots| && q != d.rid
      ensures Keeps(s, t, q)
    {
      assert ds == ds[..1] + ds[1..];
      DeletionsJoin(ds[..1], ds[1..], q);
      HeldKept(s, t, w, q);
    }
    LosesRest(s, t, d.rid, Freed(d));
  }

  /** Without its first record, a batch holds the others as before. */
  lemma OthersInBatch(s: State, t: State, w: nat)
    requires w < |s.lanes| && |t.lanes| == |s.lanes| && t.lanes == s.lanes[w := t.lanes[w]] && t.table == s.table
    requires s.lanes[w].batch != [] && t.lanes[w].batch == s.lanes[w].batch[1..]
    requires t.lanes[w].queue == s.lanes[w].queue && t.lanes[w].deletions == s.lanes[w].deletions
    requires |t.slots| == |s.slots| && |t.disk| == |s.disk|
    requires forall r | 0 <= r < |s.slots| && r != s.lanes[w].batch[0].rid :: t.slots[r] == s.slots[r]
    ensures OthersKept(s, t, s.lanes[w].batch[0].rid)
  {
    var b := s.lanes[w].batch;
    forall q | 0 <= q < |s.slots| && q != b[0].rid
      ensures Keeps(s, t, q)
    {
      assert b == b[..1] + b[1..];
      WritesJoin(b[..1], b[1..], q);
      HeldKept(s, t, w, q);
    }
  }

  lemma RollbackLoses(s: State, w: nat)
    requires Inv(s) && Enabled(s, RollbackOne(w))
    ensures LostSectors(RolledBack(s, w)) == LostSectors(s) + Leak(s, RollbackOne(w))
    ensures LostSectors(s) !! Leak(s, RollbackOne(w))
  {
    var t, x := RolledBack(s, w), s.lanes[w].batch[0];
    assert LaneOk(s, w) && WriteOk(s, w, x);
    assert HeldBy(s.lanes[w], x.rid);
    OthersInBatch(s, t, w);
    LosesRest(s, t, x.rid, 1);
  }

  /** A record is in one batch only. */
  lemma OnlyBatch(s: State, w: nat, v: nat, r: nat)
    requires Inv(s) && w < |s.lanes| && v < |s.lanes| && r < |s.slots|
    requires s.slots[r].put == Listed(w) && InWrites(s.lanes[v].batch, r)
    ensures v == w
  {
    var b := s.lanes[v].batch;
    var j :| 0 <= j < |b| && b[j].rid == r;
    assert LaneOk(s, v);
    assert Published(s.lanes[v]) <= j ==> WriteOk(s, v, b[j]);
  }

  /** Once it is cleared, a record is held exactly if it is in the table or its deletion is under way. */
  lemma HeldAfterClear(s: State, w: nat)
    requires Inv(s) && Enabled(s, ClearValue(w)) && Inv(ValueCleared(s, w)) && LaneOk(s, w)
    ensures var r := s.lanes[w].batch[0].rid;
      Held(ValueCleared(s, w), r) <==> InTable(s, r) || DeletionUnderWay(s, r)
  {
    var t, b := ValueCleared(s, w), s.lanes[w].batch;
    var r := b[0].rid;
    forall v | 0 <= v < |s.lanes|
      ensures HeldBy(t.lanes[v], r) <==> InDeletions(s.lanes[v].deletions, r) || InQueue(s.lanes[v].queue, r, true)
    {
      if v == w {
        assert forall i | 0 <= i < |b[1..]| :: b[1..][i] == b[i + 1];
        assert !InWrites(b[1..], r);
      } else {
        assert !InWrites(s.lanes[v].batch, r) by {
          if InWrites(s.lanes[v].batch, r) {
            OnlyBatch(s, w, v, r);
          }
        }
      }
    }
  }

  lemma ClearLoses(s: State, w: nat)
    requires Inv(s) && Enabled(s, ClearValue(w))
    ensures LostSectors(ValueCleared(s, w)) == LostSectors(s) + Leak(s, ClearValue(w))
    ensures LostSectors(s) !! Leak(s, ClearValue(w))
  {
    assert LaneOk(s, w);
    var t, r := ValueCleared(s, w), s.lanes[w].batch[0].rid;
    assert HeldBy(s.lanes[w], r);
    ClearKeepsInv(s, w);
    HeldAfterClear(s, w);
    OthersInBatch(s, t, w);
    if Held(t, r) {
      LosesNothing(s, t);
    } else {
      LosesWhole(s, t, r);
    }
  }

  lemma AllocateLosesNothing(s: State, w: nat, start: nat)
    requires Inv(s) && Enabled(s, AllocateExtent(w, start))
    ensures LostSectors(Allocated(s, w, start)) == LostSectors(s)
  {
    var t, l := Allocated(s, w, start), s.lanes[w];
    var r := l.queue[0].rid;
    assert LaneOk(s, w) && EntryOk(s, w, l.queue[0]) && SlotOk(s, r);
    var x := Write(r, start, PreparedBlocks(s.slots[r].rec));
    assert t.lanes[w].batch == l.batch + [x] && l.queue == l.queue[..1] + l.queue[1..];
    assert t.lanes[w].batch[|l.batch|].rid == r && HeldBy(t.lanes[w], r);
    forall q | 0 <= q < |s.slots| && q != r
      ensures Keeps(s, t, q)
    {
      WritesJoin(l.batch, [x], q);
      QueueJoin(l.queue[..1], l.queue[1..], q, true);
      HeldKept(s, t, w, q);
    }
    LosesNoneOfTaken(s, t, r);
  }

  lemma CheckLosesNothing(s: State, w: nat)
    requires Inv(s) && Carried(s) && Enabled(s, CheckEntry(w))
    ensures LostSectors(Checked(s, w)) == LostSectors(s)
  {
    var t, l := Checked(s, w), s.lanes[w];
    assert LaneOk(s, w) && EntryOk(s, w, l.queue[0]) && SlotOk(s, l.queue[0].rid);
    CarriedCheck(s, w);
    forall q | 0 <= q < |s.slots|
      ensures Keeps(s, t, q)
    {
      if s.slots[q].extent.Some? && s.slots[q].rec.sector == 0 {
        CarriedIsHeld(s, q);
        CarriedIsHeld(t, q);
      } else if s.slots[q].extent.Some? {
        CheckedHolds(s, w, q);
        HeldKept(s, t, w, q);
      }
    }
    LosesNothing(s, t);
  }

  /** An entry checked for a record on disk goes from the queue to the deletions, or is of no concern. */
  lemma CheckedHolds(s: State, w: nat, q: nat)
    requires Inv(s) && Enabled(s, CheckEntry(w)) && q < |s.slots| && s.slots[q].rec.sector != 0
    ensures HeldBy(Checked(s, w).lanes[w], q) <==> HeldBy(s.lanes[w], q)
  {
    var m, l := Checked(s, w).lanes[w], s.lanes[w];
    assert LaneOk(s, w) && EntryOk(s, w, l.queue[0]);
    assert l.queue == l.queue[..1] + l.queue[1..];
    QueueJoin(l.queue[..1], l.queue[1..], q, true);
    if m.deletions != l.deletions {
      var d := m.deletions[|l.deletions|..];
      assert m.deletions == l.deletions + d;
      DeletionsJoin(l.deletions, d, q);
      assert d[0].rid == l.queue[0].rid && l.queue[..1][0] == l.queue[0];
    }
  }

  lemma SameTableHeld(s: State, t: State, i: nat, more: seq<Entry>, q: nat)
    requires q < |s.slots| && q < |t.slots| && (InTable(t, q) <==> InTable(s, q))
    requires i < |s.lanes| && |t.lanes| == |s.lanes|
    requires t.lanes == s.lanes[i := s.lanes[i].(queue := s.lanes[i].queue + more)] && !InQueue(more, q, true)
    ensures Held(t, q) <==> Held(s, q)
  {
    QueueJoin(s.lanes[i].queue, more, q, true);
    if InHand(s, q) {
      var v :| 0 <= v < |s.lanes| && HeldBy(s.lanes[v], q);
      assert HeldBy(t.lanes[v], q);
    }
    if InHand(t, q) {
      var v :| 0 <= v < |t.lanes| && HeldBy(t.lanes[v], q);
      assert HeldBy(s.lanes[v], q);
    }
  }

  /** A record queued for deletion is held. */
  lemma QueuedIsHeld(t: State, i: nat, before: seq<Entry>, more: seq<Entry>, q: nat)
    requires i < |t.lanes| && t.lanes[i].queue == before + more && InQueue(more, q, true)
    ensures InHand(t, q)
  {
    QueueJoin(before, more, q, true);
    assert HeldBy(t.lanes[i], q);
  }

  lemma PutLosesNothing(s: State, key: Bytes, rec: Record, i: nat)
    requires Inv(s) && i < |s.lanes|
    ensures LostSectors(Put(s, key, rec, i)) == LostSectors(s)
  {
    var t, n := Put(s, key, rec, i), |s.slots|;
    var more := t.lanes[i].queue[|s.lanes[i].queue|..];
    assert key in s.table ==> TableOk(s, key);
    assert t.lanes[i].queue == s.lanes[i].queue + more;
    forall q | 0 <= q < n
      ensures Keeps(s, t, q)
    {
      if key in s.table && q == s.table[key] {
        assert more[1].rid == q;
        QueuedIsHeld(t, i, s.lanes[i].queue, more, q);
      } else {
        SameTableHeld(s, t, i, more, q);
      }
    }
    LosesNothing(s, t);
  }

  lemma RemoveLosesNothing(s: State, key: Bytes, refcount: nat, oldLen: nat, queued: bool, i: nat)
    requires Inv(s) && Carried(s) && i < |s.lanes| && key in s.table
    requires queued || s.slots[s.table[key]].rec.sector == 0
    ensures LostSectors(Remove(s, key, refcount, oldLen, queued, i)) == LostSectors(s)
  {
    var t := Remove(s, key, refcount, oldLen, queued, i);
    var more := t.lanes[i].queue[|s.lanes[i].queue|..];
    assert TableOk(s, key);
    assert t.lanes[i].queue == s.lanes[i].queue + more;
    forall q | 0 <= q < |s.slots|
      ensures Keeps(s, t, q)
    {
      if q != s.table[key] {
        SameTableHeld(s, t, i, more, q);
      } else if queued {
        assert more[0].rid == q;
        QueuedIsHeld(t, i, s.lanes[i].queue, more, q);
      } else if s.slots[q].extent.Some? {
        CarriedIsHeld(s, q);
        var v :| 0 <= v < |s.lanes| && HeldBy(s.lanes[v], q);
        assert HeldBy(t.lanes[v], q);
      }
    }
    LosesNothing(s, t);
  }

  /** A step that leaves the table and what the lanes hold. */
  lemma QuietLosesNothing(s: State, t: State)
    requires |t.slots| == |s.slots| && |t.disk| == |s.disk| && t.free == s.free && t.table == s.table
    requires |t.lanes| == |s.lanes|
    requires forall w | 0 <= w < |s.lanes| :: t.lanes[w].batch == s.lanes[w].batch
               && t.lanes[w].deletions == s.lanes[w].deletions && t.lanes[w].queue == s.lanes[w].queue
    requires forall q | 0 <= q < |s.slots| ::
               t.slots[q].extent == s.slots[q].extent && t.slots[q].rec.key == s.slots[q].rec.key
    ensures LostSectors(t) == LostSectors(s)
  {
    forall q | 0 <= q < |s.slots|
      ensures Keeps(s, t, q)
    {
      if InHand(s, q) {
        var v :| 0 <= v < |s.lanes| && HeldBy(s.lanes[v], q);
        assert HeldBy(t.lanes[v], q);
      }
      if InHand(t, q) {
        var v :| 0 <= v < |t.lanes| && HeldBy(t.lanes[v], q);
        assert HeldBy(s.lanes[v], q);
      }
    }
    LosesNothing(s, t);
  }

  lemma ExpiryLosesNothing(s: State, key: Bytes, expiry: nat)
    requires Inv(s) && Enabled(s, SetExpiry(key, expiry))
    ensures LostSectors(Next(s, SetExpiry(key, expiry))) == LostSectors(s)
  {
    assert TableOk(s, key);
    QuietLosesNothing(s, Next(s, SetExpiry(key, expiry)));
  }

  lemma PublishLosesNothing(s: State, w: nat)
    requires Inv(s) && Enabled(s, PublishSector(w))
    ensures LostSectors(SectorPublished(s, w)) == LostSectors(s)
  {
    assert LaneOk(s, w) && WriteOk(s, w, s.lanes[w].batch[0]);
    QuietLosesNothing(s, SectorPublished(s, w));
  }

  lemma MovesLoseNothing(s: State, step: Step)
    requires Inv(s) && Enabled(s, step) && MovesOnly(step)
    ensures LostSectors(Next(s, step)) == LostSectors(s)
  {
    Moves(s, step);
    QuietLosesNothing(s, Next(s, step));
  }

  // ----- a full device

  /** Nobody but a worker that is still writing the record has a deletion that worker `w` drops. */
  lemma DroppedIsOutOfTable(s: State, w: nat, r: nat)
    requires Inv(s) && w < |s.lanes| && LaneOk(s, w) && r < |s.slots| && Dropped(s.lanes[w], r)
    ensures s.slots[r].del == Listed(w) || s.slots[r].del == Pending(w)
    ensures !InTable(s, r) && !InQueue(s.lanes[w].queue[s.lanes[w].drained..], r, true)
  {
    var l := s.lanes[w];
    var q, n := l.queue, l.drained;
    if InDeletions(l.deletions, r) {
      var j :| 0 <= j < |l.deletions| && l.deletions[j].rid == r;
      assert DeletionOk(s, w, l.deletions[j]);
    } else {
      var j :| 0 <= j < |q[..n]| && q[..n][j].rid == r && q[..n][j].kind.Delete?;
      assert EntryOk(s, w, q[j]);
    }
    assert InTable(s, r) ==> TableOk(s, s.slots[r].rec.key);
    if InQueue(q[n..], r, true) {
      var k :| 0 <= k < |q[n..]| && q[n..][k].rid == r && q[n..][k].kind.Delete?;
      assert EntryOk(s, w, q[n + k]);
      assert InQueue(q[..n], r, true);
      var j :| 0 <= j < |q[..n]| && q[..n][j].rid == r && q[..n][j].kind.Delete?;
      assert SameTarget(q[j], q[n + k]);
      assert false;
    }
  }

  lemma DroppedElsewhere(s: State, w: nat, v: nat, r: nat)
    requires Inv(s) && w < |s.lanes| && v < |s.lanes| && v != w && r < |s.slots|
    requires s.slots[r].del == Listed(w) || s.slots[r].del == Pending(w)
    ensures HeldBy(s.lanes[v], r) <==> InWrites(s.lanes[v].batch, r)
  {
    var l := s.lanes[v];
    assert LaneOk(s, v);
    forall j | 0 <= j < |l.deletions|
      ensures l.deletions[j].rid != r
    {
      assert DeletionOk(s, v, l.deletions[j]);
    }
    forall j | 0 <= j < |l.queue| && l.queue[j].kind.Delete?
      ensures l.queue[j].rid != r
    {
      assert EntryOk(s, v, l.queue[j]);
    }
  }

  /** Of the records that a worker gives up, those stay held that another worker is writing. */
  lemma HeldAfterAbort(s: State, w: nat, r: nat)
    requires Inv(s) && Enabled(s, AbortOutOfSpace(w)) && LaneOk(s, w) && r < |s.slots|
    requires !InWrites(s.lanes[w].batch, r)
    ensures Dropped(s.lanes[w], r) ==> Held(s, r) && (Held(Aborted(s, w), r) <==> InOtherBatch(s, w, r))
    ensures !Dropped(s.lanes[w], r) ==> (Held(Aborted(s, w), r) <==> Held(s, r))
  {
    var t, l := Aborted(s, w), s.lanes[w];
    AbandonedFrame(s, w, r);
    assert l.queue == l.queue[..l.drained] + l.queue[l.drained..];
    QueueJoin(l.queue[..l.drained], l.queue[l.drained..], r, true);
    if Dropped(l, r) {
      DroppedIsOutOfTable(s, w, r);
      assert HeldBy(l, r);
      forall v | 0 <= v < |s.lanes|
        ensures HeldBy(t.lanes[v], r) <==> v != w && InWrites(s.lanes[v].batch, r)
      {
        if v != w {
          DroppedElsewhere(s, w, v, r);
        }
      }
    } else {
      assert HeldBy(t.lanes[w], r) <==> HeldBy(l, r);
      HeldKept(s, t, w, r);
    }
  }

  lemma WrittenIsInBatch(s: State, w: nat, q: nat, i: nat)
    requires w < |s.lanes| && LaneOk(s, w) && Published(s.lanes[w]) == 0
    requires q < |s.slots| && InWrites(s.lanes[w].batch, q) && Owns(s, q, i)
    ensures InBatch(s.lanes[w].batch, i)
  {
    var b := s.lanes[w].batch;
    var j :| 0 <= j < |b| && b[j].rid == q;
    assert WriteOk(s, w, b[j]);
  }

  /** A sector of the batch: its record is held, and loses its extent. */
  lemma BatchSectorLost(s: State, w: nat, i: nat)
    requires Inv(s) && Enabled(s, AbortOutOfSpace(w)) && InBatch(s.lanes[w].batch, i)
    ensures HeldSector(s, i) && !HeldSector(Aborted(s, w), i) && i !in s.free && 16 <= i < |s.disk|
  {
    var t, b := Aborted(s, w), s.lanes[w].batch;
    assert LaneOk(s, w);
    var j :| 0 <= j < |b| && b[j].start <= i < b[j].start + |b[j].data|;
    assert WriteOk(s, w, b[j]) && InWrites(b, b[j].rid);
    assert Owns(s, b[j].rid, i) && HeldBy(s.lanes[w], b[j].rid);
    HeldByOwner(s, b[j].rid, i);
    OwnershipIsExclusive(s, b[j].rid, i);
    forall q | 0 <= q < |t.slots|
      ensures !Owns(t, q, i)
    {
      AbandonedFrame(s, w, q);
      assert q != b[j].rid ==> !Owns(s, q, i);
    }
  }

  /** Any other sector of an extent. */
  lemma OtherSectorAborted(s: State, w: nat, r: nat, i: nat)
    requires Inv(s) && Enabled(s, AbortOutOfSpace(w)) && Inv(Aborted(s, w)) && LaneOk(s, w)
    requires r < |s.slots| && Owns(s, r, i) && !InBatch(s.lanes[w].batch, i)
    ensures HeldSector(Aborted(s, w), i) <==> HeldSector(s, i) && !InDropped(s, w, i)
    ensures InDropped(s, w, i) ==> HeldSector(s, i)
    ensures i !in s.free && 16 <= i < |s.disk|
  {
    var t := Aborted(s, w);
    assert !InWrites(s.lanes[w].batch, r) by {
      if InWrites(s.lanes[w].batch, r) {
        WrittenIsInBatch(s, w, r, i);
      }
    }
    AbandonedFrame(s, w, r);
    assert Owns(t, r, i);
    HeldByOwner(s, r, i);
    HeldByOwner(t, r, i);
    OwnershipIsExclusive(s, r, i);
    HeldAfterAbort(s, w, r);
  }

  lemma UnownedStays(s: State, w: nat, i: nat)
    requires Inv(s) && Enabled(s, AbortOutOfSpace(w)) && !Owned(s, i) && LaneOk(s, w)
    ensures !HeldSector(s, i) && !HeldSector(Aborted(s, w), i) && !InDropped(s, w, i)
  {
    var t := Aborted(s, w);
    forall q | 0 <= q < |t.slots|
      ensures !Owns(t, q, i)
    {
      AbandonedFrame(s, w, q);
      assert !Owns(s, q, i);
    }
  }

  /** A worker that meets a full device loses what it has allocated, and what it should have deleted. */
  lemma AbortLoses(s: State, w: nat)
    requires Inv(s) && Enabled(s, AbortOutOfSpace(w))
    ensures LostSectors(Aborted(s, w)) == LostSectors(s) + Leak(s, AbortOutOfSpace(w))
    ensures LostSectors(s) !! Leak(s, AbortOutOfSpace(w))
  {
    var t, leak := Aborted(s, w), Leak(s, AbortOutOfSpace(w));
    assert LaneOk(s, w);
    AbortKeepsInv(s, w);
    forall i: nat
      ensures i in LostSectors(t) <==> i in LostSectors(s) || i in leak
      ensures i in leak ==> i !in LostSectors(s)
    {
      if InBatch(s.lanes[w].batch, i) {
        BatchSectorLost(s, w, i);
      } else if Owned(s, i) {
        var r :| 0 <= r < |s.slots| && Owns(s, r, i);
        OtherSectorAborted(s, w, r, i);
      } else {
        UnownedStays(s, w, i);
      }
    }
  }

  // ----- the law

  /** In every reachable state, a step loses exactly its leak. */
  lemma StepLoses(s: State, step: Step)
    requires Inv(s) && Carried(s) && Enabled(s, step)
    ensures LostSectors(Next(s, step)) == LostSectors(s) + Leak(s, step)
    ensures LostSectors(s) !! Leak(s, step)
  {
    match step
    case ClientPut(key, value, timestamp, expiry, i) =>
      PutLosesNothing(s, key, NewRecord(key, value, timestamp, expiry), i);
    case ClientDelete(key, _, i) =>
      RemoveLosesNothing(s, key, 0, s.slots[s.table[key]].rec.valueLen, true, i);
    case Sweep(key, i) =>
      var rec := s.slots[s.table[key]].rec;
      RemoveLosesNothing(s, key, rec.refcount, 0, rec.sector > 0, i);
    case SetExpiry(key, expiry) => ExpiryLosesNothing(s, key, expiry);
    case ReleaseDeleted(w) => ReleaseLoses(s, w);
    case RollbackOne(w) => RollbackLoses(s, w);
    case AbortOutOfSpace(w) => AbortLoses(s, w);
    case AllocateExtent(w, start) => AllocateLosesNothing(s, w, start);
    case CheckEntry(w) => CheckLosesNothing(s, w);
    case PublishSector(w) => PublishLosesNothing(s, w);
    case ClearValue(w) => ClearLoses(s, w);
    case _ => MovesLoseNothing(s, step);
  }

  /** A step that loses nothing, as can be told before it: a delete that was told enough of the value's length, a
      rollback of a record of one sector, the last step of a write whose record is in the table, is going to be deleted
      or has been deleted already, a full device that a worker meets with nothing allocated and nothing to delete but
      what others are writing, or any other step. */
  ghost predicate Tight(s: State, step: Step)
    requires Inv(s) && Enabled(s, step)
  {
    match step
    case ReleaseDeleted(w) =>
      assert LaneOk(s, w) && DeletionOk(s, w, s.lanes[w].deletions[0]);
      var d := s.lanes[w].deletions[0];
      SectorsReleased(d.keyLen, d.oldLen) == SizeOf(s.slots[d.rid].rec)
    case RollbackOne(w) =>
      assert LaneOk(s, w) && WriteOk(s, w, s.lanes[w].batch[0]);
      var rec := s.slots[s.lanes[w].batch[0].rid].rec;
      TotalSize(|rec.key|, rec.valueLen) <= 4096
    case ClearValue(w) =>
      assert LaneOk(s, w);
      var r := s.lanes[w].batch[0].rid;
      InTable(s, r) || DeletionUnderWay(s, r) || s.slots[r].extent.None?
    case AbortOutOfSpace(w) =>
      assert LaneOk(s, w);
      && s.lanes[w].batch == []
      && forall r | 0 <= r < |s.slots| && Dropped(s.lanes[w], r) && s.slots[r].extent.Some? :: InOtherBatch(s, w, r)
    case _ => true
  }

  lemma LosesNothingIffTight(s: State, step: Step)
    requires Inv(s) && Enabled(s, step)
    ensures Leak(s, step) == {} <==> Tight(s, step)
  {
    match step
    case ReleaseDeleted(w) =>
      assert LaneOk(s, w) && DeletionOk(s, w, s.lanes[w].deletions[0]);
      var d := s.lanes[w].deletions[0];
      assert SlotOk(s, d.rid);
      EmptyRange(d.start + Freed(d), SizeOf(s.slots[d.rid].rec) - Freed(d));
    case RollbackOne(w) =>
      var x := s.lanes[w].batch[0];
      assert LaneOk(s, w) && WriteOk(s, w, x);
      EmptyRange(x.start + 1, |x.data| - 1);
    case ClearValue(w) =>
      assert LaneOk(s, w);
      var x := s.slots[s.lanes[w].batch[0].rid];
      assert SlotOk(s, s.lanes[w].batch[0].rid);
      if x.extent.Some? {
        EmptyRange(x.extent.value.start, x.extent.value.count);
      }
    case AbortOutOfSpace(w) => AbortIsTight(s, w);
    case _ =>
  }

  lemma AbortIsTight(s: State, w: nat)
    requires Inv(s) && Enabled(s, AbortOutOfSpace(w))
    ensures Leak(s, AbortOutOfSpace(w)) == {} <==> Tight(s, AbortOutOfSpace(w))
  {
    var b, leak := s.lanes[w].batch, Leak(s, AbortOutOfSpace(w));
    assert LaneOk(s, w);
    if b != [] {
      assert WriteOk(s, w, b[0]) && SlotOk(s, b[0].rid);
      assert InBatch(b, b[0].start);
      assert b[0].start in leak;
    } else {
      assert forall i | 0 <= i < |s.disk| :: !InBatch(b, i);
      forall r | 0 <= r < |s.slots| && Dropped(s.lanes[w], r) && s.slots[r].extent.Some? && !InOtherBatch(s, w, r)
        ensures leak != {}
      {
        var i := s.slots[r].extent.value.start;
        assert SlotOk(s, r);
        assert Owns(s, r, i);
        assert i in leak;
      }
    }
  }

  lemma EmptyRange(start: nat, count: nat)
    ensures Range(start, count) == {} <==> count == 0
  {
    if count > 0 {
      assert Within(start, start, count) && start in Range(start, count);
    } else {
      assert forall i: nat :: !Within(i, start, count);
    }
  }

  /** Told the true length, a delete loses a sector exactly in the eight residues. */
  lemma TrueDeleteIsTight(s: State, w: nat)
    requires Inv(s) && Enabled(s, ReleaseDeleted(w)) && LaneOk(s, w) && DeletionOk(s, w, s.lanes[w].deletions[0])
    ensures var d := s.lanes[w].deletions[0];
      var rec := s.slots[d.rid].rec;
      d.oldLen == rec.valueLen ==>
        (Tight(s, ReleaseDeleted(w)) <==> !(1 <= TotalSize(|rec.key|, rec.valueLen) % 4096 <= 8))
  {
    var d := s.lanes[w].deletions[0];
    ReleasedExactly(|s.slots[d.rid].rec.key|, s.slots[d.rid].rec.valueLen);
  }

  // ----- whole runs

  ghost function Leaks(s: State, steps: seq<Step>): set<nat>
    requires Inv(s) && IsRun(s, steps)
    decreases steps
  {
    if steps == [] then {}
    else StepIsSafe(s, steps[0]); Leak(s, steps[0]) + Leaks(Next(s, steps[0]), steps[1..])
  }

  ghost predicate AllTight(s: State, steps: seq<Step>)
    requires Inv(s) && IsRun(s, steps)
    decreases steps
  {
    steps == [] || (Tight(s, steps[0]) && (StepIsSafe(s, steps[0]); AllTight(Next(s, steps[0]), steps[1..])))
  }

  /** What is lost in the end is what was lost before and the leaks on the way: nothing lost is found again. */
  lemma {:induction false} RunLoses(s: State, steps: seq<Step>)
    requires Inv(s) && Carried(s) && IsRun(s, steps)
    ensures Carried(Final(s, steps))
    ensures LostSectors(Final(s, steps)) == LostSectors(s) + Leaks(s, steps)
    ensures Leaks(s, steps) == {} <==> AllTight(s, steps)
    decreases steps
  {
    if steps != [] {
      StepIsSafe(s, steps[0]);
      CarriedStep(s, steps[0]);
      StepLoses(s, steps[0]);
      LosesNothingIffTight(s, steps[0]);
      RunLoses(Next(s, steps[0]), steps[1..]);
    }
  }

  /** From a fresh device, a run loses no sector exactly if every step of it is tight. */
  lemma RunLosesNothingIff(s: State, steps: seq<Step>)
    requires Init(s) && Inv(s) && IsRun(s, steps)
    ensures LostSectors(s) == {} && LostSectors(Final(s, steps)) == Leaks(s, steps)
    ensures LostSectors(Final(s, steps)) == {} <==> AllTight(s, steps)
  {
    forall i | 16 <= i < |s.disk|
      ensures i in s.free
    {
      assert Within(i, 16, |s.disk| - 16);
    }
    RunLoses(s, steps);
  }
}
