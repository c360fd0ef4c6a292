/** What a restart finds after any run at all: workers may have failed, met a full device, or been overtaken. */
module Aftermath {
  import opened Base
  import opened Format
  import opened Scan
  import opened Recovery
  import opened WriteBehind
  import opened Safety
  import opened Lost
  import opened Layouts
  import opened Restart
  import opened RestartTheorem

  // ----- the invariant

  /** The block shows the header of a record of `n` sectors. */
  ghost predicate Heads(b: Block, n: nat) {
    Classify(b).Some? && ExtentSize(Classify(b).value) == n
  }

  /** The scan can find the record once it is written. */
  ghost predicate Findable(r: Record) {
    1 <= |r.key| <= 4066 && Fits64(r)
  }

  /** The extent of the record shows a header once its batch is written and until it is marked as deleted. */
  ghost predicate TellingSlot(s: State, v: View, r: nat)
    requires r < |s.slots|
  {
    var x := s.slots[r];
    && Findable(x.rec) && !x.put.Nowhere?
    && (x.extent.Some? && Announced(s, r) ==> Shown(v, x.extent.value))
  }

  ghost predicate TellingLane(l: Lane) {
    forall i | 0 <= i < |l.batch| :: l.batch[i].data != [] && Heads(l.batch[i].data[0], |l.batch[i].data|)
  }

  /** What every step keeps, `v` being what the sectors look like. */
  ghost predicate Telling(s: State, v: View) {
    && |v| == |s.disk| && QuietBelow(v) && Carried(s)
    && (forall r | 0 <= r < |s.slots| :: TellingSlot(s, v, r))
    && (forall w | 0 <= w < |s.lanes| :: TellingLane(s.lanes[w]))
  }

  /** Keys are short enough for the first sector. */
  predicate ShortKey(step: Step) {
    step.ClientPut? ==> |step.key| <= 4066
  }

  // ----- steps

  /** Record `r` has not become visible: if it has an extent that shows, it did before. */
  ghost predicate NoNewer(s: State, t: State, r: nat)
    requires r < |s.slots| && r < |t.slots|
  {
    t.slots[r].extent.Some? && Announced(t, r) ==> t.slots[r].extent == s.slots[r].extent && Announced(s, r)
  }

  /** A step that writes nothing. */
  lemma TellingKept(s: State, t: State, v: View)
    requires Telling(s, v) && |t.disk| == |s.disk| && Carried(t)
    requires |s.slots| <= |t.slots| && forall r | 0 <= r < |s.slots| :: NoNewer(s, t, r)
    requires forall r | 0 <= r < |t.slots| :: Findable(t.slots[r].rec) && !t.slots[r].put.Nowhere?
    requires forall r | |s.slots| <= r < |t.slots| :: t.slots[r].extent.None?
    requires forall w | 0 <= w < |t.lanes| :: TellingLane(t.lanes[w])
    ensures Telling(t, v)
  {
    forall r | 0 <= r < |t.slots|
      ensures TellingSlot(t, v, r)
    {
      if r < |s.slots| {
        assert TellingSlot(s, v, r) && NoNewer(s, t, r);
      }
    }
  }

  lemma TellingMoves(s: State, v: View, step: Step)
    requires Inv(s) && Telling(s, v) && Enabled(s, step) && MovesOnly(step)
    requires !step.WriteMarker? && !step.BatchWritten? && !step.BatchFailed?
    ensures Telling(Next(s, step), v)
  {
    var t := Next(s, step);
    Moves(s, step);
    CarriedStep(s, step);
    forall r | 0 <= r < |t.slots|
      ensures NoNewer(s, t, r) && Findable(t.slots[r].rec) && !t.slots[r].put.Nowhere?
    {
      assert TellingSlot(s, v, r);
    }
    forall w | 0 <= w < |t.lanes|
      ensures TellingLane(t.lanes[w])
    {
      assert TellingLane(s.lanes[w]);
    }
    TellingKept(s, t, v);
  }

  lemma TellingClient(s: State, v: View, step: Step)
    requires Inv(s) && Telling(s, v) && Enabled(s, step) && ShortKey(step)
    requires step.ClientPut? || step.ClientDelete? || step.Sweep? || step.SetExpiry?
    ensures Telling(Next(s, step), v)
  {
    var t := Next(s, step);
    assert step.key in s.table ==> TableOk(s, step.key);
    CarriedStep(s, step);
    forall r | 0 <= r < |t.slots|
      ensures Findable(t.slots[r].rec) && !t.slots[r].put.Nowhere?
      ensures r < |s.slots| ==> NoNewer(s, t, r)
    {
      assert r < |s.slots| ==> TellingSlot(s, v, r);
    }
    forall w | 0 <= w < |t.lanes|
      ensures TellingLane(t.lanes[w])
    {
      assert TellingLane(s.lanes[w]);
    }
    TellingKept(s, t, v);
  }

  /** A worker deals with one record, and its batch grows by nothing. */
  lemma TellingWorker(s: State, t: State, v: View, w: nat, r: nat)
    requires Telling(s, v) && |t.disk| == |s.disk| && Carried(t) && w < |s.lanes| && r < |s.slots|
    requires |t.lanes| == |s.lanes| && t.lanes == s.lanes[w := t.lanes[w]]
    requires |t.slots| == |s.slots| && t.slots == s.slots[r := t.slots[r]]
    requires Findable(t.slots[r].rec) && !t.slots[r].put.Nowhere? && NoNewer(s, t, r)
    requires Flushed(t.lanes[w]) ==> Flushed(s.lanes[w])
    requires s.lanes[w].phase.Release? ==> s.lanes[w].deletions != [] && s.lanes[w].deletions[0].rid == r
    requires TellingLane(t.lanes[w])
    ensures Telling(t, v)
  {
    forall q | 0 <= q < |t.slots|
      ensures NoNewer(s, t, q) && Findable(t.slots[q].rec) && !t.slots[q].put.Nowhere?
    {
      assert TellingSlot(s, v, q);
    }
    forall u | 0 <= u < |t.lanes|
      ensures TellingLane(t.lanes[u])
    {
      assert u != w ==> TellingLane(s.lanes[u]);
    }
    TellingKept(s, t, v);
  }

  lemma TellingCheck(s: State, v: View, w: nat)
    requires Inv(s) && Telling(s, v) && Enabled(s, CheckEntry(w))
    ensures Telling(Checked(s, w), v)
  {
    assert LaneOk(s, w) && EntryOk(s, w, s.lanes[w].queue[0]) && TellingLane(s.lanes[w]);
    var r := s.lanes[w].queue[0].rid;
    assert SlotOk(s, r) && TellingSlot(s, v, r);
    CarriedCheck(s, w);
    TellingWorker(s, Checked(s, w), v, w, r);
  }

  lemma TellingAllocate(s: State, v: View, w: nat, start: nat)
    requires Inv(s) && Telling(s, v) && Enabled(s, AllocateExtent(w, start))
    ensures Telling(Allocated(s, w, start), v)
  {
    var t, l := Allocated(s, w, start), s.lanes[w];
    var r := l.queue[0].rid;
    assert LaneOk(s, w) && EntryOk(s, w, l.queue[0]) && SlotOk(s, r) && TellingSlot(s, v, r);
    assert TellingLane(l);
    CarriedAllocate(s, w, start);
    PreparedFirstBlock(s.slots[r].rec);
    assert t.lanes[w].batch == l.batch + [Write(r, start, PreparedBlocks(s.slots[r].rec))];
    TellingWorker(s, t, v, w, r);
  }

  /** Without its first element a batch tells as before. */
  lemma TellingTail(l: Lane, m: Lane)
    requires TellingLane(l) && l.batch != [] && m.batch == l.batch[1..]
    ensures TellingLane(m)
  {
    assert forall i | 0 <= i < |m.batch| :: m.batch[i] == l.batch[i + 1];
  }

  lemma TellingRelease(s: State, v: View, w: nat)
    requires Inv(s) && Telling(s, v) && Enabled(s, ReleaseDeleted(w))
    ensures Telling(Released(s, w), v)
  {
    assert LaneOk(s, w) && DeletionOk(s, w, s.lanes[w].deletions[0]) && TellingLane(s.lanes[w]);
    var r := s.lanes[w].deletions[0].rid;
    assert TellingSlot(s, v, r);
    CarriedRelease(s, w);
    TellingWorker(s, Released(s, w), v, w, r);
  }

  lemma TellingPublish(s: State, v: View, w: nat)
    requires Inv(s) && Telling(s, v) && Enabled(s, PublishSector(w))
    ensures Telling(SectorPublished(s, w), v)
  {
    var r := s.lanes[w].batch[0].rid;
    assert LaneOk(s, w) && WriteOk(s, w, s.lanes[w].batch[0]) && TellingSlot(s, v, r) && TellingLane(s.lanes[w]);
    CarriedPublish(s, w);
    TellingWorker(s, SectorPublished(s, w), v, w, r);
  }

  lemma TellingClear(s: State, v: View, w: nat)
    requires Inv(s) && Telling(s, v) && Enabled(s, ClearValue(w))
    ensures Telling(ValueCleared(s, w), v)
  {
    assert LaneOk(s, w);
    var t, r := ValueCleared(s, w), s.lanes[w].batch[0].rid;
    assert TellingSlot(s, v, r) && TellingLane(s.lanes[w]);
    TellingTail(s.lanes[w], t.lanes[w]);
    CarriedClear(s, w);
    TellingWorker(s, t, v, w, r);
  }

  lemma TellingRollback(s: State, v: View, w: nat)
    requires Inv(s) && Telling(s, v) && Enabled(s, RollbackOne(w))
    ensures Telling(RolledBack(s, w), v)
  {
    var t, r := RolledBack(s, w), s.lanes[w].batch[0].rid;
    assert LaneOk(s, w) && WriteOk(s, w, s.lanes[w].batch[0]) && TellingSlot(s, v, r) && TellingLane(s.lanes[w]);
    TellingTail(s.lanes[w], t.lanes[w]);
    CarriedRollback(s, w);
    TellingWorker(s, t, v, w, r);
  }

  lemma TellingAbort(s: State, v: View, w: nat)
    requires Inv(s) && Telling(s, v) && Enabled(s, AbortOutOfSpace(w))
    ensures Telling(Aborted(s, w), v)
  {
    var t := Aborted(s, w);
    assert LaneOk(s, w);
    CarriedAbort(s, w);
    forall r | 0 <= r < |t.slots|
      ensures NoNewer(s, t, r) && Findable(t.slots[r].rec) && !t.slots[r].put.Nowhere?
    {
      assert TellingSlot(s, v, r);
      AbandonedFrame(s, w, r);
    }
    forall u | 0 <= u < |t.lanes|
      ensures TellingLane(t.lanes[u])
    {
      assert TellingLane(s.lanes[u]);
    }
    TellingKept(s, t, v);
  }

  // ----- steps that write

  /** Writes by worker `w` leave an extent's first sector, or make it show a header, or the extent need not show one. */
  lemma TellingDisk(s: State, t: State, v: View, u: View)
    requires Telling(s, v) && |u| == |v| == |t.disk| && Carried(t) && QuietBelow(u)
    requires t.slots == s.slots && |t.lanes| == |s.lanes|
    requires forall w | 0 <= w < |s.lanes| :: t.lanes[w].batch == s.lanes[w].batch
    requires forall r | 0 <= r < |t.slots| && t.slots[r].extent.Some? && Announced(t, r) ::
      var i := t.slots[r].extent.value.start;
      Shown(u, t.slots[r].extent.value) || (i < |v| && u[i] == v[i] && Announced(s, r))
    ensures Telling(t, u)
  {
    forall r | 0 <= r < |t.slots|
      ensures TellingSlot(t, u, r)
    {
      assert TellingSlot(s, v, r);
    }
    forall w | 0 <= w < |t.lanes|
      ensures TellingLane(t.lanes[w])
    {
      assert TellingLane(s.lanes[w]);
    }
  }

  /** A step writes to no sector of the metadata area. */
  lemma QuietStaysBelow(s: State, step: Step)
    requires Inv(s) && Enabled(s, step) && QuietBelow(ViewOf(s.disk, {}))
    ensures QuietBelow(ViewOf(Next(s, step).disk, {}))
  {
    var t := Next(s, step);
    forall i | 1 <= i < 16 && i < |t.disk|
      ensures ViewOf(t.disk, {})[i] == ViewOf(s.disk, {})[i]
    {
      if t.disk[i] != s.disk[i] {
        var r := WritesStayInOwnExtent(s, step, i);
        OwnershipIsExclusive(s, r, i);
        assert false;
      }
      ViewFrame(s.disk, t.disk, i);
    }
  }

  /** A sector that is not the first of the record that the worker deletes or of one that it flushes is left alone. */
  lemma FirstSectorKept(s: State, step: Step, r: nat)
    requires Inv(s) && Enabled(s, step) && HasExtent(s, r)
    requires step.WriteMarker? || step.BatchWritten? || step.BatchFailed?
    requires LaneOk(s, step.w)
    requires if step.WriteMarker? then s.lanes[step.w].deletions[0].rid != r else !InWrites(s.lanes[step.w].batch, r)
    ensures var i, t := s.slots[r].extent.value.start, Next(s, step);
      i < |s.disk| && ViewOf(t.disk, {})[i] == ViewOf(s.disk, {})[i]
  {
    var i, t, l := s.slots[r].extent.value.start, Next(s, step), s.lanes[step.w];
    assert SlotOk(s, r);
    assert Owns(s, r, i);
    OwnershipIsExclusive(s, r, i);
    if step.WriteMarker? {
      assert DeletionOk(s, step.w, l.deletions[0]);
      assert SlotOk(s, l.deletions[0].rid);
      assert Owns(s, l.deletions[0].rid, l.deletions[0].start);
    } else if t.disk[i] != s.disk[i] {
      var j := WrittenByBatch(s.disk, t.disk, l.batch, i);
      assert WriteOk(s, step.w, l.batch[j]);
      assert Owns(s, l.batch[j].rid, i);
      assert false;
    }
    ViewFrame(s.disk, t.disk, i);
  }

  /** A record that shows after a marker was written did so before, and its first sector is the same. */
  lemma UnmarkedIsKept(s: State, w: nat, written: Block, r: nat)
    requires Inv(s) && Enabled(s, WriteMarker(w, written)) && LaneOk(s, w)
    requires HasExtent(s, r) && Announced(Next(s, WriteMarker(w, written)), r)
    ensures var i, t := s.slots[r].extent.value.start, Next(s, WriteMarker(w, written));
      i < |s.disk| && ViewOf(t.disk, {})[i] == ViewOf(s.disk, {})[i] && Announced(s, r)
  {
    assert DeletionOk(s, w, s.lanes[w].deletions[0]);
    FirstSectorKept(s, WriteMarker(w, written), r);
  }

  lemma TellingMarker(s: State, w: nat, written: Block)
    requires Inv(s) && Telling(s, ViewOf(s.disk, {})) && Enabled(s, WriteMarker(w, written))
    ensures var t := Next(s, WriteMarker(w, written)); Telling(t, ViewOf(t.disk, {}))
  {
    var step := WriteMarker(w, written);
    var t := Next(s, step);
    assert LaneOk(s, w);
    CarriedStep(s, step);
    QuietStaysBelow(s, step);
    var v, u := ViewOf(s.disk, {}), ViewOf(t.disk, {});
    forall r | 0 <= r < |t.slots| && t.slots[r].extent.Some? && Announced(t, r)
      ensures var i := t.slots[r].extent.value.start; i < |v| && u[i] == v[i] && Announced(s, r)
    {
      UnmarkedIsKept(s, w, written, r);
    }
    TellingDisk(s, t, v, u);
  }

  lemma TellingFailed(s: State, w: nat, torn: Disk)
    requires Inv(s) && Telling(s, ViewOf(s.disk, {})) && Enabled(s, BatchFailed(w, torn))
    ensures var t := Next(s, BatchFailed(w, torn)); Telling(t, ViewOf(t.disk, {}))
  {
    var step := BatchFailed(w, torn);
    var t := Next(s, step);
    assert LaneOk(s, w);
    CarriedStep(s, step);
    QuietStaysBelow(s, step);
    var v, u := ViewOf(s.disk, {}), ViewOf(t.disk, {});
    forall r | 0 <= r < |t.slots| && t.slots[r].extent.Some? && Announced(t, r)
      ensures var i := t.slots[r].extent.value.start; i < |v| && u[i] == v[i] && Announced(s, r)
    {
      NotWritten(s, t, w, r);
      FirstSectorKept(s, step, r);
    }
    TellingDisk(s, t, v, u);
  }

  /** A record that shows although worker `w` has not finished its batch is not in that batch. */
  lemma NotWritten(s: State, t: State, w: nat, r: nat)
    requires w < |s.lanes| && LaneOk(s, w) && s.lanes[w].phase.Attempt? && w < |t.lanes| && !Flushed(t.lanes[w])
    requires r < |s.slots| && t.slots == s.slots && Written(t, r)
    ensures !InWrites(s.lanes[w].batch, r)
  {
    var b := s.lanes[w].batch;
    forall j | 0 <= j < |b|
      ensures b[j].rid != r
    {
      assert WriteOk(s, w, b[j]);
    }
  }

  /** A record of the batch shows its header once the batch is written. */
  lemma WrittenShows(s: State, w: nat, r: nat)
    requires Inv(s) && Enabled(s, BatchWritten(w)) && TellingLane(s.lanes[w])
    requires r < |s.slots| && InWrites(s.lanes[w].batch, r)
    ensures s.slots[r].extent.Some? && Shown(ViewOf(Next(s, BatchWritten(w)).disk, {}), s.slots[r].extent.value)
  {
    var b := s.lanes[w].batch;
    assert LaneOk(s, w);
    var j :| 0 <= j < |b| && b[j].rid == r;
    assert WriteOk(s, w, b[j]) && SlotOk(s, r);
    BatchApart(s, w);
    WriteAllStores(s.disk, b, j, b[j].start);
    assert Heads(b[j].data[0], |b[j].data|);
  }

  lemma WrittenOrKept(s: State, w: nat, r: nat)
    requires Inv(s) && Telling(s, ViewOf(s.disk, {})) && Enabled(s, BatchWritten(w)) && LaneOk(s, w)
    requires r < |s.slots| && s.slots[r].extent.Some? && Announced(Next(s, BatchWritten(w)), r)
    ensures var i, u := s.slots[r].extent.value.start, ViewOf(Next(s, BatchWritten(w)).disk, {});
      Shown(u, s.slots[r].extent.value) || (i < |s.disk| && u[i] == ViewOf(s.disk, {})[i] && Announced(s, r))
  {
    if InWrites(s.lanes[w].batch, r) {
      assert TellingLane(s.lanes[w]);
      WrittenShows(s, w, r);
    } else {
      assert CarriedSlot(s, r);
      FirstSectorKept(s, BatchWritten(w), r);
    }
  }

  lemma TellingWritten(s: State, w: nat)
    requires Inv(s) && Telling(s, ViewOf(s.disk, {})) && Enabled(s, BatchWritten(w))
    ensures var t := Next(s, BatchWritten(w)); Telling(t, ViewOf(t.disk, {}))
  {
    var step := BatchWritten(w);
    var t, v, u := Next(s, step), ViewOf(s.disk, {}), ViewOf(Next(s, step).disk, {});
    assert LaneOk(s, w);
    CarriedStep(s, step);
    QuietStaysBelow(s, step);
    forall r | 0 <= r < |t.slots| && t.slots[r].extent.Some? && Announced(t, r)
      ensures var i := t.slots[r].extent.value.start;
        Shown(u, t.slots[r].extent.value) || (i < |v| && u[i] == v[i] && Announced(s, r))
    {
      WrittenOrKept(s, w, r);
    }
    TellingDisk(s, t, v, u);
  }

  /** The steps of a worker on its lists. */
  lemma TellingListed(s: State, v: View, step: Step)
    requires Inv(s) && Telling(s, v) && Enabled(s, step)
    requires step.CheckEntry? || step.AllocateExtent? || step.AbortOutOfSpace? || step.ReleaseDeleted?
             || step.PublishSector? || step.ClearValue? || step.RollbackOne?
    ensures Telling(Next(s, step), v)
  {
    match step
    case CheckEntry(w) => TellingCheck(s, v, w);
    case AllocateExtent(w, start) => TellingAllocate(s, v, w, start);
    case AbortOutOfSpace(w) => TellingAbort(s, v, w);
    case ReleaseDeleted(w) => TellingRelease(s, v, w);
    case PublishSector(w) => TellingPublish(s, v, w);
    case ClearValue(w) => TellingClear(s, v, w);
    case RollbackOne(w) => TellingRollback(s, v, w);
  }

  /** Whatever happens, the extents of written records show their headers. */
  lemma TellingStep(s: State, step: Step)
    requires Inv(s) && Telling(s, ViewOf(s.disk, {})) && Enabled(s, step) && ShortKey(step)
    ensures Telling(Next(s, step), ViewOf(Next(s, step).disk, {}))
  {
    var v := ViewOf(s.disk, {});
    match step
    case ClientPut(_, _, _, _, _) => TellingClient(s, v, step);
    case ClientDelete(_, _, _) => TellingClient(s, v, step);
    case Sweep(_, _) => TellingClient(s, v, step);
    case SetExpiry(_, _) => TellingClient(s, v, step);
    case WriteMarker(w, written) => TellingMarker(s, w, written);
    case BatchWritten(w) => TellingWritten(s, w);
    case BatchFailed(w, torn) => TellingFailed(s, w, torn);
    case Drain(_) => TellingMoves(s, v, step);
    case CollectDone(_) => TellingMoves(s, v, step);
    case DeletionsDone(_) => TellingMoves(s, v, step);
    case PublishDone(_) => TellingMoves(s, v, step);
    case RollbackDone(_) => TellingMoves(s, v, step);
    case _ => TellingListed(s, v, step);
  }

  // ----- whole runs

  ghost predicate ShortKeys(steps: seq<Step>) {
    forall i | 0 <= i < |steps| :: ShortKey(steps[i])
  }

  lemma {:induction false} RunTells(s: State, steps: seq<Step>)
    requires Inv(s) && IsRun(s, steps) && ShortKeys(steps) && Telling(s, ViewOf(s.disk, {}))
    ensures Inv(Final(s, steps)) && Telling(Final(s, steps), ViewOf(Final(s, steps).disk, {}))
    decreases steps
  {
    if steps != [] {
      StepIsSafe(s, steps[0]);
      TellingStep(s, steps[0]);
      RunTells(Next(s, steps[0]), steps[1..]);
    }
  }

  /** Once nothing is under way, every extent shows its header. */
  lemma DrainedIsShown(s: State, v: View)
    requires Inv(s) && Telling(s, v) && Drained(s)
    ensures AllShown(s, v)
  {
    forall r: nat | HasExtent(s, r)
      ensures Shown(v, s.slots[r].extent.value)
    {
      var x := s.slots[r];
      assert SlotOk(s, r) && TellingSlot(s, v, r) && CarriedSlot(s, r);
      assert x.put.Listed? ==> LaneOk(s, x.put.w);
    }
  }

  /** After any run on a blank device, once nothing is under way: a restart makes exactly those sectors free that were
      free or in no extent, if and only if none of them looks like a header. So a lost sector comes back unless it is in
      the extent of a forgotten record. */
  lemma RestartAfterAnyRun(s: State, steps: seq<Step>)
    requires Init(s) && Blank(s) && Inv(s) && IsRun(s, steps) && ShortKeys(steps) && Drained(Final(s, steps))
    ensures var t := Final(s, steps);
      var v := ViewOf(t.disk, {});
      var found := Headers(v, 1);
      && Inv(t) && AllShown(t, v)
      && (Complement(OccupiedBy(found), |v|) == t.free + Unowned(t) <==> QuietOutside(t, v))
      && (QuietOutside(t, v) ==> Rebuildable(OccupiedBy(found), |v|))
  {
    var t := Final(s, steps);
    RunTells(s, steps);
    DrainedIsShown(t, ViewOf(t.disk, {}));
    FreeListIff(t, ViewOf(t.disk, {}));
  }

  // ----- lost sectors

  /** A record in the extent of which sector `i` lies has been forgotten. */
  ghost predicate InOrphan(s: State, i: nat) {
    exists r :: 0 <= r < |s.slots| && Owns(s, r, i) && Orphan(s, r)
  }

  /** Once nothing is under way, a sector is lost exactly if it is in no extent and not free, or in that of an
      orphan. */
  lemma LostWhenDrained(s: State, i: nat)
    requires Inv(s) && Drained(s)
    ensures i in LostSectors(s) <==> i in Unowned(s) || InOrphan(s, i)
  {
    forall r: nat, w: nat | w < |s.lanes|
      ensures !HeldBy(s.lanes[w], r)
    {
      assert LaneOk(s, w);
    }
    if r :| 0 <= r < |s.slots| && Owns(s, r, i) {
      HeldByOwner(s, r, i);
      OwnershipIsExclusive(s, r, i);
    }
  }

  /** Sector `i` is in the extent of a record that holds its key. */
  ghost predicate InStored(s: State, i: nat) {
    exists r :: 0 <= r < |s.slots| && Owns(s, r, i) && InTable(s, r)
  }

  /** Once nothing is under way, every sector of the data area is free, in the extent of a stored record, or lost, and
      only one of these. */
  lemma SectorsAccountedFor(s: State, i: nat)
    requires Inv(s) && Drained(s) && 16 <= i < |s.disk|
    ensures i in s.free || InStored(s, i) || i in LostSectors(s)
    ensures !(i in s.free && InStored(s, i)) && !(i in s.free && i in LostSectors(s))
    ensures !(InStored(s, i) && i in LostSectors(s))
  {
    LostWhenDrained(s, i);
    if r :| 0 <= r < |s.slots| && Owns(s, r, i) {
      OwnershipIsExclusive(s, r, i);
    }
  }

  /** In a clean run, sectors get lost only to orphans: there are none in the end if and only if every step was
      tight. */
  lemma OrphanFreeIffTight(s: State, steps: seq<Step>)
    requires Init(s) && Blank(s) && Inv(s) && CleanRun(s, steps) && IsRun(s, steps) && Drained(Final(s, steps))
    ensures (forall r: nat :: !Orphan(Final(s, steps), r)) <==> AllTight(s, steps)
  {
    var t := Final(s, steps);
    BlankIsClean(s);
    CleanRunIsClean(s, steps);
    RunLosesNothingIff(s, steps);
    SettledIsShown(t, ViewOf(t.disk, {}));
    if r: nat :| Orphan(t, r) {
      assert SlotOk(t, r);
      var i := t.slots[r].extent.value.start;
      assert Owns(t, r, i);
      LostWhenDrained(t, i);
    } else if i :| i in LostSectors(t) {
      LostWhenDrained(t, i);
    }
  }
}
