/** What a restart brings back, for every run without failures. */
module RestartTheorem {
  import opened Base
  import opened Format
  import opened Scan
  import opened Recovery
  import opened WriteBehind
  import opened Safety
  import opened Layouts
  import opened Restart

  /** Nothing queued and no worker at work. */
  ghost predicate Drained(s: State) {
    forall w | 0 <= w < |s.lanes| :: s.lanes[w].queue == [] && s.lanes[w].phase.Idle?
  }

  /** A state between two batches: safe, clean and drained, `v` being what the sectors look like. */
  ghost predicate Settled(s: State, v: View) {
    Inv(s) && Clean(s, v) && Drained(s)
  }

  /** In a settled state a record that has an extent is on disk only, with its header in the first sector. */
  lemma SettledSlot(s: State, v: View, r: nat)
    requires Settled(s, v) && r < |s.slots|
    ensures s.slots[r].put.Done? && (s.slots[r].del.Nowhere? || s.slots[r].del.Done?)
    ensures s.slots[r].extent.Some? ==>
      var x := s.slots[r];
      && x.extent.value == Extent(x.rec.sector, SizeOf(x.rec)) && 16 <= x.rec.sector
      && x.rec.sector + SizeOf(x.rec) <= |v| && x.rec.value.None? && x.rec.expiry == 0
      && v[x.rec.sector] == Some(HeaderOf(x.rec))
  {
    var x := s.slots[r];
    assert SlotOk(s, r) && CleanRecord(x) && Present(s, r) && ExtentSeen(s, v, r);
    assert x.put.Listed? ==> LaneOk(s, x.put.w);
    assert x.del.Listed? ==> LaneOk(s, x.del.w);
  }

  /** Every extent shows its header, and nothing else looks like one. */
  lemma SettledIsShown(s: State, v: View)
    requires Settled(s, v)
    ensures AllShown(s, v) && QuietOutside(s, v) && Unowned(s) == {}
  {
    forall r: nat | HasExtent(s, r)
      ensures Shown(v, s.slots[r].extent.value)
    {
      SettledSlot(s, v, r);
    }
  }

  /** The header of a record, where the scan will find it. */
  ghost function FoundOf(x: Slot): Found {
    Found(x.rec.sector, HeaderOf(x.rec))
  }

  /** The scan finds exactly the records that have an extent. */
  lemma ScanFindsExtents(s: State, v: View)
    requires Settled(s, v)
    ensures Ascending(Headers(v, 1))
    ensures forall r: nat | HasExtent(s, r) :: FoundOf(s.slots[r]) in Headers(v, 1)
    ensures forall f: Found | f in Headers(v, 1) :: exists r: nat :: HasExtent(s, r) && f == FoundOf(s.slots[r])
  {
    SettledIsShown(s, v);
    HeadersAscend(v, 1);
    forall r: nat | HasExtent(s, r)
      ensures FoundOf(s.slots[r]) in Headers(v, 1)
    {
      ShownIsFound(s, v, r);
      SettledSlot(s, v, r);
    }
    forall f: Found | f in Headers(v, 1)
      ensures exists r: nat :: HasExtent(s, r) && f == FoundOf(s.slots[r])
    {
      var r := FoundIsShown(s, v, f);
      SettledSlot(s, v, r);
    }
  }

  // ----- the free list

  /** The free list rebuilt from the scan is the one in memory. */
  lemma FreeListSurvives(s: State, v: View)
    requires Settled(s, v)
    ensures Rebuildable(OccupiedBy(Headers(v, 1)), |v|)
    ensures Complement(OccupiedBy(Headers(v, 1)), |v|) == s.free
  {
    SettledIsShown(s, v);
    FreeListIff(s, v);
  }

  // ----- the index

  /** A record that has left the table but still has its extent. */
  ghost predicate Orphan(s: State, r: nat) {
    HasExtent(s, r) && !InTable(s, r)
  }

  /** The records of the table, as they are in memory. */
  ghost function MemoryIndex(s: State): map<Bytes, Record>
    requires Inv(s)
  {
    map k | k in s.table :: (assert TableOk(s, k); s.slots[s.table[k]].rec)
  }

  /** Every orphan lies below the record that now holds its key. */
  ghost predicate OrphansShadowed(s: State)
    requires Inv(s)
  {
    forall r: nat | Orphan(s, r) ::
      s.slots[r].rec.key in MemoryIndex(s) && s.slots[r].rec.sector < MemoryIndex(s)[s.slots[r].rec.key].sector
  }

  lemma LiveIsFlushed(s: State, v: View, k: Bytes)
    requires Settled(s, v) && k in s.table
    ensures TableOk(s, k) && HasExtent(s, s.table[k]) && InTable(s, s.table[k])
    ensures s.slots[s.table[k]].rec == ToRecord(FoundOf(s.slots[s.table[k]]))
  {
    assert TableOk(s, k) && SlotOk(s, s.table[k]) && CleanRecord(s.slots[s.table[k]]);
    SettledSlot(s, v, s.table[k]);
  }

  lemma LiveIsHighest(s: State, v: View, k: Bytes)
    requires Settled(s, v) && OrphansShadowed(s) && k in s.table
    ensures k in IndexOf(Headers(v, 1)) && IndexOf(Headers(v, 1))[k] == MemoryIndex(s)[k]
  {
    LiveIsFlushed(s, v, k);
    ScanFindsExtents(s, v);
    var found, f := Headers(v, 1), FoundOf(s.slots[s.table[k]]);
    forall g: Found | g in found && g.header.key == k
      ensures g.sector <= f.sector
    {
      var q: nat :| HasExtent(s, q) && g == FoundOf(s.slots[q]);
      if q != s.table[k] {
        assert Orphan(s, q);
      }
    }
    IndexKeepsHighest(found, f);
  }

  /** The index rebuilt from the scan is the one in memory exactly when every orphan lies below the record that now
      holds its key. */
  lemma IndexSurvivesIff(s: State, v: View)
    requires Settled(s, v)
    ensures IndexOf(Headers(v, 1)) == MemoryIndex(s) <==> OrphansShadowed(s)
  {
    var found := Headers(v, 1);
    if OrphansShadowed(s) {
      forall k | k in s.table
        ensures k in IndexOf(found) && IndexOf(found)[k] == MemoryIndex(s)[k]
      {
        LiveIsHighest(s, v, k);
      }
      forall k | k in IndexOf(found)
        ensures k in s.table
      {
        ScanFindsExtents(s, v);
        var f := IndexHasOnlyFound(found, k);
        var r: nat :| HasExtent(s, r) && f == FoundOf(s.slots[r]);
        assert !InTable(s, r) ==> Orphan(s, r);
      }
    }
    if IndexOf(found) == MemoryIndex(s) {
      forall r: nat | Orphan(s, r)
        ensures s.slots[r].rec.key in MemoryIndex(s)
        ensures s.slots[r].rec.sector < MemoryIndex(s)[s.slots[r].rec.key].sector
      {
        OrphanIsBelow(s, v, r);
      }
    }
  }

  lemma OrphanIsBelow(s: State, v: View, r: nat)
    requires Settled(s, v) && IndexOf(Headers(v, 1)) == MemoryIndex(s) && Orphan(s, r)
    ensures s.slots[r].rec.key in MemoryIndex(s) && s.slots[r].rec.sector < MemoryIndex(s)[s.slots[r].rec.key].sector
  {
    ScanFindsExtents(s, v);
    var k := s.slots[r].rec.key;
    IndexKeepsHighest(Headers(v, 1), FoundOf(s.slots[r]));
    LiveIsFlushed(s, v, k);
    var live := s.table[k];
    SettledSlot(s, v, r);
    SettledSlot(s, v, live);
    OthersApart(s, r);
    assert Apart(s.slots[r].extent, s.slots[live].extent);
  }

  // ----- runs that leave no orphan

  /** The worker has decided to write the record but has not allocated its extent yet. */
  ghost predicate AboutToAllocate(s: State, r: nat) {
    exists w :: 0 <= w < |s.lanes| && s.lanes[w].phase.Allocate? && s.lanes[w].queue != []
      && s.lanes[w].queue[0].rid == r
  }

  /** A put supersedes only a record that has been flushed; a delete takes no record that is on its way to disk. */
  ghost predicate Disciplined(s: State, step: Step) {
    match step
    case ClientPut(key, _, _, _, _) =>
      key in s.table && s.table[key] < |s.slots| ==> s.slots[s.table[key]].rec.sector != 0
    case ClientDelete(key, _, _) =>
      key in s.table && s.table[key] < |s.slots| ==>
        var r := s.table[key];
        s.slots[r].rec.sector != 0 || (s.slots[r].put.Pending? && !AboutToAllocate(s, r))
    case _ => true
  }

  /** Whoever has left the table is on its way out: its deletion is under way, or it will never be written. */
  ghost predicate TidySlot(s: State, r: nat)
    requires r < |s.slots|
  {
    var x := s.slots[r];
    !InTable(s, r) ==>
      && (x.extent.Some? ==> x.rec.sector != 0 && (x.del.Pending? || x.del.Listed?))
      && (x.put.Pending? ==> x.rec.refcount == 0)
      && !AboutToAllocate(s, r)
  }

  ghost predicate Tidy(s: State) {
    forall r | 0 <= r < |s.slots| :: TidySlot(s, r)
  }

  /** No lane but `w` starts an allocation, and `w` does not. */
  lemma NoNewAllocation(s: State, t: State, w: nat, q: nat)
    requires w < |s.lanes| && |t.lanes| == |s.lanes| && t.lanes == s.lanes[w := t.lanes[w]]
    requires t.lanes[w].phase.Allocate? ==>
               s.lanes[w].phase.Allocate? && s.lanes[w].queue != [] && s.lanes[w].queue <= t.lanes[w].queue
    ensures AboutToAllocate(t, q) ==> AboutToAllocate(s, q)
  {
    if AboutToAllocate(t, q) {
      var u :| 0 <= u < |t.lanes| && t.lanes[u].phase.Allocate? && t.lanes[u].queue != []
        && t.lanes[u].queue[0].rid == q;
      assert u == w ==> s.lanes[w].queue[0] == t.lanes[w].queue[0];
    }
  }

  /** Steps of a worker: the table stays, one record changes, one lane moves on. */
  lemma TidyWorkerStep(s: State, t: State, w: nat, r: nat)
    requires Tidy(s) && w < |s.lanes| && |t.lanes| == |s.lanes| && t.lanes == s.lanes[w := t.lanes[w]]
    requires !t.lanes[w].phase.Allocate? && t.table == s.table
    requires |t.slots| == |s.slots| && (forall q | 0 <= q < |s.slots| && q != r :: t.slots[q] == s.slots[q])
    requires r < |s.slots| ==> t.slots[r].rec.key == s.slots[r].rec.key
    requires r < |s.slots| && !InTable(s, r) ==>
               && (t.slots[r].extent.Some? ==>
                   t.slots[r].rec.sector != 0 && (t.slots[r].del.Pending? || t.slots[r].del.Listed?))
               && (t.slots[r].put.Pending? ==> t.slots[r].rec.refcount == 0)
    ensures Tidy(t)
  {
    forall q | 0 <= q < |t.slots|
      ensures TidySlot(t, q)
    {
      assert TidySlot(s, q);
      NoNewAllocation(s, t, w, q);
    }
  }

  lemma TidyCheck(s: State, w: nat)
    requires Inv(s) && Enabled(s, CheckEntry(w)) && Tidy(s)
    ensures Tidy(Checked(s, w))
  {
    var t, l := Checked(s, w), s.lanes[w];
    assert LaneOk(s, w);
    var e := l.queue[0];
    assert EntryOk(s, w, e) && SlotOk(s, e.rid) && TidySlot(s, e.rid);
    var x := s.slots[e.rid];
    assert InTable(s, e.rid) ==> TableOk(s, x.rec.key);
    if !e.kind.Delete? && x.rec.refcount > 0 && x.rec.sector == 0 {
      forall q | 0 <= q < |t.slots|
        ensures TidySlot(t, q)
      {
        assert TidySlot(s, q);
        if q != e.rid {
          CheckedHead(s, t, w, q);
        }
      }
    } else {
      TidyWorkerStep(s, t, w, e.rid);
    }
  }

  lemma CheckedHead(s: State, t: State, w: nat, q: nat)
    requires w < |s.lanes| && |t.lanes| == |s.lanes| && t.lanes == s.lanes[w := t.lanes[w]]
    requires t.lanes[w].queue != [] ==> t.lanes[w].queue[0].rid != q
    ensures AboutToAllocate(t, q) ==> AboutToAllocate(s, q)
  {
    if AboutToAllocate(t, q) {
      var u :| 0 <= u < |t.lanes| && t.lanes[u].phase.Allocate? && t.lanes[u].queue != []
        && t.lanes[u].queue[0].rid == q;
      assert u != w;
    }
  }

  lemma TidyAllocate(s: State, w: nat, start: nat)
    requires Inv(s) && Enabled(s, AllocateExtent(w, start)) && Tidy(s)
    ensures Tidy(Allocated(s, w, start))
  {
    assert LaneOk(s, w);
    var r := s.lanes[w].queue[0].rid;
    assert EntryOk(s, w, s.lanes[w].queue[0]) && TidySlot(s, r) && AboutToAllocate(s, r);
    TidyWorkerStep(s, Allocated(s, w, start), w, r);
  }

  lemma TidyRelease(s: State, w: nat)
    requires Inv(s) && Enabled(s, ReleaseDeleted(w)) && Tidy(s)
    ensures Tidy(Released(s, w))
  {
    assert LaneOk(s, w);
    var r := s.lanes[w].deletions[0].rid;
    assert DeletionOk(s, w, s.lanes[w].deletions[0]) && TidySlot(s, r);
    TidyWorkerStep(s, Released(s, w), w, r);
  }

  lemma TidyPublish(s: State, w: nat)
    requires Inv(s) && Enabled(s, PublishSector(w)) && Tidy(s)
    ensures Tidy(SectorPublished(s, w))
  {
    assert LaneOk(s, w);
    var r := s.lanes[w].batch[0].rid;
    assert WriteOk(s, w, s.lanes[w].batch[0]) && TidySlot(s, r);
    TidyWorkerStep(s, SectorPublished(s, w), w, r);
  }

  lemma TidyClear(s: State, w: nat)
    requires Inv(s) && Enabled(s, ClearValue(w)) && Tidy(s)
    ensures Tidy(ValueCleared(s, w))
  {
    assert LaneOk(s, w);
    var r := s.lanes[w].batch[0].rid;
    assert TidySlot(s, r);
    TidyWorkerStep(s, ValueCleared(s, w), w, r);
  }

  lemma TidyPut(s: State, key: Bytes, rec: Record, i: nat)
    requires Inv(s) && i < |s.lanes| && Unflushed(rec, key) && Tidy(s)
    requires key in s.table && s.table[key] < |s.slots| ==> s.slots[s.table[key]].rec.sector != 0
    ensures Tidy(Put(s, key, rec, i))
  {
    var t, n := Put(s, key, rec, i), |s.slots|;
    assert LaneOk(s, i);
    if key in s.table {
      assert TableOk(s, key) && SlotOk(s, s.table[key]);
    }
    forall q | 0 <= q < |t.slots|
      ensures TidySlot(t, q)
    {
      if q < n {
        assert TidySlot(s, q);
        NoNewAllocation(s, t, i, q);
        if key in s.table && q == s.table[key] {
          NotAboutToAllocate(s, q);
        }
      }
    }
  }

  /** A flushed record is not about to be allocated. */
  lemma NotAboutToAllocate(s: State, r: nat)
    requires Inv(s) && r < |s.slots| && s.slots[r].rec.sector != 0
    ensures !AboutToAllocate(s, r)
  {
    assert SlotOk(s, r);
    forall w | 0 <= w < |s.lanes| && s.lanes[w].phase.Allocate? && s.lanes[w].queue != []
      ensures s.lanes[w].queue[0].rid != r
    {
      assert LaneOk(s, w) && EntryOk(s, w, s.lanes[w].queue[0]);
    }
  }

  lemma TidyDelete(s: State, key: Bytes, timestamp: nat, i: nat)
    requires Inv(s) && Enabled(s, ClientDelete(key, timestamp, i)) && Disciplined(s, ClientDelete(key, timestamp, i))
    requires Tidy(s)
    ensures Tidy(Remove(s, key, 0, s.slots[s.table[key]].rec.valueLen, true, i))
  {
    var r := s.table[key];
    var t := Remove(s, key, 0, s.slots[r].rec.valueLen, true, i);
    assert LaneOk(s, i) && TableOk(s, key) && SlotOk(s, r);
    if s.slots[r].rec.sector != 0 {
      NotAboutToAllocate(s, r);
    }
    forall q | 0 <= q < |t.slots|
      ensures TidySlot(t, q)
    {
      assert TidySlot(s, q);
      NoNewAllocation(s, t, i, q);
    }
  }

  lemma TidyStep(s: State, step: Step)
    requires Inv(s) && Enabled(s, step) && CleanStep(step) && Disciplined(s, step) && Tidy(s)
    ensures Tidy(Next(s, step))
  {
    match step
    case ClientPut(key, value, timestamp, expiry, i) => TidyPut(s, key, NewRecord(key, value, timestamp, expiry), i);
    case ClientDelete(key, timestamp, i) => TidyDelete(s, key, timestamp, i);
    case CheckEntry(w) => TidyCheck(s, w);
    case AllocateExtent(w, start) => TidyAllocate(s, w, start);
    case ReleaseDeleted(w) => TidyRelease(s, w);
    case PublishSector(w) => TidyPublish(s, w);
    case ClearValue(w) => TidyClear(s, w);
    case Drain(w) => TidyWorkerStep(s, Next(s, step), w, |s.slots|);
    case CollectDone(w) => TidyWorkerStep(s, Next(s, step), w, |s.slots|);
    case WriteMarker(w, _) => TidyWorkerStep(s, Next(s, step), w, |s.slots|);
    case DeletionsDone(w) => TidyWorkerStep(s, Next(s, step), w, |s.slots|);
    case BatchWritten(w) => TidyWorkerStep(s, Next(s, step), w, |s.slots|);
    case BatchFailed(w, _) => TidyWorkerStep(s, Next(s, step), w, |s.slots|);
    case PublishDone(w) => TidyWorkerStep(s, Next(s, step), w, |s.slots|);
    case _ =>
  }

  // ----- the theorem

  /** A run in which every batch is written in the end, with room for every record and with TTL off, each record of
      which a delete can wipe out. */
  ghost predicate CleanRun(s: State, steps: seq<Step>)
    requires Inv(s)
    decreases steps
  {
    steps == [] ||
    (Enabled(s, steps[0]) && CleanStep(steps[0])
     && (StepIsSafe(s, steps[0]); CleanRun(Next(s, steps[0]), steps[1..])))
  }

  /** Moreover, no step takes a record from the table while it is on its way to disk. */
  ghost predicate DisciplinedRun(s: State, steps: seq<Step>)
    requires Inv(s) && IsRun(s, steps)
    decreases steps
  {
    steps == [] ||
    (Disciplined(s, steps[0]) && (StepIsSafe(s, steps[0]); DisciplinedRun(Next(s, steps[0]), steps[1..])))
  }

  lemma {:induction false} CleanRunIsClean(s: State, steps: seq<Step>)
    requires Inv(s) && CleanRun(s, steps) && Clean(s, ViewOf(s.disk, {}))
    ensures IsRun(s, steps) && Inv(Final(s, steps)) && Clean(Final(s, steps), ViewOf(Final(s, steps).disk, {}))
    decreases steps
  {
    if steps != [] {
      StepIsSafe(s, steps[0]);
      CleanStepKeepsClean(s, steps[0]);
      CleanRunIsClean(Next(s, steps[0]), steps[1..]);
    }
  }

  lemma {:induction false} DisciplinedRunIsTidy(s: State, steps: seq<Step>)
    requires Inv(s) && CleanRun(s, steps) && IsRun(s, steps) && DisciplinedRun(s, steps) && Tidy(s)
    ensures Tidy(Final(s, steps))
    decreases steps
  {
    if steps != [] {
      StepIsSafe(s, steps[0]);
      TidyStep(s, steps[0]);
      DisciplinedRunIsTidy(Next(s, steps[0]), steps[1..]);
    }
  }

  /** No sector from 1 on looks like a header. */
  ghost predicate Blank(s: State) {
    forall i | 1 <= i < |s.disk| :: ViewOf(s.disk, {})[i].None?
  }

  lemma BlankIsClean(s: State)
    requires Init(s) && Blank(s)
    ensures Clean(s, ViewOf(s.disk, {})) && Tidy(s)
  {
    forall i | 16 <= i < |s.disk|
      ensures i in s.free
    {
      assert Within(i, 16, |s.disk| - 16);
    }
  }

  /** A device full of zeroes is blank. */
  lemma ZeroedIsBlank(s: State)
    requires forall i | 1 <= i < |s.disk| :: s.disk[i] == seq(4096, (_: nat) => 0 as Byte)
    ensures Blank(s)
  {
    forall i | 1 <= i < |s.disk|
      ensures ViewOf(s.disk, {})[i].None?
    {
      var b := s.disk[i];
      assert b[..2] == [0, 0];
      assert FromLe([0, 0]) == 0 + 256 * FromLe([0, 0][1..]) && [0, 0][1..] == [0];
    }
  }

  /** Restart, in general: after any clean run on a blank device, once everything is drained, the scan rebuilds exactly
      the free list, and it rebuilds the index exactly when every orphan lies below the record that now holds its
      key. */
  lemma RestartAfterCleanRun(s: State, steps: seq<Step>)
    requires Init(s) && Blank(s) && Inv(s) && CleanRun(s, steps)
    ensures IsRun(s, steps)
    ensures var t := Final(s, steps);
      var found := Headers(ViewOf(t.disk, {}), 1);
      Inv(t) && (Drained(t) ==>
        && Rebuildable(OccupiedBy(found), |t.disk|)
        && Complement(OccupiedBy(found), |t.disk|) == t.free
        && (IndexOf(found) == MemoryIndex(t) <==> OrphansShadowed(t)))
  {
    BlankIsClean(s);
    CleanRunIsClean(s, steps);
    var t := Final(s, steps);
    if Drained(t) {
      FreeListSurvives(t, ViewOf(t.disk, {}));
      IndexSurvivesIff(t, ViewOf(t.disk, {}));
    }
  }

  lemma TidyHasNoOrphan(s: State, v: View)
    requires Settled(s, v) && Tidy(s)
    ensures forall r: nat :: !Orphan(s, r)
  {
    forall r: nat | HasExtent(s, r)
      ensures InTable(s, r)
    {
      SettledSlot(s, v, r);
      assert TidySlot(s, r);
    }
  }

  /** What reading through a recovered index gives. */
  ghost function ReadBack(disk: Disk, index: map<Bytes, Record>): map<Bytes, Result<Bytes>> {
    map k | k in index :: LoadValue(disk, true, index[k])
  }

  lemma MemoryReadsBack(s: State, v: View)
    requires Settled(s, v)
    ensures ReadBack(s.disk, MemoryIndex(s)) == Contents(s)
  {
    forall k | k in s.table
      ensures LoadValue(s.disk, true, MemoryIndex(s)[k]) == Contents(s)[k]
    {
      LiveIsFlushed(s, v, k);
    }
  }

  /** Without orphans no key is found twice. */
  lemma FoundKeysDiffer(s: State, v: View)
    requires Settled(s, v) && Tidy(s)
    ensures DistinctKeys(Headers(v, 1))
  {
    var found := Headers(v, 1);
    ScanFindsExtents(s, v);
    TidyHasNoOrphan(s, v);
    HeadersAscend(v, 1);
    forall i, j | 0 <= i < j < |found|
      ensures found[i].header.key != found[j].header.key
    {
      assert found[i] in found && found[j] in found;
      var p: nat :| HasExtent(s, p) && found[i] == FoundOf(s.slots[p]);
      var q: nat :| HasExtent(s, q) && found[j] == FoundOf(s.slots[q]);
      assert !Orphan(s, p) && !Orphan(s, q);
      assert found[i].sector + ExtentSize(found[i].header) <= found[j].sector;
    }
  }

  /** A state from which a restart is exact: the disk shows what memory knows, and nothing is left behind. */
  ghost predicate CleanStart(s: State) {
    Inv(s) && Clean(s, ViewOf(s.disk, {})) && Tidy(s)
  }

  /** A run that meets no failure, and in which no put supersedes an unflushed record and no delete catches a record on
      its way to disk. */
  ghost predicate GoodRun(s: State, steps: seq<Step>) {
    Inv(s) && CleanRun(s, steps) && IsRun(s, steps) && DisciplinedRun(s, steps)
  }

  /** It stays such a run if a worker goes on without giving anything up. */
  lemma {:induction false} GoodRunWorks(s: State, steps: seq<Step>, more: seq<Step>)
    requires GoodRun(s, steps) && IsRun(s, more) && steps <= more
    requires forall i | |steps| <= i < |more| ::
               CleanStep(more[i]) && !more[i].ClientPut? && !more[i].ClientDelete?
    ensures GoodRun(s, more)
    decreases more
  {
    if more != [] {
      StepIsSafe(s, more[0]);
      assert forall i | 0 <= i < |more[1..]| :: more[1..][i] == more[i + 1];
      if steps == [] {
        GoodRunWorks(Next(s, more[0]), [], more[1..]);
      } else {
        assert steps[0] == more[0] && steps[1..] <= more[1..];
        GoodRunWorks(Next(s, steps[0]), steps[1..], more[1..]);
      }
    }
  }

  /** And if a client takes a step that is clean and disciplined. */
  lemma {:induction false} GoodRunStep(s: State, steps: seq<Step>, step: Step)
    requires GoodRun(s, steps) && Inv(Final(s, steps)) && Enabled(Final(s, steps), step)
    requires CleanStep(step) && Disciplined(Final(s, steps), step)
    ensures GoodRun(s, steps + [step])
    decreases steps
  {
    var more := steps + [step];
    RunExtends(s, steps, step);
    if steps == [] {
      assert more == [step] && more[1..] == [];
      StepIsSafe(s, step);
    } else {
      StepIsSafe(s, steps[0]);
      assert more[0] == steps[0] && more[1..] == steps[1..] + [step];
      GoodRunStep(Next(s, steps[0]), steps[1..], step);
    }
  }

  /** After such a run from such a state, once everything is drained, the rebuilt index and free list are those in
      memory, no key is found twice, and the index reads back everything the clients left in the store. */
  lemma RestartFrom(s: State, steps: seq<Step>)
    requires CleanStart(s) && GoodRun(s, steps) && Drained(Final(s, steps))
    ensures var t := Final(s, steps);
      var found := Headers(ViewOf(t.disk, {}), 1);
      && Settled(t, ViewOf(t.disk, {})) && Tidy(t)
      && IndexOf(found) == MemoryIndex(t) && DistinctKeys(found)
      && Rebuildable(OccupiedBy(found), |t.disk|) && Complement(OccupiedBy(found), |t.disk|) == t.free
      && ReadBack(t.disk, IndexOf(found)) == SpecFinal(Contents(s), steps)
  {
    CleanRunIsClean(s, steps);
    DisciplinedRunIsTidy(s, steps);
    var t := Final(s, steps);
    var v := ViewOf(t.disk, {});
    TidyHasNoOrphan(t, v);
    FoundKeysDiffer(t, v);
    IndexSurvivesIff(t, v);
    FreeListSurvives(t, v);
    MemoryReadsBack(t, v);
    RunsRefineMap(s, steps);
  }

  /** Restart equivalence: from a blank device. */
  lemma RestartEquivalence(s: State, steps: seq<Step>)
    requires Init(s) && Blank(s) && GoodRun(s, steps) && Drained(Final(s, steps))
    ensures var t := Final(s, steps);
      var found := Headers(ViewOf(t.disk, {}), 1);
      && Inv(t)
      && IndexOf(found) == MemoryIndex(t)
      && Complement(OccupiedBy(found), |t.disk|) == t.free
      && ReadBack(t.disk, IndexOf(found)) == SpecFinal(map[], steps)
  {
    BlankIsClean(s);
    InitIsSafe(s);
    RestartFrom(s, steps);
  }
}
