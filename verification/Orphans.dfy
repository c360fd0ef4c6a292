/** Orphans, the records that a restart wrongly finds: which step of a clean run makes one. */
module Orphans {
  import opened Scan
  import opened WriteBehind
  import opened Safety
  import opened Lost
  import opened Restart
  import opened RestartTheorem

  /** The record has an extent or is going to get one. */
  ghost predicate WillBeWritten(s: State, r: nat)
    requires r < |s.slots|
  {
    s.slots[r].extent.Some? || AboutToAllocate(s, r) || (s.slots[r].put.Pending? && s.slots[r].rec.refcount > 0)
  }

  /** A worker looks at the deletion of record `r`, finds no sector and drops it, while the record is on its way to
      disk. */
  ghost predicate Dooms(s: State, step: Step, r: nat) {
    && step.CheckEntry? && step.w < |s.lanes| && s.lanes[step.w].queue != []
    && s.lanes[step.w].queue[0].kind.Delete? && s.lanes[step.w].queue[0].rid == r
    && r < |s.slots| && s.slots[r].rec.sector == 0 && WillBeWritten(s, r)
  }

  /** The deletion of the record has been dealt with, but the record is on disk or on its way. */
  ghost predicate Doomed(s: State, r: nat) {
    r < |s.slots| && s.slots[r].del.Done? && WillBeWritten(s, r)
  }

  lemma AllocatingIsPending(s: State, r: nat) returns (w: nat)
    requires Inv(s) && r < |s.slots| && AboutToAllocate(s, r)
    ensures w < |s.lanes| && s.lanes[w].phase.Allocate? && s.slots[r].put == Pending(w)
  {
    w :| 0 <= w < |s.lanes| && s.lanes[w].phase.Allocate? && s.lanes[w].queue != [] && s.lanes[w].queue[0].rid == r;
    assert LaneOk(s, w) && EntryOk(s, w, s.lanes[w].queue[0]);
  }

  /** A lane moves on without starting or ending an allocation of record `r`. */
  lemma SameAllocation(s: State, t: State, w: nat, r: nat)
    requires w < |s.lanes| && |t.lanes| == |s.lanes| && t.lanes == s.lanes[w := t.lanes[w]]
    requires s.lanes[w].phase.Allocate? && s.lanes[w].queue != [] && s.lanes[w].queue[0].rid == r ==>
               t.lanes[w].phase.Allocate? && t.lanes[w].queue != [] && t.lanes[w].queue[0].rid == r
    requires t.lanes[w].phase.Allocate? && t.lanes[w].queue != [] && t.lanes[w].queue[0].rid == r ==>
               s.lanes[w].phase.Allocate? && s.lanes[w].queue != [] && s.lanes[w].queue[0].rid == r
    ensures AboutToAllocate(t, r) <==> AboutToAllocate(s, r)
  {
    if AboutToAllocate(s, r) {
      var u :| 0 <= u < |s.lanes| && s.lanes[u].phase.Allocate? && s.lanes[u].queue != []
        && s.lanes[u].queue[0].rid == r;
      assert t.lanes[u].phase.Allocate? && t.lanes[u].queue != [] && t.lanes[u].queue[0].rid == r;
    }
    if AboutToAllocate(t, r) {
      var u :| 0 <= u < |t.lanes| && t.lanes[u].phase.Allocate? && t.lanes[u].queue != []
        && t.lanes[u].queue[0].rid == r;
      assert s.lanes[u].phase.Allocate? && s.lanes[u].queue != [] && s.lanes[u].queue[0].rid == r;
    }
  }

  lemma DoomClient(s: State, step: Step, r: nat)
    requires Inv(s) && Enabled(s, step) && (step.ClientPut? || step.ClientDelete?)
    ensures Doomed(Next(s, step), r) <==> Doomed(s, r)
  {
    var t := Next(s, step);
    assert step.key in s.table ==> TableOk(s, step.key);
    assert LaneOk(s, step.shard);
    SameAllocation(s, t, step.shard, r);
  }

  lemma DoomCheck(s: State, w: nat, r: nat)
    requires Inv(s) && Enabled(s, CheckEntry(w))
    ensures Doomed(Checked(s, w), r) <==> Doomed(s, r) || Dooms(s, CheckEntry(w), r)
  {
    var t, l := Checked(s, w), s.lanes[w];
    assert LaneOk(s, w);
    var e := l.queue[0];
    assert EntryOk(s, w, e) && SlotOk(s, e.rid);
    if r != e.rid || e.kind.Delete? {
      SameAllocation(s, t, w, r);
    } else if t.lanes[w].phase.Allocate? {
      assert t.lanes[w].queue[0].rid == r;
    } else {
      SameAllocation(s, t, w, r);
      if AboutToAllocate(s, r) {
        var v := AllocatingIsPending(s, r);
      }
    }
  }

  lemma DoomAllocate(s: State, w: nat, start: nat, r: nat)
    requires Inv(s) && Enabled(s, AllocateExtent(w, start))
    ensures Doomed(Allocated(s, w, start), r) <==> Doomed(s, r)
  {
    assert LaneOk(s, w);
    var q := s.lanes[w].queue[0].rid;
    assert EntryOk(s, w, s.lanes[w].queue[0]);
    if r == q {
      assert AboutToAllocate(s, r);
    } else {
      SameAllocation(s, Allocated(s, w, start), w, r);
    }
  }

  lemma DoomRelease(s: State, w: nat, r: nat)
    requires Inv(s) && Enabled(s, ReleaseDeleted(w))
    ensures Doomed(Released(s, w), r) <==> Doomed(s, r)
  {
    var t := Released(s, w);
    assert LaneOk(s, w) && DeletionOk(s, w, s.lanes[w].deletions[0]);
    SameAllocation(s, t, w, r);
    if r == s.lanes[w].deletions[0].rid {
      assert SlotOk(s, r);
      NotAboutToAllocate(s, r);
    }
  }

  lemma DoomPublish(s: State, step: Step, r: nat)
    requires Inv(s) && Enabled(s, step) && (step.PublishSector? || step.ClearValue?)
    ensures Doomed(Next(s, step), r) <==> Doomed(s, r)
  {
    assert LaneOk(s, step.w);
    assert step.PublishSector? ==> WriteOk(s, step.w, s.lanes[step.w].batch[0]);
    SameAllocation(s, Next(s, step), step.w, r);
  }

  lemma DoomMoves(s: State, step: Step, r: nat)
    requires Inv(s) && Enabled(s, step)
    requires step.Drain? || step.CollectDone? || step.WriteMarker? || step.DeletionsDone? || step.BatchWritten?
             || step.BatchFailed? || step.PublishDone?
    ensures Doomed(Next(s, step), r) <==> Doomed(s, r)
  {
    SameAllocation(s, Next(s, step), step.w, r);
  }

  /** A record is doomed exactly by a step that dooms it, and for good. */
  lemma DoomStep(s: State, step: Step, r: nat)
    requires Inv(s) && Enabled(s, step) && CleanStep(step)
    ensures Doomed(Next(s, step), r) <==> Doomed(s, r) || Dooms(s, step, r)
  {
    match step
    case ClientPut(_, _, _, _, _) => DoomClient(s, step, r);
    case ClientDelete(_, _, _) => DoomClient(s, step, r);
    case CheckEntry(w) => DoomCheck(s, w, r);
    case AllocateExtent(w, start) => DoomAllocate(s, w, start, r);
    case ReleaseDeleted(w) => DoomRelease(s, w, r);
    case PublishSector(_) => DoomPublish(s, step, r);
    case ClearValue(_) => DoomPublish(s, step, r);
    case _ => DoomMoves(s, step, r);
  }

  // ----- who is out of the table

  /** A record whose deletion nobody has asked for is in the table. */
  ghost predicate NoneSwept(s: State) {
    forall r | 0 <= r < |s.slots| && s.slots[r].del.Nowhere? :: InTable(s, r)
  }

  lemma NoneSweptKept(s: State, t: State)
    requires NoneSwept(s) && |t.slots| == |s.slots| && t.table == s.table
    requires forall r | 0 <= r < |s.slots| ::
               t.slots[r].rec.key == s.slots[r].rec.key && (t.slots[r].del.Nowhere? ==> s.slots[r].del.Nowhere?)
    ensures NoneSwept(t)
  {
    forall r | 0 <= r < |t.slots| && t.slots[r].del.Nowhere?
      ensures InTable(t, r)
    {
      assert InTable(s, r);
    }
  }

  lemma NoneSweptClient(s: State, step: Step)
    requires Inv(s) && Enabled(s, step) && NoneSwept(s) && (step.ClientPut? || step.ClientDelete?)
    ensures NoneSwept(Next(s, step))
  {
    assert step.key in s.table ==> TableOk(s, step.key);
  }

  lemma NoneSweptCheck(s: State, w: nat)
    requires Inv(s) && Enabled(s, CheckEntry(w)) && NoneSwept(s)
    ensures NoneSwept(Checked(s, w))
  {
    assert LaneOk(s, w) && EntryOk(s, w, s.lanes[w].queue[0]);
    NoneSweptKept(s, Checked(s, w));
  }

  lemma NoneSweptListed(s: State, step: Step)
    requires Inv(s) && Enabled(s, step) && NoneSwept(s)
    requires step.AllocateExtent? || step.ReleaseDeleted? || step.PublishSector? || step.ClearValue?
    ensures NoneSwept(Next(s, step))
  {
    assert LaneOk(s, step.w);
    NoneSweptKept(s, Next(s, step));
  }

  lemma NoneSweptStep(s: State, step: Step)
    requires Inv(s) && Enabled(s, step) && CleanStep(step) && NoneSwept(s)
    ensures NoneSwept(Next(s, step))
  {
    if step.ClientPut? || step.ClientDelete? {
      NoneSweptClient(s, step);
    } else if MovesOnly(step) {
      Moves(s, step);
      NoneSweptKept(s, Next(s, step));
    } else if step.CheckEntry? {
      NoneSweptCheck(s, step.w);
    } else {
      NoneSweptListed(s, step);
    }
  }

  // ----- whole runs

  /** Some step of the run dooms record `r`. */
  ghost predicate DoomedBy(s: State, steps: seq<Step>, r: nat)
    requires Inv(s) && IsRun(s, steps)
    decreases steps
  {
    steps != [] && (Dooms(s, steps[0], r) || (StepIsSafe(s, steps[0]); DoomedBy(Next(s, steps[0]), steps[1..], r)))
  }

  lemma {:induction false} DoomRun(s: State, steps: seq<Step>, r: nat)
    requires Inv(s) && CleanRun(s, steps) && IsRun(s, steps) && NoneSwept(s)
    ensures Doomed(Final(s, steps), r) <==> Doomed(s, r) || DoomedBy(s, steps, r)
    ensures NoneSwept(Final(s, steps))
    decreases steps
  {
    if steps != [] {
      StepIsSafe(s, steps[0]);
      DoomStep(s, steps[0], r);
      NoneSweptStep(s, steps[0]);
      DoomRun(Next(s, steps[0]), steps[1..], r);
    }
  }

  /** After a clean run on a blank device, once everything is drained, a record is an orphan if and only if a worker has
      dropped its deletion while it was on its way to disk. */
  lemma OrphanIffDoomed(s: State, steps: seq<Step>, r: nat)
    requires Init(s) && Blank(s) && Inv(s) && CleanRun(s, steps) && IsRun(s, steps) && Drained(Final(s, steps))
    ensures Orphan(Final(s, steps), r) <==> DoomedBy(s, steps, r)
  {
    var t := Final(s, steps);
    BlankIsClean(s);
    CleanRunIsClean(s, steps);
    DoomRun(s, steps, r);
    if r < |t.slots| {
      SettledSlot(t, ViewOf(t.disk, {}), r);
      assert InTable(t, r) ==> TableOk(t, t.slots[r].rec.key);
    }
  }
}
