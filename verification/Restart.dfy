/** Restarting: what the recovery scan makes of the disk that the write-behind protocol leaves behind. */
module Restart {
  import opened Base
  import opened Format
  import opened Scan
  import opened WriteBehind
  import opened Safety

  // ----- records that leave no trace when deleted

  /** The first block announces the record, the others do not look like headers. */
  ghost predicate Announces(data: seq<Block>, p: Parsed) {
    && data != [] && Classify(data[0]) == Some(p)
    && forall i | 1 <= i < |data| :: Classify(data[i]).None?
  }

  /** A delete of the record frees its whole extent, and its later sectors do not look like headers. */
  ghost predicate Recoverable(r: Record) {
    && 1 <= |r.key| <= 4066 && Fits64(r) && r.expiry == 0
    && SectorsReleased(|r.key|, r.valueLen) == SizeOf(r)
    && forall i | 1 <= i < |PreparedBlocks(r)| :: Classify(PreparedBlocks(r)[i]).None?
  }

  /** A record that fits one sector is such a record. */
  lemma OneSectorIsRecoverable(key: Bytes, value: Bytes, timestamp: nat)
    requires 1 <= |key| && 1 <= |value| && 30 + |key| + |value| <= 4096 && timestamp < TWO_TO_THE_64
    ensures Recoverable(NewRecord(key, value, timestamp, 0))
  {
    ReleasedExactly(|key|, |value|);
  }

  lemma RecoverableAnnounces(r: Record)
    requires Recoverable(r) && HoldsValue(r)
    ensures Announces(PreparedBlocks(r), HeaderOf(r))
  {
    PreparedFirstBlock(r);
  }

  // ----- the invariant of runs without failures

  /** The record's batch has been written. */
  ghost predicate Written(s: State, r: nat)
    requires r < |s.slots|
  {
    var p := s.slots[r].put;
    p.Done? || (p.Listed? && p.w < |s.lanes| && (s.lanes[p.w].phase.Publish? || s.lanes[p.w].phase.Clear?))
  }

  /** The deletion marker has been written over the record. */
  ghost predicate Marked(s: State, r: nat)
    requires r < |s.slots|
  {
    var d := s.slots[r].del;
    && d.Listed? && d.w < |s.lanes| && s.lanes[d.w].phase.Release?
    && s.lanes[d.w].deletions != [] && s.lanes[d.w].deletions[0].rid == r
  }

  ghost predicate Announced(s: State, r: nat)
    requires r < |s.slots|
  {
    Written(s, r) && !Marked(s, r)
  }

  /** Record `r` shows or does not show as before. */
  ghost predicate SameSeen(s: State, t: State, r: nat)
    requires r < |s.slots| && r < |t.slots|
  {
    Written(t, r) == Written(s, r) && Marked(t, r) == Marked(s, r)
  }

  /** The extent of record `r`, once it is written, shows its header until it is marked. Before that it may show
      anything: an attempt to write it may have failed. */
  ghost predicate ExtentSeen(s: State, v: View, r: nat)
    requires r < |s.slots| && |v| == |s.disk|
  {
    var x := s.slots[r];
    x.extent.Some? && x.extent.value.start + x.extent.value.count <= |v| && Written(s, r) ==>
      && (x.extent.value.count >= 1 ==>
            v[x.extent.value.start] == if Marked(s, r) then None else Some(HeaderOf(x.rec)))
      && forall i | x.extent.value.start < i < x.extent.value.start + x.extent.value.count :: v[i].None?
  }

  /** What is under way for a record is in some lane's hands. */
  ghost predicate Present(s: State, r: nat)
    requires r < |s.slots|
  {
    var x := s.slots[r];
    && (x.put.Pending? ==> x.put.w < |s.lanes| && InQueue(s.lanes[x.put.w].queue, r, false))
    && (x.put.Listed? ==> x.put.w < |s.lanes| && InWrites(s.lanes[x.put.w].batch, r))
    && (x.del.Pending? ==> x.del.w < |s.lanes| && InQueue(s.lanes[x.del.w].queue, r, true))
    && (x.del.Listed? ==> x.del.w < |s.lanes| && InDeletions(s.lanes[x.del.w].deletions, r))
  }

  ghost predicate CleanRecord(x: Slot) {
    && !x.put.Nowhere?
    && 1 <= |x.rec.key| <= 4066 && Fits64(x.rec) && x.rec.expiry == 0
    && SectorsReleased(|x.rec.key|, x.rec.valueLen) == SizeOf(x.rec)
    && (x.put.Pending? ==> HoldsValue(x.rec) && Announces(PreparedBlocks(x.rec), HeaderOf(x.rec)))
    && (x.put.Done? ==> x.rec.sector != 0 || (x.rec.refcount == 0 && x.extent.None?))
    && (x.put.Done? && x.rec.sector != 0 ==> x.rec.value.None?)
  }

  ghost predicate CleanLane(s: State, w: nat)
    requires w < |s.lanes|
  {
    var l := s.lanes[w];
    && (forall i | 0 <= i < |l.queue| && l.queue[i].kind.Delete? && l.queue[i].rid < |s.slots| ::
          l.queue[i].oldLen == s.slots[l.queue[i].rid].rec.valueLen)
    && (forall i | 0 <= i < |l.deletions| && l.deletions[i].rid < |s.slots| ::
          Freed(l.deletions[i]) == SizeOf(s.slots[l.deletions[i].rid].rec))
    && (forall i | 0 <= i < |l.batch| && l.batch[i].rid < |s.slots| ::
          Announces(l.batch[i].data, HeaderOf(s.slots[l.batch[i].rid].rec)))
  }

  /** No sector is lost, and no sector outside an extent looks like a header. */
  ghost predicate NothingLost(s: State, v: View)
    requires |v| == |s.disk|
  {
    && (forall i {:trigger Owned(s, i)} | 16 <= i < |s.disk| :: i in s.free || Owned(s, i))
    && (forall i | i in s.free && i < |v| :: v[i].None?)
    && (forall i | 1 <= i < 16 && i < |v| :: v[i].None?)
  }

  /** What every step without a failure keeps, `v` being what the sectors look like. */
  ghost predicate Clean(s: State, v: View) {
    && |v| == |s.disk|
    && (forall r | 0 <= r < |s.slots| :: CleanRecord(s.slots[r]) && Present(s, r) && ExtentSeen(s, v, r))
    && (forall w | 0 <= w < |s.lanes| :: CleanLane(s, w))
    && NothingLost(s, v)
  }

  /** A step that gives up no batch, tears no marker and meets no full device, with TTL off. A write may fail as long as
      a later attempt succeeds. */
  ghost predicate CleanStep(step: Step) {
    match step
    case ClientPut(key, value, timestamp, expiry, _) => Recoverable(NewRecord(key, value, timestamp, expiry))
    case Sweep(_, _) => false
    case SetExpiry(_, _) => false
    case AbortOutOfSpace(_) => false
    case WriteMarker(_, written) => written == DeletionMarker()
    case RollbackOne(_) => false
    case RollbackDone(_) => false
    case _ => true
  }

  lemma ViewFrame(d: Disk, e: Disk, i: nat)
    requires |d| == |e| && i < |d| && d[i] == e[i]
    ensures ViewOf(d, {})[i] == ViewOf(e, {})[i]
  {
  }

  lemma MarkerIsNoHeader(d: Disk, i: nat)
    requires i < |d| && d[i] == DeletionMarker()
    ensures ViewOf(d, {})[i].None?
  {
  }

  // ----- steps

  /** Records that did not change, in lanes that still have them. */
  lemma RecordFrame(s: State, t: State, v: View, r: nat)
    requires r < |s.slots| && r < |t.slots| && t.slots[r] == s.slots[r] && |v| == |s.disk| == |t.disk|
    requires ExtentSeen(s, v, r) && SameSeen(s, t, r)
    ensures ExtentSeen(t, v, r)
  {
  }

  /** Ownership does not depend on lanes. */
  lemma LostFrame(s: State, t: State, v: View)
    requires |v| == |s.disk| == |t.disk| && NothingLost(s, v) && t.free == s.free
    requires |s.slots| <= |t.slots| && forall r | 0 <= r < |s.slots| :: t.slots[r].extent == s.slots[r].extent
    ensures NothingLost(t, v)
  {
    forall i | 16 <= i < |t.disk|
      ensures i in t.free || Owned(t, i)
    {
      if i !in s.free {
        assert Owned(s, i);
        var r :| 0 <= r < |s.slots| && Owns(s, r, i);
        assert Owns(t, r, i);
      }
    }
  }

  /** The batch of the lane is on disk. */
  ghost predicate Flushed(l: Lane) {
    l.phase.Publish? || l.phase.Clear?
  }

  /** A lane changes phase and nothing else. */
  lemma CleanMove(s: State, t: State, v: View, w: nat)
    requires Clean(s, v) && w < |s.lanes|
    requires |t.lanes| == |s.lanes| && t == s.(lanes := s.lanes[w := t.lanes[w]])
    requires t.lanes[w].queue == s.lanes[w].queue && t.lanes[w].batch == s.lanes[w].batch
    requires t.lanes[w].deletions == s.lanes[w].deletions
    requires !t.lanes[w].phase.Release? && !s.lanes[w].phase.Release?
    requires Flushed(s.lanes[w]) == Flushed(t.lanes[w]) || s.lanes[w].batch == []
    ensures Clean(t, v)
  {
    forall r | 0 <= r < |t.slots|
      ensures Present(t, r) && ExtentSeen(t, v, r)
    {
      assert Present(s, r) && ExtentSeen(s, v, r);
      RecordFrame(s, t, v, r);
    }
    forall u | 0 <= u < |t.lanes|
      ensures CleanLane(t, u)
    {
      assert CleanLane(s, u);
    }
    LostFrame(s, t, v);
  }

  // ----- steps that deal with one record

  /** The lane only adds to its lists, or takes record `r` off the front of them. */
  ghost predicate DealsWith(l: Lane, m: Lane, r: nat) {
    && (m.queue == l.queue || (l.queue != [] && l.queue[0].rid == r && m.queue == l.queue[1..]))
    && (l.batch <= m.batch || (l.batch != [] && l.batch[0].rid == r && m.batch == l.batch[1..]))
    && (l.deletions <= m.deletions || (l.deletions != [] && l.deletions[0].rid == r && m.deletions == l.deletions[1..]))
    && Flushed(l) == Flushed(m)
    && (l.phase.Release? ==> l.deletions != [] && l.deletions[0].rid == r)
    && !m.phase.Release?
  }

  lemma QueueTail(q: seq<Entry>, r: nat, deletion: bool)
    requires InQueue(q, r, deletion) && !(q[0].rid == r && q[0].kind.Delete? == deletion)
    ensures InQueue(q[1..], r, deletion)
  {
    var i :| 0 <= i < |q| && q[i].rid == r && q[i].kind.Delete? == deletion;
    assert q[1..][i - 1] == q[i];
  }

  lemma WritesTail(b: seq<Write>, r: nat)
    requires InWrites(b, r) && b[0].rid != r
    ensures InWrites(b[1..], r)
  {
    var i :| 0 <= i < |b| && b[i].rid == r;
    assert b[1..][i - 1] == b[i];
  }

  lemma DeletionsTail(d: seq<Deletion>, r: nat)
    requires InDeletions(d, r) && d[0].rid != r
    ensures InDeletions(d[1..], r)
  {
    var i :| 0 <= i < |d| && d[i].rid == r;
    assert d[1..][i - 1] == d[i];
  }

  /** The other records stay where they are. */
  lemma PresentFrame(s: State, t: State, w: nat, r: nat, q: nat)
    requires q < |s.slots| && q < |t.slots| && t.slots[q] == s.slots[q] && Present(s, q) && q != r
    requires w < |s.lanes| && |t.lanes| == |s.lanes| && t.lanes == s.lanes[w := t.lanes[w]]
    requires DealsWith(s.lanes[w], t.lanes[w], r)
    ensures Present(t, q) && SameSeen(s, t, q)
  {
    var x, l, m := s.slots[q], s.lanes[w], t.lanes[w];
    if x.put == Pending(w) && m.queue != l.queue {
      QueueTail(l.queue, q, false);
    }
    if x.del == Pending(w) && m.queue != l.queue {
      QueueTail(l.queue, q, true);
    }
    if x.put == Listed(w) {
      if l.batch <= m.batch {
        var i :| 0 <= i < |l.batch| && l.batch[i].rid == q;
        assert m.batch[i].rid == q;
      } else {
        WritesTail(l.batch, q);
      }
    }
    if x.del == Listed(w) {
      if l.deletions <= m.deletions {
        var i :| 0 <= i < |l.deletions| && l.deletions[i].rid == q;
        assert m.deletions[i].rid == q;
      } else {
        DeletionsTail(l.deletions, q);
      }
    }
  }

  /** A step that deals with record `r` keeps a clean state clean if it does so for that record and its own lane. */
  lemma CleanSlotStep(s: State, t: State, v: View, w: nat, r: nat)
    requires Clean(s, v) && w < |s.lanes| && r < |s.slots|
    requires |t.slots| == |s.slots| && t.slots == s.slots[r := t.slots[r]]
    requires |t.lanes| == |s.lanes| && t.lanes == s.lanes[w := t.lanes[w]]
    requires |t.disk| == |s.disk| && DealsWith(s.lanes[w], t.lanes[w], r)
    requires HeaderOf(t.slots[r].rec) == HeaderOf(s.slots[r].rec)
    requires CleanRecord(t.slots[r]) && Present(t, r) && ExtentSeen(t, v, r)
    requires CleanLane(t, w) && NothingLost(t, v)
    ensures Clean(t, v)
  {
    forall q | 0 <= q < |t.slots|
      ensures CleanRecord(t.slots[q]) && Present(t, q) && ExtentSeen(t, v, q)
    {
      if q != r {
        assert CleanRecord(s.slots[q]) && Present(s, q) && ExtentSeen(s, v, q);
        PresentFrame(s, t, w, r, q);
        RecordFrame(s, t, v, q);
      }
    }
    forall u | 0 <= u < |t.lanes|
      ensures CleanLane(t, u)
    {
      assert CleanLane(s, u);
    }
  }

  /** The head of lane `w`'s queue is about to be dealt with. */
  ghost predicate AtHead(s: State, v: View, w: nat) {
    && Clean(s, v) && w < |s.lanes| && LaneOk(s, w)
    && s.lanes[w].drained > 0
    && EntryOk(s, w, s.lanes[w].queue[0]) && SlotOk(s, s.lanes[w].queue[0].rid)
  }

  lemma CleanLanePopped(s: State, t: State, w: nat)
    requires w < |s.lanes| && CleanLane(s, w) && PhaseOk(s.lanes[w]) && s.lanes[w].drained > 0
    requires w < |t.lanes| && |t.slots| == |s.slots|
    requires t.lanes[w] == Pop(s.lanes[w]).(deletions := t.lanes[w].deletions)
    requires forall i | 0 <= i < |t.lanes[w].deletions| && t.lanes[w].deletions[i].rid < |s.slots| ::
               Freed(t.lanes[w].deletions[i]) == SizeOf(s.slots[t.lanes[w].deletions[i].rid].rec)
    requires forall q | 0 <= q < |s.slots| :: HeaderOf(t.slots[q].rec) == HeaderOf(s.slots[q].rec)
    ensures CleanLane(t, w)
  {
    var q := s.lanes[w].queue;
    forall i | 0 <= i < |q[1..]| && q[1..][i].kind.Delete? && q[1..][i].rid < |t.slots|
      ensures q[1..][i].oldLen == t.slots[q[1..][i].rid].rec.valueLen
    {
      assert q[1..][i] == q[i + 1];
    }
  }

  lemma CleanListDeletion(s: State, v: View, w: nat, d: Deletion)
    requires AtHead(s, v, w) && s.lanes[w].phase.Collect? && s.lanes[w].queue[0].kind.Delete?
    requires var x := s.slots[s.lanes[w].queue[0].rid];
      x.rec.sector != 0 && d == Deletion(s.lanes[w].queue[0].rid, x.rec.sector, |x.rec.key|, x.rec.valueLen)
    ensures var l := s.lanes[w];
      Clean(SetSlot(SetLane(s, w, Pop(l).(deletions := l.deletions + [d])),
                    d.rid, s.slots[d.rid].(del := Listed(w))), v)
  {
    var l, r := s.lanes[w], d.rid;
    var m := Pop(l).(deletions := l.deletions + [d]);
    var t := SetSlot(SetLane(s, w, m), r, s.slots[r].(del := Listed(w)));
    assert CleanLane(s, w) && CleanRecord(s.slots[r]) && Present(s, r) && ExtentSeen(s, v, r);
    assert m.deletions[|l.deletions|].rid == r;
    CleanLanePopped(s, t, w);
    LostFrame(s, t, v);
    CleanSlotStep(s, t, v, w, r);
  }

  /** The head of the queue is dropped, which only changes the progress of its record. */
  lemma CleanSkip(s: State, t: State, v: View, w: nat, y: Slot)
    requires Clean(s, v) && w < |s.lanes| && PhaseOk(s.lanes[w]) && s.lanes[w].drained > 0 && s.lanes[w].phase.Collect?
    requires s.lanes[w].queue[0].rid < |s.slots|
    requires var r := s.lanes[w].queue[0].rid;
      && t == SetSlot(SetLane(s, w, Pop(s.lanes[w])), r, y)
      && y.rec == s.slots[r].rec && y.extent == s.slots[r].extent && CleanRecord(y)
      && Present(t, r) && SameSeen(s, t, r)
    ensures Clean(t, v)
  {
    var r := s.lanes[w].queue[0].rid;
    assert ExtentSeen(s, v, r) && CleanLane(s, w);
    CleanLanePopped(s, t, w);
    LostFrame(s, t, v);
    CleanSlotStep(s, t, v, w, r);
  }

  lemma CleanSkipDeletion(s: State, v: View, w: nat)
    requires AtHead(s, v, w) && s.lanes[w].phase.Collect? && s.lanes[w].queue[0].kind.Delete?
    ensures var l, r := s.lanes[w], s.lanes[w].queue[0].rid;
      Clean(SetSlot(SetLane(s, w, Pop(l)), r, s.slots[r].(del := Done)), v)
  {
    var l, r := s.lanes[w], s.lanes[w].queue[0].rid;
    var t := SetSlot(SetLane(s, w, Pop(l)), r, s.slots[r].(del := Done));
    assert CleanRecord(s.slots[r]) && Present(s, r);
    if s.slots[r].put == Pending(w) {
      QueueTail(l.queue, r, false);
    }
    CleanSkip(s, t, v, w, s.slots[r].(del := Done));
  }

  lemma CleanSkipPut(s: State, v: View, w: nat)
    requires AtHead(s, v, w) && s.lanes[w].phase.Collect? && !s.lanes[w].queue[0].kind.Delete?
    requires s.slots[s.lanes[w].queue[0].rid].rec.refcount == 0
    ensures var l, r := s.lanes[w], s.lanes[w].queue[0].rid;
      Clean(SetSlot(SetLane(s, w, Pop(l)), r, s.slots[r].(put := Done)), v)
  {
    var l, r := s.lanes[w], s.lanes[w].queue[0].rid;
    var t := SetSlot(SetLane(s, w, Pop(l)), r, s.slots[r].(put := Done));
    assert CleanRecord(s.slots[r]) && Present(s, r) && ExtentSeen(s, v, r);
    if s.slots[r].del == Pending(w) {
      QueueTail(l.queue, r, true);
    }
    assert CleanLane(s, w);
    CleanLanePopped(s, t, w);
    LostFrame(s, t, v);
    CleanSlotStep(s, t, v, w, r);
  }

  lemma CleanCheck(s: State, v: View, w: nat)
    requires Inv(s) && Enabled(s, CheckEntry(w)) && Clean(s, v)
    ensures Clean(Checked(s, w), v)
  {
    var l := s.lanes[w];
    assert LaneOk(s, w) && CleanLane(s, w);
    var e := l.queue[0];
    assert EntryOk(s, w, e) && SlotOk(s, e.rid) && CleanRecord(s.slots[e.rid]);
    var x := s.slots[e.rid];
    if e.kind.Delete? {
      if x.rec.sector != 0 {
        CleanListDeletion(s, v, w, Deletion(e.rid, x.rec.sector, |x.rec.key|, x.rec.valueLen));
      } else {
        CleanSkipDeletion(s, v, w);
      }
    } else if x.rec.refcount > 0 {
      CleanMove(s, Checked(s, w), v, w);
    } else {
      CleanSkipPut(s, v, w);
    }
  }

  /** A sector leaves the free set for the extent of a record. */
  lemma LostAllocated(s: State, t: State, v: View, r: nat, start: nat, n: nat)
    requires |v| == |s.disk| == |t.disk| && NothingLost(s, v)
    requires r < |s.slots| && |t.slots| == |s.slots| && s.slots[r].extent.None?
    requires t.slots[r].extent == Some(Extent(start, n))
    requires forall q | 0 <= q < |s.slots| && q != r :: t.slots[q] == s.slots[q]
    requires t.free == s.free - Range(start, n)
    ensures NothingLost(t, v)
  {
    forall i | 16 <= i < |t.disk|
      ensures i in t.free || Owned(t, i)
    {
      if i in Range(start, n) {
        assert Owns(t, r, i);
      } else if i !in s.free {
        assert Owned(s, i);
        var q :| 0 <= q < |s.slots| && Owns(s, q, i);
        assert Owns(t, q, i);
      }
    }
  }

  lemma CleanAllocate(s: State, v: View, w: nat, start: nat)
    requires Inv(s) && Enabled(s, AllocateExtent(w, start)) && Clean(s, v)
    ensures Clean(Allocated(s, w, start), v)
  {
    var t, l := Allocated(s, w, start), s.lanes[w];
    assert LaneOk(s, w) && CleanLane(s, w);
    var r := l.queue[0].rid;
    assert EntryOk(s, w, l.queue[0]) && SlotOk(s, r) && CleanRecord(s.slots[r]) && Present(s, r);
    CleanTake(s, t, v, w, start);
  }

  lemma CleanTake(s: State, t: State, v: View, w: nat, start: nat)
    requires AtHead(s, v, w) && s.lanes[w].phase.Allocate? && FreeInRange(s)
    requires var l, r := s.lanes[w], s.lanes[w].queue[0].rid;
      var n := SizeOf(s.slots[r].rec);
      && Range(start, n) <= s.free
      && t == SetSlot(SetLane(s, w,
                              Pop(l).(phase := Collect,
                                      batch := l.batch + [Write(r, start, PreparedBlocks(s.slots[r].rec))])),
                      r, s.slots[r].(extent := Some(Extent(start, n)), put := Listed(w)))
              .(free := s.free - Range(start, n))
    ensures Clean(t, v)
  {
    var l, r := s.lanes[w], s.lanes[w].queue[0].rid;
    var n := SizeOf(s.slots[r].rec);
    assert CleanLane(s, w) && CleanRecord(s.slots[r]) && Present(s, r);
    assert t.lanes[w].batch[|l.batch|].rid == r;
    if s.slots[r].del == Pending(w) {
      QueueTail(l.queue, r, true);
    }
    LostAllocated(s, t, v, r, start, n);
    CleanSlotStep(s, t, v, w, r);
  }

  /** A released extent joins the free set. */
  lemma LostReleased(s: State, t: State, v: View, r: nat)
    requires |v| == |s.disk| == |t.disk| && NothingLost(s, v)
    requires r < |s.slots| && |t.slots| == |s.slots| && s.slots[r].extent.Some? && t.slots[r].extent.None?
    requires forall q | 0 <= q < |s.slots| && q != r :: t.slots[q] == s.slots[q]
    requires t.free == s.free + Range(s.slots[r].extent.value.start, s.slots[r].extent.value.count)
    requires forall i: nat | Within(i, s.slots[r].extent.value.start, s.slots[r].extent.value.count) && i < |v| ::
               v[i].None?
    ensures NothingLost(t, v)
  {
    forall i | 16 <= i < |t.disk|
      ensures i in t.free || Owned(t, i)
    {
      if i !in s.free {
        assert Owned(s, i);
        var q :| 0 <= q < |s.slots| && Owns(s, q, i);
        assert q != r ==> Owns(t, q, i);
      }
    }
  }

  lemma CleanRelease(s: State, v: View, w: nat)
    requires Inv(s) && Enabled(s, ReleaseDeleted(w)) && Clean(s, v)
    ensures Clean(Released(s, w), v)
  {
    var t, l := Released(s, w), s.lanes[w];
    assert LaneOk(s, w) && CleanLane(s, w);
    var d := l.deletions[0];
    var r := d.rid;
    assert DeletionOk(s, w, d) && SlotOk(s, r) && CleanRecord(s.slots[r]) && Present(s, r) && ExtentSeen(s, v, r);
    assert Marked(s, r);
    PublishedIsWritten(s, r);
    CleanGiveBack(s, t, v, w);
  }

  /** A record whose sector is published has been written. */
  lemma PublishedIsWritten(s: State, r: nat)
    requires Inv(s) && r < |s.slots| && CleanRecord(s.slots[r]) && Present(s, r) && s.slots[r].rec.sector != 0
    ensures Written(s, r)
  {
    var x := s.slots[r];
    assert SlotOk(s, r);
    if x.put.Listed? {
      var b := s.lanes[x.put.w].batch;
      assert LaneOk(s, x.put.w);
      var i :| 0 <= i < |b| && b[i].rid == r;
      assert Published(s.lanes[x.put.w]) <= i ==> WriteOk(s, x.put.w, b[i]);
    }
  }

  lemma CleanGiveBack(s: State, t: State, v: View, w: nat)
    requires Clean(s, v) && w < |s.lanes| && s.lanes[w].phase.Release? && s.lanes[w].deletions != []
    requires var l, d := s.lanes[w], s.lanes[w].deletions[0];
      && d.rid < |s.slots| && s.slots[d.rid].extent == Some(Extent(d.start, Freed(d)))
      && d.start + Freed(d) <= |s.disk| && Written(s, d.rid) && Marked(s, d.rid) && s.slots[d.rid].rec.sector != 0
      && t == SetSlot(SetLane(s, w, l.(deletions := l.deletions[1..], phase := Mark)),
                      d.rid, s.slots[d.rid].(extent := None, del := Done)).(free := s.free + Range(d.start, Freed(d)))
    ensures Clean(t, v)
  {
    var l, d := s.lanes[w], s.lanes[w].deletions[0];
    var r := d.rid;
    assert CleanLane(s, w) && CleanRecord(s.slots[r]) && Present(s, r) && ExtentSeen(s, v, r);
    LostReleased(s, t, v, r);
    CleanSlotStep(s, t, v, w, r);
  }

  lemma CleanPublish(s: State, v: View, w: nat)
    requires Inv(s) && Enabled(s, PublishSector(w)) && Clean(s, v)
    ensures Clean(SectorPublished(s, w), v)
  {
    assert LaneOk(s, w) && WriteOk(s, w, s.lanes[w].batch[0]) && SlotOk(s, s.lanes[w].batch[0].rid);
    CleanStore(s, SectorPublished(s, w), v, w);
  }

  lemma CleanStore(s: State, t: State, v: View, w: nat)
    requires Clean(s, v) && w < |s.lanes| && s.lanes[w].phase.Publish? && s.lanes[w].batch != []
    requires var l, b := s.lanes[w], s.lanes[w].batch[0];
      && b.rid < |s.slots| && s.slots[b.rid].put == Listed(w) && s.slots[b.rid].rec.sector == 0
      && t == SetSlot(SetLane(s, w, l.(phase := Clear)), b.rid,
                      s.slots[b.rid].(rec := s.slots[b.rid].rec.(sector := b.start)))
    ensures Clean(t, v)
  {
    var r := s.lanes[w].batch[0].rid;
    assert CleanLane(s, w) && CleanRecord(s.slots[r]) && Present(s, r) && ExtentSeen(s, v, r);
    LostFrame(s, t, v);
    CleanSlotStep(s, t, v, w, r);
  }

  lemma CleanClear(s: State, v: View, w: nat)
    requires Inv(s) && Enabled(s, ClearValue(w)) && Clean(s, v)
    ensures Clean(ValueCleared(s, w), v)
  {
    assert LaneOk(s, w);
    CleanDrop(s, ValueCleared(s, w), v, w);
  }

  lemma CleanDrop(s: State, t: State, v: View, w: nat)
    requires Clean(s, v) && w < |s.lanes| && s.lanes[w].phase.Clear? && s.lanes[w].batch != []
    requires var l, r := s.lanes[w], s.lanes[w].batch[0].rid;
      && r < |s.slots| && s.slots[r].put == Listed(w) && s.slots[r].rec.sector != 0
      && t == SetSlot(SetLane(s, w, l.(phase := Publish, batch := l.batch[1..])),
                      r, s.slots[r].(rec := s.slots[r].rec.(value := None), put := Done))
    ensures Clean(t, v)
  {
    var l, r := s.lanes[w], s.lanes[w].batch[0].rid;
    assert CleanLane(s, w) && CleanRecord(s.slots[r]) && Present(s, r) && ExtentSeen(s, v, r);
    assert forall i | 0 <= i < |l.batch[1..]| :: l.batch[1..][i] == l.batch[i + 1];
    LostFrame(s, t, v);
    CleanSlotStep(s, t, v, w, r);
  }

  // ----- steps that write to the disk

  /** Lane `w` writes to the disk, but neither to free sectors nor to the metadata area. */
  lemma CleanDiskStep(s: State, t: State, v: View, u: View, w: nat)
    requires Clean(s, v) && w < |s.lanes| && |u| == |v| == |t.disk|
    requires t.slots == s.slots && t.free == s.free
    requires |t.lanes| == |s.lanes| && t.lanes == s.lanes[w := t.lanes[w]]
    requires t.lanes[w] == s.lanes[w].(phase := t.lanes[w].phase)
    requires forall i | 0 <= i < |v| && (i in s.free || i < 16) :: u[i] == v[i]
    requires forall r | 0 <= r < |t.slots| :: ExtentSeen(t, u, r)
    ensures Clean(t, u)
  {
    forall r | 0 <= r < |t.slots|
      ensures Present(t, r)
    {
      assert Present(s, r);
    }
    forall x | 0 <= x < |t.lanes|
      ensures CleanLane(t, x)
    {
      assert CleanLane(s, x);
    }
    forall i | 16 <= i < |t.disk|
      ensures i in t.free || Owned(t, i)
    {
      if i !in s.free {
        assert Owned(s, i);
        var q :| 0 <= q < |s.slots| && Owns(s, q, i);
        assert Owns(t, q, i);
      }
    }
  }

  lemma MarkerExtentSeen(s: State, t: State, v: View, u: View, w: nat, r: nat)
    requires Inv(s) && w < |s.lanes| && s.lanes[w].deletions != [] && r < |s.slots|
    requires |v| == |s.disk| && ExtentSeen(s, v, r)
    requires t.slots == s.slots && t.lanes == s.lanes[w := s.lanes[w].(phase := Release)] && |t.disk| == |s.disk|
    requires |u| == |v| && s.lanes[w].deletions[0].start < |v|
    requires u[s.lanes[w].deletions[0].start].None?
    requires forall i | 0 <= i < |v| && i != s.lanes[w].deletions[0].start :: u[i] == v[i]
    ensures ExtentSeen(t, u, r)
  {
    assert LaneOk(s, w);
    var d := s.lanes[w].deletions[0];
    assert DeletionOk(s, w, d) && SlotOk(s, d.rid) && SlotOk(s, r);
    OwnershipIsExclusive(s, d.rid, d.start);
    if r != d.rid {
      assert !Owns(s, r, d.start);
      assert SameSeen(s, t, r);
    }
  }

  lemma CleanMarker(s: State, v: View, w: nat, u: View)
    requires Inv(s) && Clean(s, v) && Enabled(s, WriteMarker(w, DeletionMarker()))
    requires |u| == |v| && s.lanes[w].deletions[0].start < |v|
    requires u[s.lanes[w].deletions[0].start].None?
    requires forall i | 0 <= i < |v| && i != s.lanes[w].deletions[0].start :: u[i] == v[i]
    ensures Clean(Next(s, WriteMarker(w, DeletionMarker())), u)
  {
    var t, l := Next(s, WriteMarker(w, DeletionMarker())), s.lanes[w];
    assert LaneOk(s, w);
    var d := l.deletions[0];
    assert DeletionOk(s, w, d) && SlotOk(s, d.rid);
    OwnershipIsExclusive(s, d.rid, d.start);
    forall r | 0 <= r < |t.slots|
      ensures ExtentSeen(t, u, r)
    {
      MarkerExtentSeen(s, t, v, u, w, r);
    }
    CleanDiskStep(s, t, v, u, w);
  }

  /** The extent of a record in the batch shows its header once the batch is written. */
  lemma {:induction false} WrittenSeen(disk: Disk, batch: seq<Write>, j: nat, p: Parsed)
    requires j < |batch| && batch[j].start + |batch[j].data| <= |disk| && Announces(batch[j].data, p)
    requires forall a, b | 0 <= a < b < |batch| :: WritesApart(batch[a], batch[b])
    ensures var u := ViewOf(WriteAll(disk, batch), {});
      && u[batch[j].start] == Some(p)
      && forall i | batch[j].start < i < batch[j].start + |batch[j].data| :: u[i].None?
  {
    var x, e := batch[j], WriteAll(disk, batch);
    forall i | x.start <= i < x.start + |x.data|
      ensures e[i] == x.data[i - x.start]
    {
      WriteAllStores(disk, batch, j, i);
    }
  }

  lemma UnwrittenSeen(disk: Disk, batch: seq<Write>, i: nat)
    requires i < |disk| && !InBatch(batch, i)
    ensures ViewOf(WriteAll(disk, batch), {})[i] == ViewOf(disk, {})[i]
  {
    WriteAllFrame(disk, batch, i);
    ViewFrame(disk, WriteAll(disk, batch), i);
  }

  /** What writing the batch does to the way sectors look. */
  ghost predicate BatchSeen(s: State, v: View, u: View, w: nat)
    requires w < |s.lanes|
  {
    var b := s.lanes[w].batch;
    && |u| == |v|
    && (forall i | 0 <= i < |v| && !InBatch(b, i) :: u[i] == v[i])
    && (forall j | 0 <= j < |b| && b[j].rid < |s.slots| && b[j].start + |b[j].data| <= |u| && b[j].data != [] ::
          && u[b[j].start] == Some(HeaderOf(s.slots[b[j].rid].rec))
          && forall i | b[j].start < i < b[j].start + |b[j].data| :: u[i].None?)
  }

  lemma BatchIsSeen(s: State, w: nat)
    requires w < |s.lanes| && CleanLane(s, w)
    requires var b := s.lanes[w].batch; forall i, j | 0 <= i < j < |b| :: WritesApart(b[i], b[j])
    requires var b := s.lanes[w].batch; forall i | 0 <= i < |b| :: b[i].start + |b[i].data| <= |s.disk|
    ensures BatchSeen(s, ViewOf(s.disk, {}), ViewOf(WriteAll(s.disk, s.lanes[w].batch), {}), w)
  {
    var b := s.lanes[w].batch;
    var v, u := ViewOf(s.disk, {}), ViewOf(WriteAll(s.disk, b), {});
    forall i | 0 <= i < |v| && !InBatch(b, i)
      ensures u[i] == v[i]
    {
      UnwrittenSeen(s.disk, b, i);
    }
    forall j | 0 <= j < |b| && b[j].rid < |s.slots|
      ensures u[b[j].start] == Some(HeaderOf(s.slots[b[j].rid].rec))
      ensures forall i | b[j].start < i < b[j].start + |b[j].data| :: u[i].None?
    {
      WrittenSeen(s.disk, b, j, HeaderOf(s.slots[b[j].rid].rec));
    }
  }

  /** The batch spares free sectors and the metadata area. */
  lemma BatchSparesFree(s: State, w: nat, i: nat)
    requires Inv(s) && w < |s.lanes| && s.lanes[w].phase.Attempt? && (i in s.free || i < 16)
    ensures !InBatch(s.lanes[w].batch, i)
  {
    assert LaneOk(s, w);
    var b := s.lanes[w].batch;
    if InBatch(b, i) {
      var j :| 0 <= j < |b| && b[j].start <= i < b[j].start + |b[j].data|;
      assert WriteOk(s, w, b[j]) && Owns(s, b[j].rid, i);
      OwnershipIsExclusive(s, b[j].rid, i);
    }
  }

  lemma BatchExtentSeen(s: State, t: State, v: View, u: View, w: nat, r: nat)
    requires r < |s.slots| && |v| == |s.disk| && |t.disk| == |s.disk| && w < |s.lanes| && |t.lanes| == |s.lanes|
    requires SlotOk(s, r) && Present(s, r) && ExtentSeen(s, v, r) && BatchSeen(s, v, u, w) && LaneOk(s, w)
    requires s.lanes[w].phase.Attempt? && t.lanes == s.lanes[w := s.lanes[w].(phase := Publish)] && t.slots == s.slots
    requires !Writable(s.slots[r], w) && s.slots[r].extent.Some? ==>
               var x := s.slots[r].extent.value;
               forall i | x.start <= i < x.start + x.count :: !InBatch(s.lanes[w].batch, i)
    ensures ExtentSeen(t, u, r)
  {
    var b := s.lanes[w].batch;
    if s.slots[r].put == Listed(w) {
      var j :| 0 <= j < |b| && b[j].rid == r;
      assert WriteOk(s, w, b[j]);
    } else {
      assert SameSeen(s, t, r);
    }
  }

  lemma CleanBatch(s: State, v: View, w: nat, u: View)
    requires Inv(s) && Clean(s, v) && Enabled(s, BatchWritten(w)) && BatchSeen(s, v, u, w)
    ensures Clean(Next(s, BatchWritten(w)), u)
  {
    var t := Next(s, BatchWritten(w));
    assert LaneOk(s, w);
    BatchApart(s, w);
    forall r | 0 <= r < |t.slots|
      ensures ExtentSeen(t, u, r)
    {
      assert ExtentSeen(s, v, r) && SlotOk(s, r) && Present(s, r);
      BatchExtentSeen(s, t, v, u, w, r);
    }
    forall i | 0 <= i < |v| && (i in s.free || i < 16)
      ensures u[i] == v[i]
    {
      BatchSparesFree(s, w, i);
    }
    CleanDiskStep(s, t, v, u, w);
  }

  /** An attempt fails: the records of the batch are not written yet, and no other extent is touched. */
  lemma TornExtentSeen(s: State, t: State, v: View, u: View, w: nat, r: nat)
    requires r < |s.slots| && |v| == |s.disk| && |t.disk| == |s.disk| && w < |s.lanes| && |t.lanes| == |s.lanes|
    requires SlotOk(s, r) && Present(s, r) && ExtentSeen(s, v, r) && LaneOk(s, w) && |u| == |v|
    requires s.lanes[w].phase.Attempt? && t.lanes == s.lanes[w := s.lanes[w].(phase := t.lanes[w].phase)]
    requires t.slots == s.slots
    requires !Flushed(t.lanes[w]) && !t.lanes[w].phase.Release?
    requires forall i | 0 <= i < |v| && !InBatch(s.lanes[w].batch, i) :: u[i] == v[i]
    requires !Writable(s.slots[r], w) && s.slots[r].extent.Some? ==>
               var x := s.slots[r].extent.value;
               forall i | x.start <= i < x.start + x.count :: !InBatch(s.lanes[w].batch, i)
    ensures ExtentSeen(t, u, r)
  {
    assert s.slots[r].put != Listed(w) ==> SameSeen(s, t, r);
  }

  lemma CleanTorn(s: State, w: nat, torn: Disk)
    requires Inv(s) && Clean(s, ViewOf(s.disk, {})) && Enabled(s, BatchFailed(w, torn))
    ensures Clean(Next(s, BatchFailed(w, torn)), ViewOf(torn, {}))
  {
    var t, v, u := Next(s, BatchFailed(w, torn)), ViewOf(s.disk, {}), ViewOf(torn, {});
    assert LaneOk(s, w);
    BatchApart(s, w);
    forall i | 0 <= i < |v| && !InBatch(s.lanes[w].batch, i)
      ensures u[i] == v[i]
    {
      ViewFrame(s.disk, torn, i);
    }
    CleanTornView(s, t, v, u, w);
  }

  lemma CleanTornView(s: State, t: State, v: View, u: View, w: nat)
    requires Inv(s) && Clean(s, v) && w < |s.lanes| && s.lanes[w].phase.Attempt? && |u| == |v| == |t.disk|
    requires t.slots == s.slots && t.free == s.free
    requires |t.lanes| == |s.lanes| && t.lanes == s.lanes[w := s.lanes[w].(phase := t.lanes[w].phase)]
    requires !Flushed(t.lanes[w]) && !t.lanes[w].phase.Release?
    requires forall i | 0 <= i < |v| && !InBatch(s.lanes[w].batch, i) :: u[i] == v[i]
    ensures Clean(t, u)
  {
    assert LaneOk(s, w);
    BatchApart(s, w);
    forall r | 0 <= r < |t.slots|
      ensures ExtentSeen(t, u, r)
    {
      assert ExtentSeen(s, v, r) && SlotOk(s, r) && Present(s, r);
      TornExtentSeen(s, t, v, u, w, r);
    }
    forall i | 0 <= i < |v| && (i in s.free || i < 16)
      ensures u[i] == v[i]
    {
      BatchSparesFree(s, w, i);
    }
    CleanDiskStep(s, t, v, u, w);
  }

  // ----- client operations

  lemma InQueueAppended(q: seq<Entry>, more: seq<Entry>, r: nat, deletion: bool)
    requires InQueue(q, r, deletion)
    ensures InQueue(q + more, r, deletion)
  {
    var i :| 0 <= i < |q| && q[i].rid == r && q[i].kind.Delete? == deletion;
    assert (q + more)[i] == q[i];
  }

  /** What a client may do to record `r`: set its reference count to zero, and queue its deletion in shard `w`. */
  ghost predicate ClientSlot(x: Slot, y: Slot, w: nat, more: seq<Entry>, r: nat) {
    && y.put == x.put && y.extent == x.extent && y.rec == x.rec.(refcount := y.rec.refcount)
    && (y.rec.refcount == x.rec.refcount || y.rec.refcount == 0)
    && (y.del == x.del || (x.del.Nowhere? && y.del == Pending(w) && InQueue(more, r, true)))
  }

  /** The queue of lane `w` grows; records keep all but their reference count and the progress of their deletion. */
  lemma CleanClientFrame(s: State, t: State, v: View, w: nat, more: seq<Entry>, r: nat)
    requires Clean(s, v) && w < |s.lanes| && r < |s.slots| && |s.slots| <= |t.slots| && t.disk == s.disk
    requires t.lanes == s.lanes[w := s.lanes[w].(queue := s.lanes[w].queue + more)]
    requires ClientSlot(s.slots[r], t.slots[r], w, more, r)
    ensures CleanRecord(t.slots[r]) && Present(t, r) && ExtentSeen(t, v, r)
  {
    assert CleanRecord(s.slots[r]) && Present(s, r) && ExtentSeen(s, v, r);
    ClientPresent(s, t, w, more, r);
    assert SameSeen(s, t, r);
  }

  lemma ClientPresent(s: State, t: State, w: nat, more: seq<Entry>, r: nat)
    requires w < |s.lanes| && r < |s.slots| && |s.slots| <= |t.slots| && Present(s, r)
    requires t.lanes == s.lanes[w := s.lanes[w].(queue := s.lanes[w].queue + more)]
    requires ClientSlot(s.slots[r], t.slots[r], w, more, r)
    ensures Present(t, r)
  {
    var x, y, q := s.slots[r], t.slots[r], s.lanes[w].queue;
    if x.put == Pending(w) {
      InQueueAppended(q, more, r, false);
    }
    if y.del == Pending(w) {
      if x.del == Pending(w) {
        InQueueAppended(q, more, r, true);
      } else {
        var i :| 0 <= i < |more| && more[i].rid == r && more[i].kind.Delete? == true;
        assert (q + more)[|q| + i] == more[i];
      }
    }
  }

  lemma CleanClientLane(s: State, t: State, w: nat, more: seq<Entry>, u: nat)
    requires w < |s.lanes| && u < |s.lanes| && |s.slots| <= |t.slots| && CleanLane(s, u) && LaneOk(s, u)
    requires t.lanes == s.lanes[w := s.lanes[w].(queue := s.lanes[w].queue + more)]
    requires forall r | 0 <= r < |s.slots| :: HeaderOf(t.slots[r].rec) == HeaderOf(s.slots[r].rec)
    requires forall i | 0 <= i < |more| && more[i].kind.Delete? && more[i].rid < |t.slots| ::
               more[i].oldLen == t.slots[more[i].rid].rec.valueLen
    requires forall i | 0 <= i < |s.lanes[u].batch| :: s.lanes[u].batch[i].rid < |s.slots|
    ensures CleanLane(t, u)
  {
    var l, m := s.lanes[u], t.lanes[u];
    forall i | 0 <= i < |m.queue| && m.queue[i].kind.Delete? && m.queue[i].rid < |t.slots|
      ensures m.queue[i].oldLen == t.slots[m.queue[i].rid].rec.valueLen
    {
      if i < |l.queue| {
        assert m.queue[i] == l.queue[i] && EntryOk(s, u, l.queue[i]);
      } else {
        assert m.queue[i] == more[i - |l.queue|];
      }
    }
    forall i | 0 <= i < |m.deletions|
      ensures m.deletions[i].rid < |s.slots|
    {
      assert DeletionOk(s, u, l.deletions[i]);
    }
  }

  lemma BatchRidsInRange(s: State, u: nat)
    requires u < |s.lanes| && LaneOk(s, u)
    ensures forall i | 0 <= i < |s.lanes[u].batch| :: s.lanes[u].batch[i].rid < |s.slots|
  {
    var l := s.lanes[u];
    forall i | 0 <= i < |l.batch|
      ensures l.batch[i].rid < |s.slots|
    {
      assert Published(l) <= i ==> WriteOk(s, u, l.batch[i]);
    }
  }

  lemma CleanClient(s: State, t: State, v: View, w: nat, more: seq<Entry>)
    requires Inv(s) && Clean(s, v) && w < |s.lanes| && t.disk == s.disk && t.free == s.free
    requires t.lanes == s.lanes[w := s.lanes[w].(queue := s.lanes[w].queue + more)]
    requires |s.slots| <= |t.slots|
    requires forall r {:trigger ClientSlot(s.slots[r], t.slots[r], w, more, r)} | 0 <= r < |s.slots| ::
               ClientSlot(s.slots[r], t.slots[r], w, more, r)
    requires forall r | |s.slots| <= r < |t.slots| ::
               t.slots[r].extent.None? && CleanRecord(t.slots[r]) && Present(t, r)
    requires forall i | 0 <= i < |more| && more[i].kind.Delete? && more[i].rid < |t.slots| ::
               more[i].oldLen == t.slots[more[i].rid].rec.valueLen
    ensures Clean(t, v)
  {
    forall r | 0 <= r < |t.slots|
      ensures CleanRecord(t.slots[r]) && Present(t, r) && ExtentSeen(t, v, r)
    {
      if r < |s.slots| {
        assert ClientSlot(s.slots[r], t.slots[r], w, more, r);
        CleanClientFrame(s, t, v, w, more, r);
      }
    }
    forall r | 0 <= r < |s.slots|
      ensures t.slots[r].extent == s.slots[r].extent
    {
      assert ClientSlot(s.slots[r], t.slots[r], w, more, r);
    }
    forall u | 0 <= u < |t.lanes|
      ensures CleanLane(t, u)
    {
      assert CleanLane(s, u) && LaneOk(s, u);
      BatchRidsInRange(s, u);
      forall r | 0 <= r < |s.slots|
        ensures HeaderOf(t.slots[r].rec) == HeaderOf(s.slots[r].rec)
      {
        assert ClientSlot(s.slots[r], t.slots[r], w, more, r);
      }
      CleanClientLane(s, t, w, more, u);
    }
    LostFrame(s, t, v);
  }

  lemma NewSlotIsClean(rec: Record, i: nat)
    requires HoldsValue(rec) && Recoverable(rec)
    ensures CleanRecord(Slot(rec, None, Pending(i), Nowhere))
  {
    RecoverableAnnounces(rec);
  }

  lemma CleanInsert(s: State, v: View, key: Bytes, rec: Record, i: nat)
    requires Inv(s) && Clean(s, v) && i < |s.lanes| && key !in s.table
    requires CleanRecord(Slot(rec, None, Pending(i), Nowhere))
    ensures Clean(Put(s, key, rec, i), v)
  {
    var n, q, more := |s.slots|, s.lanes[i].queue, [Entry(Insert, |s.slots|, 0)];
    assert (q + more)[|q|] == more[0];
    CleanClient(s, Put(s, key, rec, i), v, i, more);
  }

  /** An update queues the deletion of the record it supersedes and leaves the others alone. */
  lemma UpdateSlots(s: State, key: Bytes, rec: Record, i: nat, more: seq<Entry>)
    requires Inv(s) && i < |s.lanes| && key in s.table && TableOk(s, key)
    requires var oldLen := s.slots[s.table[key]].rec.valueLen;
      more == [Entry(Update, |s.slots|, oldLen), Entry(Delete, s.table[key], oldLen)]
    ensures var t := Put(s, key, rec, i);
      && |t.slots| == |s.slots| + 1 && t.disk == s.disk && t.free == s.free
      && t.slots[|s.slots|] == Slot(rec, None, Pending(i), Nowhere)
      && t.lanes == s.lanes[i := s.lanes[i].(queue := s.lanes[i].queue + more)]
      && (forall r {:trigger ClientSlot(s.slots[r], t.slots[r], i, more, r)} | 0 <= r < |s.slots| ::
            ClientSlot(s.slots[r], t.slots[r], i, more, r))
      && t.slots[s.table[key]].rec == s.slots[s.table[key]].rec
  {
    var t := Put(s, key, rec, i);
    assert more[1].rid == s.table[key] && InQueue(more, s.table[key], true);
    forall r | 0 <= r < |s.slots|
      ensures ClientSlot(s.slots[r], t.slots[r], i, more, r)
    {
      assert r != s.table[key] ==> t.slots[r] == s.slots[r];
    }
  }

  lemma CleanUpdate(s: State, v: View, key: Bytes, rec: Record, i: nat)
    requires Inv(s) && Clean(s, v) && i < |s.lanes| && key in s.table && TableOk(s, key)
    requires CleanRecord(Slot(rec, None, Pending(i), Nowhere))
    ensures Clean(Put(s, key, rec, i), v)
  {
    var t, q, oldLen := Put(s, key, rec, i), s.lanes[i].queue, s.slots[s.table[key]].rec.valueLen;
    var more := [Entry(Update, |s.slots|, oldLen), Entry(Delete, s.table[key], oldLen)];
    UpdateSlots(s, key, rec, i, more);
    CleanSuperseded(s, t, v, i, more);
  }

  /** A new record is in the queue. */
  lemma NewIsPresent(t: State, i: nat, before: seq<Entry>, more: seq<Entry>, r: nat)
    requires i < |t.lanes| && t.lanes[i].queue == before + more && r < |t.slots|
    requires t.slots[r].put == Pending(i) && t.slots[r].del == Nowhere
    requires more != [] && more[0].rid == r && !more[0].kind.Delete?
    ensures Present(t, r)
  {
    assert t.lanes[i].queue[|before|] == more[0];
  }

  /** The queue grows by the entry for a new record and the deletion of an old one. */
  lemma CleanSuperseded(s: State, t: State, v: View, i: nat, more: seq<Entry>)
    requires Inv(s) && Clean(s, v) && i < |s.lanes| && |t.slots| == |s.slots| + 1 && t.disk == s.disk
    requires t.free == s.free
    requires t.slots[|s.slots|].extent.None? && CleanRecord(t.slots[|s.slots|])
    requires t.slots[|s.slots|].put == Pending(i) && t.slots[|s.slots|].del == Nowhere
    requires t.lanes == s.lanes[i := s.lanes[i].(queue := s.lanes[i].queue + more)]
    requires forall r {:trigger ClientSlot(s.slots[r], t.slots[r], i, more, r)} | 0 <= r < |s.slots| ::
               ClientSlot(s.slots[r], t.slots[r], i, more, r)
    requires |more| == 2 && more[0].rid == |s.slots| && !more[0].kind.Delete?
    requires more[1].rid < |s.slots| && more[1].oldLen == t.slots[more[1].rid].rec.valueLen
    ensures Clean(t, v)
  {
    NewIsPresent(t, i, s.lanes[i].queue, more, |s.slots|);
    forall r | |s.slots| <= r < |t.slots|
      ensures t.slots[r].extent.None? && CleanRecord(t.slots[r]) && Present(t, r)
    {
      assert r == |s.slots|;
    }
    forall j | 0 <= j < |more| && more[j].kind.Delete? && more[j].rid < |t.slots|
      ensures more[j].oldLen == t.slots[more[j].rid].rec.valueLen
    {
      assert j == 1;
    }
    CleanClient(s, t, v, i, more);
  }

  lemma CleanDelete(s: State, v: View, key: Bytes, i: nat)
    requires Inv(s) && Clean(s, v) && i < |s.lanes| && key in s.table && s.table[key] < |s.slots|
    ensures Clean(Remove(s, key, 0, s.slots[s.table[key]].rec.valueLen, true, i), v)
  {
    assert TableOk(s, key);
    var prior := s.table[key];
    var more := [Entry(Delete, prior, s.slots[prior].rec.valueLen)];
    assert more[0].rid == prior;
    CleanClient(s, Remove(s, key, 0, s.slots[prior].rec.valueLen, true, i), v, i, more);
  }

  lemma CleanClientStep(s: State, step: Step)
    requires Inv(s) && Enabled(s, step) && CleanStep(step) && (step.ClientPut? || step.ClientDelete?)
    requires Clean(s, ViewOf(s.disk, {}))
    ensures Clean(Next(s, step), ViewOf(Next(s, step).disk, {}))
  {
    var v := ViewOf(s.disk, {});
    match step
    case ClientPut(key, value, timestamp, expiry, i) =>
      NewSlotIsClean(NewRecord(key, value, timestamp, expiry), i);
      if key in s.table {
        assert TableOk(s, key);
        CleanUpdate(s, v, key, NewRecord(key, value, timestamp, expiry), i);
      } else {
        CleanInsert(s, v, key, NewRecord(key, value, timestamp, expiry), i);
      }
    case ClientDelete(key, _, i) => CleanDelete(s, v, key, i);
  }

  /** Steps of a worker that deal with one record and do not write to the disk. */
  lemma CleanRecordStep(s: State, step: Step, v: View)
    requires Inv(s) && Enabled(s, step) && Clean(s, v)
    requires step.CheckEntry? || step.AllocateExtent? || step.ReleaseDeleted? || step.PublishSector? || step.ClearValue?
    ensures Clean(Next(s, step), v) && Next(s, step).disk == s.disk
  {
    match step
    case CheckEntry(w) => CleanCheck(s, v, w);
    case AllocateExtent(w, start) => CleanAllocate(s, v, w, start);
    case ReleaseDeleted(w) => CleanRelease(s, v, w);
    case PublishSector(w) => CleanPublish(s, v, w);
    case ClearValue(w) => CleanClear(s, v, w);
  }

  lemma CleanStepKeepsClean(s: State, step: Step)
    requires Inv(s) && Enabled(s, step) && CleanStep(step) && Clean(s, ViewOf(s.disk, {}))
    ensures Clean(Next(s, step), ViewOf(Next(s, step).disk, {}))
  {
    if step.ClientPut? || step.ClientDelete? {
      CleanClientStep(s, step);
    } else if step.WriteMarker? {
      MarkerSeen(s, step.w);
    } else if step.BatchWritten? {
      CleanWrite(s, step.w);
    } else if step.BatchFailed? {
      CleanTorn(s, step.w, step.torn);
    } else if step.Drain? || step.CollectDone? || step.DeletionsDone? || step.PublishDone? {
      CleanPhase(s, ViewOf(s.disk, {}), step);
    } else {
      CleanRecordStep(s, step, ViewOf(s.disk, {}));
    }
  }

  lemma CleanPhase(s: State, v: View, step: Step)
    requires Inv(s) && Enabled(s, step) && Clean(s, v)
    requires step.Drain? || step.CollectDone? || step.DeletionsDone? || step.PublishDone?
    ensures Clean(Next(s, step), v) && Next(s, step).disk == s.disk
  {
    assert LaneOk(s, step.w);
    CleanMove(s, Next(s, step), v, step.w);
  }

  lemma CleanWrite(s: State, w: nat)
    requires Inv(s) && Enabled(s, BatchWritten(w)) && Clean(s, ViewOf(s.disk, {}))
    ensures Clean(Next(s, BatchWritten(w)), ViewOf(Next(s, BatchWritten(w)).disk, {}))
  {
    assert LaneOk(s, w) && CleanLane(s, w);
    BatchApart(s, w);
    BatchIsSeen(s, w);
    CleanBatch(s, ViewOf(s.disk, {}), w, ViewOf(WriteAll(s.disk, s.lanes[w].batch), {}));
  }

  lemma MarkerSeen(s: State, w: nat)
    requires Inv(s) && Enabled(s, WriteMarker(w, DeletionMarker())) && Clean(s, ViewOf(s.disk, {}))
    ensures var t := Next(s, WriteMarker(w, DeletionMarker())); Clean(t, ViewOf(t.disk, {}))
  {
    assert LaneOk(s, w);
    var start := s.lanes[w].deletions[0].start;
    assert DeletionOk(s, w, s.lanes[w].deletions[0]) && SlotOk(s, s.lanes[w].deletions[0].rid);
    var e := s.disk[start := DeletionMarker()];
    MarkerIsNoHeader(e, start);
    forall i | 0 <= i < |e| && i != start
      ensures ViewOf(e, {})[i] == ViewOf(s.disk, {})[i]
    {
      ViewFrame(s.disk, e, i);
    }
    CleanMarker(s, ViewOf(s.disk, {}), w, ViewOf(e, {}));
  }
}
