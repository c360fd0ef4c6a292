/** A full device: a worker that finds no room for a record forgets the deletions it has collected. */
module Dropped {
  import opened Base
  import opened Format
  import opened Scan
  import opened Recovery
  import opened WriteBehind
  import opened Safety
  import opened Lost
  import opened Layouts
  import opened Restart
  import opened RestartTheorem
  import opened Phantom

  /** There are two records, of which the second is in the table, and only the first worker has anything to do. */
  ghost predicate Two(s: State, x: Slot, y: Slot, l: Lane, free: set<nat>, disk: Disk) {
    && Inv(s) && s.slots == [x, y] && s.table == map[y.rec.key := 1]
    && s.lanes != [] && s.lanes[0] == l
    && (forall w | 1 <= w < |s.lanes| :: s.lanes[w] == Lane([], 0, Idle, [], []))
    && s.free == free && s.disk == disk
  }

  /** A record as a put makes it. */
  ghost predicate IsNew(rec: Record) {
    && 1 <= |rec.key| <= MAX_KEY_SIZE && rec.value.Some? && 1 <= |rec.value.value| <= MAX_VALUE_SIZE
    && rec.timestamp < TWO_TO_THE_64 && rec == NewRecord(rec.key, rec.value.value, rec.timestamp, 0)
  }

  function Added(rec: Record): Slot {
    Slot(rec, None, Pending(0), Nowhere)
  }

  lemma PutsBehind(o: State, s: State, past: seq<Step>, x: Slot, e: Entry, rec: Record, free: set<nat>, disk: Disk)
    returns (t: State)
    requires Reaches(o, s, past) && Alone(s, false, x, Lane([e], 0, Idle, [], []), free, disk)
    requires IsNew(rec)
    ensures Reaches(o, t, past + [ClientPut(rec.key, rec.value.value, rec.timestamp, 0, 0)])
    ensures Two(t, x, Added(rec), Lane([e, Entry(Insert, 1, 0)], 0, Idle, [], []), free, disk)
  {
    var put := ClientPut(rec.key, rec.value.value, rec.timestamp, 0, 0);
    Forward(o, s, past, put);
    t := Next(s, put);
    assert t.table == map[rec.key := 1];
  }

  lemma DrainsTwo(o: State, s: State, past: seq<Step>, x: Slot, y: Slot, e: Entry, f: Entry, free: set<nat>, disk: Disk)
    returns (t: State)
    requires Reaches(o, s, past) && Two(s, x, y, Lane([e, f], 0, Idle, [], []), free, disk)
    ensures Reaches(o, t, past + [Drain(0)]) && Two(t, x, y, Lane([e, f], 2, Collect, [], []), free, disk)
  {
    Forward(o, s, past, Drain(0));
    t := Next(s, Drain(0));
  }

  lemma ListsFirst(o: State, s: State, past: seq<Step>, x: Slot, y: Slot, e: Entry, f: Entry, free: set<nat>,
                   disk: Disk)
    returns (t: State)
    requires Reaches(o, s, past) && Two(s, x, y, Lane([e, f], 2, Collect, [], []), free, disk)
    requires e.kind.Delete? && e.rid == 0 && x.rec.sector != 0
    ensures Reaches(o, t, past + [CheckEntry(0)])
    ensures Two(t, x.(del := Listed(0)), y,
                Lane([f], 1, Collect, [], [Deletion(0, x.rec.sector, |x.rec.key|, e.oldLen)]), free, disk)
  {
    Forward(o, s, past, CheckEntry(0));
    t := Next(s, CheckEntry(0));
  }

  lemma WantsRoom(o: State, s: State, past: seq<Step>, x: Slot, y: Slot, f: Entry, d: Deletion, free: set<nat>,
                  disk: Disk)
    returns (t: State)
    requires Reaches(o, s, past) && Two(s, x, y, Lane([f], 1, Collect, [], [d]), free, disk)
    requires !f.kind.Delete? && f.rid == 1 && y.rec.refcount > 0 && y.rec.sector == 0
    ensures Reaches(o, t, past + [CheckEntry(0)]) && Two(t, x, y, Lane([f], 1, Allocate, [], [d]), free, disk)
  {
    Forward(o, s, past, CheckEntry(0));
    t := Next(s, CheckEntry(0));
  }

  lemma GivesUp(o: State, s: State, past: seq<Step>, x: Slot, y: Slot, f: Entry, d: Deletion, free: set<nat>,
                disk: Disk)
    returns (t: State)
    requires Reaches(o, s, past) && Two(s, x, y, Lane([f], 1, Allocate, [], [d]), free, disk)
    requires f.rid == 1 && forall start: nat :: !(Range(start, SizeOf(y.rec)) <= free)
    ensures Reaches(o, t, past + [AbortOutOfSpace(0)]) && Two(t, x, y, Lane([], 0, Idle, [], []), free, disk)
  {
    Forward(o, s, past, AbortOutOfSpace(0));
    t := Next(s, AbortOutOfSpace(0));
    assert t.slots == s.slots;
  }

  /** A record is deleted and another one inserted in one flush, for which there is no room. */
  function Replacement(key: Bytes, timestamp: nat, other: Record): seq<Step>
    requires other.value.Some?
  {
    [ClientDelete(key, timestamp, 0), ClientPut(other.key, other.value.value, other.timestamp, 0, 0),
     Drain(0), CheckEntry(0), CheckEntry(0), AbortOutOfSpace(0)]
  }

  lemma Replaces(o: State, s: State, past: seq<Step>, rec: Record, other: Record, free: set<nat>, disk: Disk)
    returns (t: State)
    requires Reaches(o, s, past) && Alone(s, true, FlushedSlot(rec), Lane([], 0, Idle, [], []), free, disk)
    requires IsNew(other)
    requires forall start: nat :: !(Range(start, SizeOf(other)) <= free)
    ensures Reaches(o, t, past + Replacement(rec.key, rec.timestamp, other))
    ensures Two(t, ToBeWiped(rec), Added(other), Lane([], 0, Idle, [], []), free, disk)
  {
    var e, f := Entry(Delete, 0, rec.valueLen), Entry(Insert, 1, 0);
    var d := Deletion(0, 16, |rec.key|, rec.valueLen);
    var del, put := ClientDelete(rec.key, rec.timestamp, 0),
      ClientPut(other.key, other.value.value, other.timestamp, 0, 0);
    var x := ToBeWiped(rec).(del := Pending(0));
    var a := Deletes(o, s, past, FlushedSlot(rec), free, disk);
    var b := PutsBehind(o, a, past + [del], x, e, other, free, disk);
    var c := DrainsTwo(o, b, past + [del] + [put], x, Added(other), e, f, free, disk);
    var g := ListsFirst(o, c, past + [del] + [put] + [Drain(0)], x, Added(other), e, f, free, disk);
    var h := WantsRoom(o, g, past + [del] + [put] + [Drain(0)] + [CheckEntry(0)], ToBeWiped(rec), Added(other), f, d,
                       free, disk);
    t := GivesUp(o, h, past + [del] + [put] + [Drain(0)] + [CheckEntry(0)] + [CheckEntry(0)], ToBeWiped(rec),
                 Added(other), f, d, free, disk);
    assert past + [del] + [put] + [Drain(0)] + [CheckEntry(0)] + [CheckEntry(0)] + [AbortOutOfSpace(0)]
        == past + Replacement(rec.key, rec.timestamp, other);
  }

  /** There is no run of `n` free sectors. */
  lemma NoRoom(size: nat, taken: nat, n: nat, free: set<nat>)
    requires 16 + taken <= size < 16 + taken + n && free == Range(16, size - 16) - Range(16, taken)
    ensures forall start: nat :: !(Range(start, n) <= free)
  {
    forall start: nat
      ensures !(Range(start, n) <= free)
    {
      assert Within(start, start, n) && start in Range(start, n);
      assert Within(start + n - 1, start, n) && start + n - 1 in Range(start, n);
    }
  }

  lemma NothingUnderWay(t: State, x: Slot, y: Slot, free: set<nat>, disk: Disk)
    requires Two(t, x, y, Lane([], 0, Idle, [], []), free, disk)
    ensures Drained(t)
  {
    forall w | 0 <= w < |t.lanes|
      ensures t.lanes[w].queue == [] && t.lanes[w].phase.Idle?
    {
      assert w > 0 ==> t.lanes[w] == Lane([], 0, Idle, [], []);
    }
  }

  /** The sectors of the first record are lost. */
  lemma FirstIsLost(o: State, t: State, n: nat, x: Slot, y: Slot, free: set<nat>, disk: Disk)
    requires Init(o) && |disk| == |o.disk| && 16 + n <= |o.disk| && free == o.free - Range(16, n)
    requires Two(t, x, y, Lane([], 0, Idle, [], []), free, disk) && x.extent == Some(Extent(16, n)) && y.extent.None?
    ensures LostSectors(t) == Range(16, n)
  {
    forall i: nat
      ensures i in LostSectors(t) <==> i in Range(16, n)
    {
      assert i in o.free <==> Within(i, 16, |o.disk| - 16);
      assert i in Range(16, n) <==> Within(i, 16, n);
      assert !Held(t, 0);
    }
  }

  /** The first sector of a record that lies on a blank device shows its header, and no other does. */
  lemma OnlyHeader(o: State, rec: Record, disk: Disk)
    requires Blank(o) && Fits64(rec) && HoldsValue(rec) && 1 <= |rec.key| <= 4066
    requires 16 + SizeOf(rec) <= |o.disk| && disk == WriteAt(o.disk, 16, PreparedBlocks(rec))
    ensures var v := ViewOf(disk, {});
      && v[16] == Some(HeaderOf(rec))
      && forall i | 1 <= i < |v| && !(16 <= i < 16 + SizeOf(rec)) :: v[i].None?
  {
    PreparedFirstBlock(rec);
    var v := ViewOf(disk, {});
    forall i | 1 <= i < |v| && !(16 <= i < 16 + SizeOf(rec))
      ensures v[i].None?
    {
      ViewFrame(o.disk, disk, i);
    }
  }

  lemma FirstIsFound(o: State, t: State, rec: Record, x: Slot, y: Slot, free: set<nat>, disk: Disk)
    requires Blank(o) && Fits64(rec) && HoldsValue(rec) && 1 <= |rec.key| <= 4066 && rec.refcount == 1
    requires 16 + SizeOf(rec) <= |o.disk| && disk == WriteAt(o.disk, 16, PreparedBlocks(rec))
    requires Two(t, x, y, Lane([], 0, Idle, [], []), free, disk)
    requires x.extent == Some(Extent(16, SizeOf(rec))) && y.extent.None?
    ensures var found := Headers(ViewOf(t.disk, {}), 1);
      rec.key in IndexOf(found) && IndexOf(found)[rec.key] == rec.(sector := 16, value := None)
  {
    OnlyHeader(o, rec, disk);
    HighestOfAll(t, ViewOf(disk, {}), HeaderOf(rec), x, y);
  }

  /** With one extent, which shows this header, the index holds it. */
  lemma HighestOfAll(t: State, v: View, p: Parsed, x: Slot, y: Slot)
    requires Inv(t) && t.slots == [x, y] && x.extent == Some(Extent(16, ExtentSize(p))) && y.extent.None?
    requires |v| == |t.disk| > 16 && v[16] == Some(p)
    requires forall i | 1 <= i < |v| && !(16 <= i < 16 + ExtentSize(p)) :: v[i].None?
    ensures p.key in IndexOf(Headers(v, 1)) && IndexOf(Headers(v, 1))[p.key] == ToRecord(Found(16, p))
  {
    forall i | 16 <= i < |v| && !Owned(t, i)
      ensures v[i].None?
    {
      assert !Owns(t, 0, i);
    }
    ShownIsFound(t, v, 0);
    HeadersAscend(v, 1);
    forall g: Found | g in Headers(v, 1)
      ensures g.sector == 16
    {
      var r := FoundIsShown(t, v, g);
    }
    IndexKeepsHighest(Headers(v, 1), Found(16, p));
  }

  lemma Forgets(o: State, rec: Record, other: Record) returns (t: State)
    requires Init(o) && Inv(o) && o.lanes != [] && IsNew(rec) && IsNew(other)
    requires 16 + SizeOf(rec) <= |o.disk| < 16 + SizeOf(rec) + SizeOf(other)
    ensures Reaches(o, t, PutSteps(rec.key, rec.value.value, rec.timestamp) + WRITE_STEPS
                          + Replacement(rec.key, rec.timestamp, other))
    ensures Two(t, ToBeWiped(rec), Added(other), Lane([], 0, Idle, [], []), o.free - Range(16, SizeOf(rec)),
                WriteAt(o.disk, 16, PreparedBlocks(rec)))
  {
    var free, disk := o.free - Range(16, SizeOf(rec)), WriteAt(o.disk, 16, PreparedBlocks(rec));
    var s := Stored(o, rec.key, rec.value.value, rec.timestamp);
    NoRoom(|o.disk|, SizeOf(rec), SizeOf(other), free);
    t := Replaces(o, s, PutSteps(rec.key, rec.value.value, rec.timestamp) + WRITE_STEPS, rec, other, free, disk);
  }

  /** On a device that has no room for both: a flushed record is deleted and another one inserted before the next flush.
      The flush fails, nothing is under way any more, the sectors of the deleted record are lost, and a restart brings
      it back. */
  lemma DeletionForgotten(o: State, rec: Record, other: Record) returns (t: State)
    requires Init(o) && Inv(o) && Blank(o) && o.lanes != [] && IsNew(rec) && IsNew(other) && |rec.key| <= 4066
    requires 16 + SizeOf(rec) <= |o.disk| < 16 + SizeOf(rec) + SizeOf(other)
    ensures Reaches(o, t, PutSteps(rec.key, rec.value.value, rec.timestamp) + WRITE_STEPS
                          + Replacement(rec.key, rec.timestamp, other))
    ensures Drained(t) && t.table == map[other.key := 1] && LostSectors(t) == Range(16, SizeOf(rec))
    ensures var found := Headers(ViewOf(t.disk, {}), 1);
      rec.key in IndexOf(found) && IndexOf(found)[rec.key] == rec.(sector := 16, value := None)
  {
    t := Forgets(o, rec, other);
    var free, disk := o.free - Range(16, SizeOf(rec)), WriteAt(o.disk, 16, PreparedBlocks(rec));
    NothingUnderWay(t, ToBeWiped(rec), Added(other), free, disk);
    FirstIsLost(o, t, SizeOf(rec), ToBeWiped(rec), Added(other), free, disk);
    FirstIsFound(o, t, rec, ToBeWiped(rec), Added(other), free, disk);
  }
}
