/** What flushing a record and deleting it leaves on a fresh device: the sectors that the delete does not give back keep
    the record's bytes. If these look like a header, a restart finds a key that nobody has stored. */
module Phantom {
  import opened Base
  import opened Format
  import opened WriteBehind
  import opened Safety
  import opened Scan
  import opened Recovery
  import opened Layouts
  import opened Restart
  import opened RestartTheorem
  import opened Lost

  /** There is one record, and only the first worker has anything to do. */
  ghost predicate Alone(s: State, live: bool, x: Slot, l: Lane, free: set<nat>, disk: Disk) {
    && Inv(s) && s.slots == [x] && s.table == (if live then map[x.rec.key := 0] else map[])
    && s.lanes != [] && s.lanes[0] == l
    && (forall w | 1 <= w < |s.lanes| :: s.lanes[w] == Lane([], 0, Idle, [], []))
    && s.free == free && s.disk == disk
  }

  // ----- the steps of a worker with one record

  lemma Drains(o: State, s: State, past: seq<Step>, live: bool, x: Slot, e: Entry, free: set<nat>, disk: Disk)
    returns (t: State)
    requires Reaches(o, s, past) && Alone(s, live, x, Lane([e], 0, Idle, [], []), free, disk)
    ensures Reaches(o, t, past + [Drain(0)]) && Alone(t, live, x, Lane([e], 1, Collect, [], []), free, disk)
  {
    Forward(o, s, past, Drain(0));
    t := Next(s, Drain(0));
  }

  lemma ChecksPut(o: State, s: State, past: seq<Step>, x: Slot, e: Entry, free: set<nat>, disk: Disk) returns (t: State)
    requires Reaches(o, s, past) && Alone(s, true, x, Lane([e], 1, Collect, [], []), free, disk)
    requires !e.kind.Delete? && e.rid == 0 && x.rec.refcount > 0 && x.rec.sector == 0
    ensures Reaches(o, t, past + [CheckEntry(0)]) && Alone(t, true, x, Lane([e], 1, Allocate, [], []), free, disk)
  {
    Forward(o, s, past, CheckEntry(0));
    t := Next(s, CheckEntry(0));
  }

  lemma Allocates(o: State, s: State, past: seq<Step>, x: Slot, e: Entry, free: set<nat>, disk: Disk) returns (t: State)
    requires Reaches(o, s, past) && Alone(s, true, x, Lane([e], 1, Allocate, [], []), free, disk)
    requires e.rid == 0 && Range(16, SizeOf(x.rec)) <= free
    ensures Reaches(o, t, past + [AllocateExtent(0, 16)])
    ensures Alone(t, true, x.(extent := Some(Extent(16, SizeOf(x.rec))), put := Listed(0)),
                  Lane([], 0, Collect, [Write(0, 16, PreparedBlocks(x.rec))], []), free - Range(16, SizeOf(x.rec)),
                  disk)
  {
    Forward(o, s, past, AllocateExtent(0, 16));
    t := Next(s, AllocateExtent(0, 16));
  }

  lemma Collected(o: State, s: State, past: seq<Step>, live: bool, x: Slot, batch: seq<Write>, ds: seq<Deletion>,
                  free: set<nat>, disk: Disk)
    returns (t: State)
    requires Reaches(o, s, past) && Alone(s, live, x, Lane([], 0, Collect, batch, ds), free, disk)
    ensures Reaches(o, t, past + [CollectDone(0)]) && Alone(t, live, x, Lane([], 0, Mark, batch, ds), free, disk)
  {
    Forward(o, s, past, CollectDone(0));
    t := Next(s, CollectDone(0));
  }

  lemma NoMoreDeletions(o: State, s: State, past: seq<Step>, live: bool, x: Slot, batch: seq<Write>, free: set<nat>,
                        disk: Disk)
    returns (t: State)
    requires Reaches(o, s, past) && Alone(s, live, x, Lane([], 0, Mark, batch, []), free, disk)
    ensures Reaches(o, t, past + [DeletionsDone(0)])
    ensures Alone(t, live, x, Lane([], 0, if batch == [] then Idle else Attempt(3), batch, []), free, disk)
  {
    Forward(o, s, past, DeletionsDone(0));
    t := Next(s, DeletionsDone(0));
  }

  lemma Writes(o: State, s: State, past: seq<Step>, x: Slot, batch: seq<Write>, free: set<nat>, disk: Disk)
    returns (t: State)
    requires Reaches(o, s, past) && Alone(s, true, x, Lane([], 0, Attempt(3), batch, []), free, disk)
    ensures Reaches(o, t, past + [BatchWritten(0)])
    ensures Alone(t, true, x, Lane([], 0, Publish, batch, []), free, WriteAll(disk, batch))
  {
    Forward(o, s, past, BatchWritten(0));
    t := Next(s, BatchWritten(0));
  }

  lemma Publishes(o: State, s: State, past: seq<Step>, x: Slot, b: Write, free: set<nat>, disk: Disk) returns (t: State)
    requires Reaches(o, s, past) && Alone(s, true, x, Lane([], 0, Publish, [b], []), free, disk)
    requires b.rid == 0
    ensures Reaches(o, t, past + [PublishSector(0)])
    ensures Alone(t, true, x.(rec := x.rec.(sector := b.start)), Lane([], 0, Clear, [b], []), free, disk)
  {
    Forward(o, s, past, PublishSector(0));
    t := Next(s, PublishSector(0));
  }

  lemma Clears(o: State, s: State, past: seq<Step>, x: Slot, b: Write, free: set<nat>, disk: Disk) returns (t: State)
    requires Reaches(o, s, past) && Alone(s, true, x, Lane([], 0, Clear, [b], []), free, disk)
    requires b.rid == 0
    ensures Reaches(o, t, past + [ClearValue(0)])
    ensures Alone(t, true, x.(rec := x.rec.(value := None), put := Done), Lane([], 0, Publish, [], []), free, disk)
  {
    Forward(o, s, past, ClearValue(0));
    t := Next(s, ClearValue(0));
  }

  lemma Finishes(o: State, s: State, past: seq<Step>, x: Slot, free: set<nat>, disk: Disk) returns (t: State)
    requires Reaches(o, s, past) && Alone(s, true, x, Lane([], 0, Publish, [], []), free, disk)
    ensures Reaches(o, t, past + [PublishDone(0)]) && Alone(t, true, x, Lane([], 0, Idle, [], []), free, disk)
  {
    Forward(o, s, past, PublishDone(0));
    t := Next(s, PublishDone(0));
  }

  lemma Deletes(o: State, s: State, past: seq<Step>, x: Slot, free: set<nat>, disk: Disk) returns (t: State)
    requires Reaches(o, s, past) && Alone(s, true, x, Lane([], 0, Idle, [], []), free, disk)
    ensures Reaches(o, t, past + [ClientDelete(x.rec.key, x.rec.timestamp, 0)])
    ensures Alone(t, false, x.(rec := x.rec.(refcount := 0), del := Pending(0)),
                  Lane([Entry(Delete, 0, x.rec.valueLen)], 0, Idle, [], []), free, disk)
  {
    Forward(o, s, past, ClientDelete(x.rec.key, x.rec.timestamp, 0));
    t := Next(s, ClientDelete(x.rec.key, x.rec.timestamp, 0));
  }

  lemma ListsDeletion(o: State, s: State, past: seq<Step>, x: Slot, e: Entry, free: set<nat>, disk: Disk)
    returns (t: State)
    requires Reaches(o, s, past) && Alone(s, false, x, Lane([e], 1, Collect, [], []), free, disk)
    requires e.kind.Delete? && e.rid == 0 && x.rec.sector != 0
    ensures Reaches(o, t, past + [CheckEntry(0)])
    ensures Alone(t, false, x.(del := Listed(0)),
                  Lane([], 0, Collect, [], [Deletion(0, x.rec.sector, |x.rec.key|, e.oldLen)]), free, disk)
  {
    Forward(o, s, past, CheckEntry(0));
    t := Next(s, CheckEntry(0));
  }

  lemma Marks(o: State, s: State, past: seq<Step>, x: Slot, d: Deletion, free: set<nat>, disk: Disk) returns (t: State)
    requires Reaches(o, s, past) && Alone(s, false, x, Lane([], 0, Mark, [], [d]), free, disk)
    requires d.rid == 0 && d.start < |disk|
    ensures Reaches(o, t, past + [WriteMarker(0, DeletionMarker())])
    ensures Alone(t, false, x, Lane([], 0, Release, [], [d]), free, disk[d.start := DeletionMarker()])
  {
    Forward(o, s, past, WriteMarker(0, DeletionMarker()));
    t := Next(s, WriteMarker(0, DeletionMarker()));
  }

  lemma Releases(o: State, s: State, past: seq<Step>, x: Slot, d: Deletion, free: set<nat>, disk: Disk)
    returns (t: State)
    requires Reaches(o, s, past) && Alone(s, false, x, Lane([], 0, Release, [], [d]), free, disk)
    requires d.rid == 0
    ensures Reaches(o, t, past + [ReleaseDeleted(0)])
    ensures Alone(t, false, x.(extent := None, del := Done), Lane([], 0, Mark, [], []),
                  free + Range(d.start, Freed(d)), disk)
  {
    Forward(o, s, past, ReleaseDeleted(0));
    t := Next(s, ReleaseDeleted(0));
  }

  lemma Puts(o: State, key: Bytes, value: Bytes, timestamp: nat) returns (t: State)
    requires Init(o) && Inv(o) && o.lanes != [] && timestamp < TWO_TO_THE_64
    requires 1 <= |key| <= MAX_KEY_SIZE && 1 <= |value| <= MAX_VALUE_SIZE
    ensures Reaches(o, t, [ClientPut(key, value, timestamp, 0, 0)])
    ensures Alone(t, true, Slot(NewRecord(key, value, timestamp, 0), None, Pending(0), Nowhere),
                  Lane([Entry(Insert, 0, 0)], 0, Idle, [], []), o.free, o.disk)
  {
    var put := ClientPut(key, value, timestamp, 0, 0);
    Forward(o, o, [], put);
    t := Next(o, put);
    assert t.table == map[key := 0];
  }

  // ----- the run

  function PutSteps(key: Bytes, value: Bytes, timestamp: nat): seq<Step> {
    [ClientPut(key, value, timestamp, 0, 0), Drain(0), CheckEntry(0), AllocateExtent(0, 16), CollectDone(0)]
  }

  const WRITE_STEPS: seq<Step> := [DeletionsDone(0), BatchWritten(0), PublishSector(0), ClearValue(0), PublishDone(0)]

  /** The record on its way to disk. */
  function InFlight(rec: Record): Slot {
    Slot(rec, Some(Extent(16, SizeOf(rec))), Listed(0), Nowhere)
  }

  function FlushedSlot(rec: Record): Slot {
    Slot(rec.(sector := 16, value := None), Some(Extent(16, SizeOf(rec))), Done, Nowhere)
  }

  function BatchOf(rec: Record): seq<Write> {
    [Write(0, 16, PreparedBlocks(rec))]
  }

  lemma Collects(o: State, key: Bytes, value: Bytes, timestamp: nat) returns (t: State)
    requires Init(o) && Inv(o) && o.lanes != [] && timestamp < TWO_TO_THE_64
    requires 1 <= |key| <= MAX_KEY_SIZE && 1 <= |value| <= MAX_VALUE_SIZE
    requires var rec := NewRecord(key, value, timestamp, 0); Range(16, SizeOf(rec)) <= o.free
    ensures var rec := NewRecord(key, value, timestamp, 0);
      && Reaches(o, t, PutSteps(key, value, timestamp))
      && Alone(t, true, InFlight(rec), Lane([], 0, Mark, BatchOf(rec), []), o.free - Range(16, SizeOf(rec)), o.disk)
  {
    var rec, put := NewRecord(key, value, timestamp, 0), ClientPut(key, value, timestamp, 0, 0);
    var x, e := Slot(rec, None, Pending(0), Nowhere), Entry(Insert, 0, 0);
    var a := Puts(o, key, value, timestamp);
    var b := Drains(o, a, [put], true, x, e, o.free, o.disk);
    var c := ChecksPut(o, b, [put] + [Drain(0)], x, e, o.free, o.disk);
    var d := Allocates(o, c, [put] + [Drain(0)] + [CheckEntry(0)], x, e, o.free, o.disk);
    t := Collected(o, d, [put] + [Drain(0)] + [CheckEntry(0)] + [AllocateExtent(0, 16)], true, InFlight(rec),
                   BatchOf(rec), [], o.free - Range(16, SizeOf(rec)), o.disk);
    assert [put] + [Drain(0)] + [CheckEntry(0)] + [AllocateExtent(0, 16)] + [CollectDone(0)]
      == PutSteps(key, value, timestamp);
  }

  lemma Flushes(o: State, s: State, past: seq<Step>, rec: Record, free: set<nat>, disk: Disk) returns (t: State)
    requires Reaches(o, s, past) && Alone(s, true, InFlight(rec), Lane([], 0, Mark, BatchOf(rec), []), free, disk)
    ensures Reaches(o, t, past + WRITE_STEPS)
    ensures Alone(t, true, FlushedSlot(rec), Lane([], 0, Idle, [], []), free, WriteAll(disk, BatchOf(rec)))
  {
    var b := BatchOf(rec)[0];
    var after := WriteAll(disk, BatchOf(rec));
    var x := InFlight(rec.(sector := 16));
    var c := NoMoreDeletions(o, s, past, true, InFlight(rec), [b], free, disk);
    var d := Writes(o, c, past + [DeletionsDone(0)], InFlight(rec), [b], free, disk);
    var e := Publishes(o, d, past + [DeletionsDone(0)] + [BatchWritten(0)], InFlight(rec), b, free, after);
    var f := Clears(o, e, past + [DeletionsDone(0)] + [BatchWritten(0)] + [PublishSector(0)], x, b, free, after);
    t := Finishes(o, f, past + [DeletionsDone(0)] + [BatchWritten(0)] + [PublishSector(0)] + [ClearValue(0)],
                  FlushedSlot(rec), free, after);
    assert past + [DeletionsDone(0)] + [BatchWritten(0)] + [PublishSector(0)] + [ClearValue(0)] + [PublishDone(0)]
        == past + WRITE_STEPS;
  }

  function DeleteSteps(key: Bytes, timestamp: nat): seq<Step> {
    [ClientDelete(key, timestamp, 0), Drain(0), CheckEntry(0), CollectDone(0),
     WriteMarker(0, DeletionMarker()), ReleaseDeleted(0), DeletionsDone(0)]
  }

  lemma Lists(o: State, s: State, past: seq<Step>, rec: Record, free: set<nat>, disk: Disk) returns (t: State)
    requires Reaches(o, s, past) && Alone(s, true, FlushedSlot(rec), Lane([], 0, Idle, [], []), free, disk)
    ensures Reaches(o, t, past + [ClientDelete(rec.key, rec.timestamp, 0), Drain(0), CheckEntry(0), CollectDone(0)])
    ensures Alone(t, false,
                  FlushedSlot(rec).(rec := rec.(sector := 16, value := None, refcount := 0), del := Listed(0)),
                  Lane([], 0, Mark, [], [Deletion(0, 16, |rec.key|, rec.valueLen)]), free, disk)
  {
    var delete, e := ClientDelete(rec.key, rec.timestamp, 0), Entry(Delete, 0, rec.valueLen);
    var x := FlushedSlot(rec).(rec := rec.(sector := 16, value := None, refcount := 0), del := Pending(0));
    var a := Deletes(o, s, past, FlushedSlot(rec), free, disk);
    var b := Drains(o, a, past + [delete], false, x, e, free, disk);
    var c := ListsDeletion(o, b, past + [delete] + [Drain(0)], x, e, free, disk);
    t := Collected(o, c, past + [delete] + [Drain(0)] + [CheckEntry(0)], false, x.(del := Listed(0)), [],
                   [Deletion(0, 16, |rec.key|, rec.valueLen)], free, disk);
    assert past + [delete] + [Drain(0)] + [CheckEntry(0)] + [CollectDone(0)]
        == past + [delete, Drain(0), CheckEntry(0), CollectDone(0)];
  }

  lemma Wipes(o: State, s: State, past: seq<Step>, x: Slot, d: Deletion, free: set<nat>, disk: Disk) returns (t: State)
    requires Reaches(o, s, past) && Alone(s, false, x, Lane([], 0, Mark, [], [d]), free, disk)
    requires d.rid == 0 && d.start < |disk|
    ensures Reaches(o, t, past + [WriteMarker(0, DeletionMarker()), ReleaseDeleted(0), DeletionsDone(0)])
    ensures Alone(t, false, x.(extent := None, del := Done), Lane([], 0, Idle, [], []), free + Range(d.start, Freed(d)),
                  disk[d.start := DeletionMarker()])
  {
    var after := disk[d.start := DeletionMarker()];
    var a := Marks(o, s, past, x, d, free, disk);
    var b := Releases(o, a, past + [WriteMarker(0, DeletionMarker())], x, d, free, after);
    t := NoMoreDeletions(o, b, past + [WriteMarker(0, DeletionMarker())] + [ReleaseDeleted(0)], false,
                         x.(extent := None, del := Done), [], free + Range(d.start, Freed(d)), after);
    assert past + [WriteMarker(0, DeletionMarker())] + [ReleaseDeleted(0)] + [DeletionsDone(0)]
        == past + [WriteMarker(0, DeletionMarker()), ReleaseDeleted(0), DeletionsDone(0)];
  }

  lemma TailIsLost(o: State, t: State, n: nat, freed: nat)
    requires Init(o) && |t.disk| == |o.disk| && freed <= n && 16 + n <= |o.disk|
    requires |t.slots| == 1 && t.slots[0].extent.None? && t.free == o.free - Range(16, n) + Range(16, freed)
    ensures LostSectors(t) == Range(16 + freed, n - freed)
  {
    forall i: nat
      ensures i in LostSectors(t) <==> Within(i, 16 + freed, n - freed)
    {
      assert i in o.free <==> Within(i, 16, |o.disk| - 16);
      assert i in Range(16, n) <==> Within(i, 16, n);
      assert i in Range(16, freed) <==> Within(i, 16, freed);
    }
    forall i: nat
      ensures i in LostSectors(t) <==> i in Range(16 + freed, n - freed)
    {
      assert i in Range(16 + freed, n - freed) <==> Within(i, 16 + freed, n - freed);
    }
  }

  /** The record lies on the device, but for its first sector, which is marked. */
  ghost predicate TailLeft(before: Disk, after: Disk, rec: Record, n: nat) {
    && n == SizeOf(rec) && |after| == |before| && 16 + n <= |before| && after[16] == DeletionMarker()
    && (forall i | 0 <= i < |before| && !(16 <= i < 16 + n) :: after[i] == before[i])
    && (forall i | 16 < i < 16 + n :: after[i] == PreparedBlocks(rec)[i - 16])
  }

  lemma WriteOne(disk: Disk, w: Write)
    requires w.start + |w.data| <= |disk|
    ensures WriteAll(disk, [w]) == WriteAt(disk, w.start, w.data)
  {
    assert [w][1..] == [];
  }

  lemma TailStays(disk: Disk, rec: Record, n: nat, data: seq<Block>)
    requires data == PreparedBlocks(rec) && n == SizeOf(rec) == |data| && 16 + n <= |disk|
    ensures TailLeft(disk, WriteAt(disk, 16, data)[16 := DeletionMarker()], rec, n)
  {
  }

  /** Inserted, flushed, deleted and wiped out, without any failure. */
  function Lifetime(key: Bytes, value: Bytes, timestamp: nat): seq<Step> {
    PutSteps(key, value, timestamp) + WRITE_STEPS + DeleteSteps(key, timestamp)
  }

  /** The record with its deletion listed. */
  function ToBeWiped(rec: Record): Slot {
    FlushedSlot(rec).(rec := rec.(sector := 16, value := None, refcount := 0), del := Listed(0))
  }

  /** The record inserted into a fresh store and flushed. */
  lemma Stored(o: State, key: Bytes, value: Bytes, timestamp: nat) returns (t: State)
    requires Init(o) && Inv(o) && o.lanes != [] && timestamp < TWO_TO_THE_64
    requires 1 <= |key| <= MAX_KEY_SIZE && 1 <= |value| <= MAX_VALUE_SIZE
    requires 16 + SectorsNeeded(|key|, |value|) <= |o.disk|
    ensures Reaches(o, t, PutSteps(key, value, timestamp) + WRITE_STEPS)
    ensures var rec := NewRecord(key, value, timestamp, 0);
      Alone(t, true, FlushedSlot(rec), Lane([], 0, Idle, [], []), o.free - Range(16, SizeOf(rec)),
            WriteAt(o.disk, 16, PreparedBlocks(rec)))
  {
    var rec := NewRecord(key, value, timestamp, 0);
    var n := SizeOf(rec);
    forall i | i in Range(16, n)
      ensures i in o.free
    {
      assert Within(i, 16, |o.disk| - 16);
    }
    WriteOne(o.disk, BatchOf(rec)[0]);
    var a := Collects(o, key, value, timestamp);
    t := Flushes(o, a, PutSteps(key, value, timestamp), rec, o.free - Range(16, n), o.disk);
  }

  lemma FlushedAndListed(o: State, key: Bytes, value: Bytes, timestamp: nat) returns (t: State)
    requires Init(o) && Inv(o) && o.lanes != [] && timestamp < TWO_TO_THE_64
    requires 1 <= |key| <= MAX_KEY_SIZE && 1 <= |value| <= MAX_VALUE_SIZE
    requires 16 + SectorsNeeded(|key|, |value|) <= |o.disk|
    ensures Reaches(o, t, PutSteps(key, value, timestamp) + WRITE_STEPS
                          + [ClientDelete(key, timestamp, 0), Drain(0), CheckEntry(0), CollectDone(0)])
    ensures var rec := NewRecord(key, value, timestamp, 0);
      Alone(t, false, ToBeWiped(rec), Lane([], 0, Mark, [], [Deletion(0, 16, |key|, |value|)]),
            o.free - Range(16, SizeOf(rec)), WriteAt(o.disk, 16, PreparedBlocks(rec)))
  {
    var rec := NewRecord(key, value, timestamp, 0);
    var s := Stored(o, key, value, timestamp);
    t := Lists(o, s, PutSteps(key, value, timestamp) + WRITE_STEPS, rec, o.free - Range(16, SizeOf(rec)),
               WriteAt(o.disk, 16, PreparedBlocks(rec)));
  }

  /** Nothing is stored, nothing is under way, and the record there was has no extent. */
  ghost predicate Wiped(t: State) {
    Drained(t) && t.table == map[] && NoExtent(t)
  }

  /** What a record leaves behind: the sectors that its delete does not give back are lost and keep their bytes. */
  lemma DeleteLeavesTail(o: State, key: Bytes, value: Bytes, timestamp: nat) returns (t: State)
    requires Init(o) && Inv(o) && o.lanes != [] && timestamp < TWO_TO_THE_64
    requires 1 <= |key| <= MAX_KEY_SIZE && 1 <= |value| <= MAX_VALUE_SIZE
    requires 16 + SectorsNeeded(|key|, |value|) <= |o.disk|
    ensures Reaches(o, t, Lifetime(key, value, timestamp)) && Wiped(t)
    ensures var n, freed := SectorsNeeded(|key|, |value|), SectorsReleased(|key|, |value|);
      LostSectors(t) == Range(16 + freed, n - freed) && TailLeft(o.disk, t.disk, NewRecord(key, value, timestamp, 0), n)
  {
    var rec := NewRecord(key, value, timestamp, 0);
    var n, freed := SizeOf(rec), SectorsReleased(|key|, |value|);
    ReleasedIsPrefix(|key|, |value|, |value|);
    var c := FlushedAndListed(o, key, value, timestamp);
    var past := PutSteps(key, value, timestamp) + WRITE_STEPS
      + [ClientDelete(key, timestamp, 0), Drain(0), CheckEntry(0), CollectDone(0)];
    t := Wipes(o, c, past, ToBeWiped(rec), Deletion(0, 16, |key|, |value|), o.free - Range(16, n),
               WriteAt(o.disk, 16, PreparedBlocks(rec)));
    assert past + [WriteMarker(0, DeletionMarker()), ReleaseDeleted(0), DeletionsDone(0)]
      == Lifetime(key, value, timestamp);
    TailIsLost(o, t, n, freed);
    TailStays(o.disk, rec, n, PreparedBlocks(rec));
  }

  // ----- a key that nobody has stored

  /** Ends with the bytes of a record header for the key [0x6B], which its record carries over to a second sector. */
  function TrapValue(): Bytes {
    seq(4065, (_: nat) => 0 as Byte) + [0xCD, 0xAB, 0, 0, 1, 0, 0x6B, 1]
  }

  lemma {:induction false} ZeroesAreZero(b: Bytes)
    requires forall i | 0 <= i < |b| :: b[i] == 0
    ensures FromLe(b) == 0
    decreases |b|
  {
    if b != [] {
      ZeroesAreZero(b[1..]);
    }
  }

  /** A sector with these bytes and zeroes is a header. */
  lemma {:induction false} TrapIsHeader(b: Block)
    requires b[..8] == [0xCD, 0xAB, 0, 0, 1, 0, 0x6B, 1] && forall i | 8 <= i < 4096 :: b[i] == 0
    ensures Classify(b) == Some(Parsed([0x6B], 1, 0, 0))
  {
    assert b[0] == b[..8][0] && b[1] == b[..8][1] && b[2] == b[..8][2] && b[3] == b[..8][3];
    assert b[4] == b[..8][4] && b[5] == b[..8][5] && b[6] == b[..8][6] && b[7] == b[..8][7];
    assert b[..2] == [0xCD, 0xAB] && b[2..4] == [0, 0] && b[4..6] == [1, 0] && b[6..7] == [0x6B];
    assert FromLe([0xCD, 0xAB]) == 0xABCD && FromLe([1, 0]) == 1 by {
      assert [0xCD, 0xAB][1..] == [0xAB] && [0xAB][1..] == [] && [1, 0][1..] == [0] && [0][1..] == [];
    }
    ZeroesAreZero(b[2..4]);
    assert b[7..15] == [1] + b[8..15] && b[7..15][1..] == b[8..15];
    ZeroesAreZero(b[8..15]);
    ZeroesAreZero(b[15..23]);
    ZeroesAreZero(b[23..31]);
  }

  /** Behind the value there are zeroes. */
  lemma PaddingIsZero(r: Record, i: nat)
    requires HoldsValue(r) && TotalSize(|r.key|, r.valueLen) <= i < |Prepare(r)|
    ensures Prepare(r)[i] == 0
  {
  }

  lemma SecondBlock(data: Bytes)
    requires |data| == 8192
    ensures ToBlocks(data)[1] == data[4096..8192]
  {
    assert ToBlocks(data)[1] == data[4096 * 1..4096 * 2];
  }

  lemma TrapSector(r: Record)
    requires r == NewRecord([1], TrapValue(), 5, 0)
    ensures SectorsNeeded(|r.key|, r.valueLen) == 2 && SectorsReleased(|r.key|, r.valueLen) == 1
    ensures Classify(PreparedBlocks(r)[1]) == Some(Parsed([0x6B], 1, 0, 0))
  {
    assert TotalSize(|r.key|, r.valueLen) == 4104;
    var d, b := Prepare(r), PreparedBlocks(r)[1];
    SecondBlock(d);
    ValueAtHeaderOffset(r);
    var value: Bytes := TrapValue();
    assert d[31..4104] == value;
    assert d[4096..4104] == d[31..4104][4065..4073] == value[4065..4073];
    assert value[4065..4073] == [0xCD, 0xAB, 0, 0, 1, 0, 0x6B, 1];
    assert b[..8] == d[4096..4104];
    forall i | 8 <= i < 4096
      ensures b[i] == 0
    {
      PaddingIsZero(r, 4096 + i);
    }
    TrapIsHeader(b);
  }

  // ----- what a restart makes of the tail

  ghost predicate QuietAfterFirst(u: View) {
    forall i | 1 <= i < |u| :: u[i].None?
  }

  /** No sector of the record but the first looks like a header. */
  ghost predicate QuietTail(rec: Record) {
    QuietAfterFirst(ViewOf(PreparedBlocks(rec), {}))
  }

  /** `u` shows from sector 16 on, but for its first sector, and nothing else shows. */
  ghost predicate ShowsTail(v: View, u: View) {
    && 16 + |u| <= |v|
    && (forall i | 1 <= i < |v| && !(16 < i < 16 + |u|) :: v[i].None?)
    && (forall i | 16 < i < 16 + |u| :: v[i] == u[i - 16])
  }

  /** What the sectors look like afterwards. */
  lemma TailSeen(o: State, t: State, rec: Record, n: nat)
    requires Blank(o) && TailLeft(o.disk, t.disk, rec, n) && |PreparedBlocks(rec)| == n
    ensures ShowsTail(ViewOf(t.disk, {}), ViewOf(PreparedBlocks(rec), {}))
  {
    var v := ViewOf(t.disk, {});
    forall i | 1 <= i < |v| && !(16 < i < 16 + n)
      ensures v[i].None?
    {
      if i != 16 {
        ViewFrame(o.disk, t.disk, i);
      }
    }
  }

  /** Where nothing has an extent, the scan finds nothing, and frees everything, exactly if the tail is quiet. */
  lemma FoundIff(t: State, v: View, u: View)
    requires Inv(t) && NoExtent(t) && |v| == |t.disk| && ShowsTail(v, u)
    ensures AllShown(t, v)
    ensures Headers(v, 1) == [] <==> QuietAfterFirst(u)
    ensures Complement(OccupiedBy(Headers(v, 1)), |v|) == Range(16, |v| - 16) <==> QuietAfterFirst(u)
  {
    assert QuietOutside(t, v) <==> QuietAfterFirst(u) by {
      if QuietOutside(t, v) {
        forall i | 1 <= i < |u|
          ensures u[i].None?
        {
          assert !Owned(t, 16 + i);
          assert v[16 + i] == u[i];
        }
      }
    }
    NothingFoundIff(t, v);
    AllFreeIff(t, v);
  }

  /** After a run without any failure that stores one record and deletes it, a restart finds an empty device if and only
      if no later sector of the record looks like a header. */
  lemma TailComesBack(o: State, key: Bytes, value: Bytes, timestamp: nat) returns (t: State)
    requires Init(o) && Inv(o) && Blank(o) && o.lanes != [] && timestamp < TWO_TO_THE_64
    requires 1 <= |key| <= MAX_KEY_SIZE && 1 <= |value| <= MAX_VALUE_SIZE
    requires 16 + SectorsNeeded(|key|, |value|) <= |o.disk|
    ensures Reaches(o, t, Lifetime(key, value, timestamp)) && Wiped(t)
    ensures TailLeft(o.disk, t.disk, NewRecord(key, value, timestamp, 0), SectorsNeeded(|key|, |value|))
    ensures var found, quiet := Headers(ViewOf(t.disk, {}), 1), QuietTail(NewRecord(key, value, timestamp, 0));
      && (found == [] <==> quiet)
      && (Complement(OccupiedBy(found), |t.disk|) == Range(16, |t.disk| - 16) <==> quiet)
  {
    var rec := NewRecord(key, value, timestamp, 0);
    t := DeleteLeavesTail(o, key, value, timestamp);
    TailSeen(o, t, rec, SizeOf(rec));
    FoundIff(t, ViewOf(t.disk, {}), ViewOf(PreparedBlocks(rec), {}));
  }

  /** A second sector that looks like a header is found. */
  lemma SecondComesBack(o: State, t: State, rec: Record, p: Parsed)
    requires Inv(t) && Blank(o) && NoExtent(t) && TailLeft(o.disk, t.disk, rec, 2) && |PreparedBlocks(rec)| == 2
    requires Classify(PreparedBlocks(rec)[1]) == Some(p)
    ensures p.key in IndexOf(Headers(ViewOf(t.disk, {}), 1))
  {
    TailSeen(o, t, rec, 2);
    FoundIff(t, ViewOf(t.disk, {}), ViewOf(PreparedBlocks(rec), {}));
    FirstPhantom(t, ViewOf(t.disk, {}), 17);
  }

  /** There is a record that leaves such a sector: its key is [1], and the key that comes back is [0x6B]. */
  lemma UnstoredKeyAppears(o: State) returns (t: State)
    requires Init(o) && Inv(o) && Blank(o) && o.lanes != [] && |o.disk| >= 18
    ensures Reaches(o, t, Lifetime([1], TrapValue(), 5)) && Wiped(t)
    ensures [0x6B] in IndexOf(Headers(ViewOf(t.disk, {}), 1))
  {
    TrapSector(NewRecord([1], TrapValue(), 5, 0));
    t := DeleteLeavesTail(o, [1], TrapValue(), 5);
    SecondComesBack(o, t, NewRecord([1], TrapValue(), 5, 0), Parsed([0x6B], 1, 0, 0));
  }
}
