/** A restart can bring back a deleted key: the record is deleted while a worker is writing it, and another worker looks
    at the deletion before the record's sector is published. */
module Resurrection {
  import opened Base
  import opened Format
  import opened Scan
  import opened Recovery
  import opened WriteBehind
  import opened Safety
  import opened Layouts
  import opened Restart
  import opened RestartTheorem
  import opened Lost
  import opened Aftermath

  const KEY: Bytes := [1]
  const VALUE: Bytes := [2]

  /** The states of the two lanes of interest and the one record. */
  ghost predicate At(s: State, live: bool, x: Slot, a: Lane, b: Lane) {
    && Inv(s) && |s.lanes| >= 2 && |s.disk| >= 17
    && s.slots == [x] && s.table == (if live then map[KEY := 0] else map[])
    && s.lanes[0] == a && s.lanes[1] == b
    && (forall w | 2 <= w < |s.lanes| :: s.lanes[w] == Lane([], 0, Idle, [], []))
  }

  ghost predicate CleanlyReaches(s: State, t: State, steps: seq<Step>) {
    Inv(s) && CleanRun(s, steps) && IsRun(s, steps) && Final(s, steps) == t
  }

  lemma Prepend(s: State, step: Step, t: State, rest: seq<Step>)
    requires Inv(s) && Enabled(s, step) && CleanStep(step) && CleanlyReaches(Next(s, step), t, rest)
    ensures CleanlyReaches(s, t, [step] + rest)
  {
    assert ([step] + rest)[1..] == rest;
  }

  function TheRecord(): Record {
    NewRecord(KEY, VALUE, 5, 0)
  }

  const EMPTY: Lane := Lane([], 0, Idle, [], [])

  function PutEntry(): Entry { Entry(Insert, 0, 0) }

  function DeleteEntry(): Entry { Entry(Delete, 0, 1) }

  function Busy(phase: Phase, data: seq<Block>): Lane {
    Lane([], 0, phase, [Write(0, 16, data)], [])
  }

  function InFlight(refcount: nat, del: Progress): Slot {
    Slot(TheRecord().(refcount := refcount), Some(Extent(16, 1)), Listed(0), del)
  }

  /** On a blank device with two shards there is a clean run after which nothing is stored, yet the scan finds the
      deleted key, the sectors of which are lost. */
  lemma DeletedKeyComesBack(s: State) returns (t: State, steps: seq<Step>)
    requires Init(s) && Blank(s) && Inv(s) && |s.lanes| >= 2 && |s.disk| >= 17
    ensures CleanlyReaches(s, t, steps) && Drained(t)
    ensures t.table == map[] && KEY in IndexOf(Headers(ViewOf(t.disk, {}), 1))
    ensures Inv(t) && Orphan(t, 0) && ExtentOf(t.slots[0]) <= LostSectors(t)
  {
    OneSectorIsRecoverable(KEY, VALUE, 5);
    StepIsSafe(s, ClientPut(KEY, VALUE, 5, 0, 0));
    var s1 := Next(s, ClientPut(KEY, VALUE, 5, 0, 0));
    assert 16 in s.free by { assert Within(16, 16, |s.disk| - 16); }
    var rest;
    t, rest := Insertion(s1);
    Prepend(s, ClientPut(KEY, VALUE, 5, 0, 0), t, rest);
    steps := [ClientPut(KEY, VALUE, 5, 0, 0)] + rest;
    BlankIsClean(s);
    CleanRunIsClean(s, steps);
    ScanFindsExtents(t, ViewOf(t.disk, {}));
    assert HasExtent(t, 0);
    IndexKeepsHighest(Headers(ViewOf(t.disk, {}), 1), FoundOf(t.slots[0]));
    forall i | i in ExtentOf(t.slots[0])
      ensures i in LostSectors(t)
    {
      assert Owns(t, 0, i);
      LostWhenDrained(t, i);
    }
  }

  /** The deleted record, written and published. */
  ghost predicate Resurrected(t: State) {
    && Inv(t) && Drained(t) && t.table == map[] && |t.slots| == 1
    && t.slots[0].extent.Some? && t.slots[0].rec.key == KEY
  }

  lemma Insertion(s: State) returns (t: State, steps: seq<Step>)
    requires At(s, true, Slot(TheRecord(), None, Pending(0), Nowhere), Lane([PutEntry()], 0, Idle, [], []), EMPTY)
    requires 16 in s.free
    ensures CleanlyReaches(s, t, steps) && Resurrected(t)
  {
    StepIsSafe(s, Drain(0));
    var s1 := Next(s, Drain(0));
    StepIsSafe(s1, CheckEntry(0));
    var s2 := Next(s1, CheckEntry(0));
    assert At(s2, true, Slot(TheRecord(), None, Pending(0), Nowhere), Lane([PutEntry()], 1, Allocate, [], []), EMPTY);
    var rest;
    t, rest := Allocation(s2);
    Prepend(s1, CheckEntry(0), t, rest);
    Prepend(s, Drain(0), t, [CheckEntry(0)] + rest);
    steps := [Drain(0)] + ([CheckEntry(0)] + rest);
  }

  lemma Allocation(s: State) returns (t: State, steps: seq<Step>)
    requires At(s, true, Slot(TheRecord(), None, Pending(0), Nowhere), Lane([PutEntry()], 1, Allocate, [], []), EMPTY)
    requires 16 in s.free
    ensures CleanlyReaches(s, t, steps) && Resurrected(t)
  {
    var data := PreparedBlocks(TheRecord());
    assert Range(16, 1) == {16};
    StepIsSafe(s, AllocateExtent(0, 16));
    var s1 := Next(s, AllocateExtent(0, 16));
    assert At(s1, true, InFlight(1, Nowhere), Busy(Collect, data), EMPTY);
    var rest;
    t, rest := Deletion1(s1, data);
    Prepend(s, AllocateExtent(0, 16), t, rest);
    steps := [AllocateExtent(0, 16)] + rest;
  }

  /** The client deletes the record, and worker 1 takes the entry. */
  lemma Deletion1(s: State, data: seq<Block>) returns (t: State, steps: seq<Step>)
    requires At(s, true, InFlight(1, Nowhere), Busy(Collect, data), EMPTY)
    ensures CleanlyReaches(s, t, steps) && Resurrected(t)
  {
    StepIsSafe(s, ClientDelete(KEY, 5, 1));
    var s1 := Next(s, ClientDelete(KEY, 5, 1));
    assert At(s1, false, InFlight(0, Pending(1)), Busy(Collect, data), Lane([DeleteEntry()], 0, Idle, [], []));
    StepIsSafe(s1, Drain(1));
    var s2 := Next(s1, Drain(1));
    assert At(s2, false, InFlight(0, Pending(1)), Busy(Collect, data), Lane([DeleteEntry()], 1, Collect, [], []));
    var rest;
    t, rest := Deletion2(s2, data);
    Prepend(s1, Drain(1), t, rest);
    Prepend(s, ClientDelete(KEY, 5, 1), t, [Drain(1)] + rest);
    steps := [ClientDelete(KEY, 5, 1)] + ([Drain(1)] + rest);
  }

  /** Worker 1 finds no sector and drops the deletion. */
  lemma Deletion2(s: State, data: seq<Block>) returns (t: State, steps: seq<Step>)
    requires At(s, false, InFlight(0, Pending(1)), Busy(Collect, data), Lane([DeleteEntry()], 1, Collect, [], []))
    ensures CleanlyReaches(s, t, steps) && Resurrected(t)
  {
    StepIsSafe(s, CheckEntry(1));
    var s1 := Next(s, CheckEntry(1));
    assert At(s1, false, InFlight(0, Done), Busy(Collect, data), Lane([], 0, Collect, [], []));
    StepIsSafe(s1, CollectDone(1));
    var s2 := Next(s1, CollectDone(1));
    StepIsSafe(s2, DeletionsDone(1));
    var s3 := Next(s2, DeletionsDone(1));
    assert At(s3, false, InFlight(0, Done), Busy(Collect, data), EMPTY);
    var rest;
    t, rest := Flush(s3, data);
    Prepend(s2, DeletionsDone(1), t, rest);
    Prepend(s1, CollectDone(1), t, [DeletionsDone(1)] + rest);
    Prepend(s, CheckEntry(1), t, [CollectDone(1)] + ([DeletionsDone(1)] + rest));
    steps := [CheckEntry(1)] + ([CollectDone(1)] + ([DeletionsDone(1)] + rest));
  }

  /** Worker 0 writes its batch. */
  lemma Flush(s: State, data: seq<Block>) returns (t: State, steps: seq<Step>)
    requires At(s, false, InFlight(0, Done), Busy(Collect, data), EMPTY)
    ensures CleanlyReaches(s, t, steps) && Resurrected(t)
  {
    StepIsSafe(s, CollectDone(0));
    var s1 := Next(s, CollectDone(0));
    StepIsSafe(s1, DeletionsDone(0));
    var s2 := Next(s1, DeletionsDone(0));
    StepIsSafe(s2, BatchWritten(0));
    var s3 := Next(s2, BatchWritten(0));
    assert At(s3, false, InFlight(0, Done), Busy(Publish, data), EMPTY);
    var rest;
    t, rest := Publication(s3, data);
    Prepend(s2, BatchWritten(0), t, rest);
    Prepend(s1, DeletionsDone(0), t, [BatchWritten(0)] + rest);
    Prepend(s, CollectDone(0), t, [DeletionsDone(0)] + ([BatchWritten(0)] + rest));
    steps := [CollectDone(0)] + ([DeletionsDone(0)] + ([BatchWritten(0)] + rest));
  }

  /** Worker 0 publishes the sector of a record that nobody will delete any more. */
  lemma Publication(s: State, data: seq<Block>) returns (t: State, steps: seq<Step>)
    requires At(s, false, InFlight(0, Done), Busy(Publish, data), EMPTY)
    ensures CleanlyReaches(s, t, steps) && Resurrected(t)
  {
    StepIsSafe(s, PublishSector(0));
    var s1 := Next(s, PublishSector(0));
    StepIsSafe(s1, ClearValue(0));
    var s2 := Next(s1, ClearValue(0));
    StepIsSafe(s2, PublishDone(0));
    t := Next(s2, PublishDone(0));
    Prepend(s2, PublishDone(0), t, []);
    Prepend(s1, ClearValue(0), t, [PublishDone(0)] + []);
    Prepend(s, PublishSector(0), t, [ClearValue(0)] + ([PublishDone(0)] + []));
    steps := [PublishSector(0)] + ([ClearValue(0)] + ([PublishDone(0)] + []));
  }
}
