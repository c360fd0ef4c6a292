/** `process_write_batch` (src/storage/write_buffer.rs) as a worker runs it, on the records of the store and the real
    free-space manager: each of its effects is a step of the write-behind protocol. */
module Batch {
  import opened Base
  import opened Format
  import opened FreeSpace
  import opened WriteBehind
  import opened Safety
  import opened Tables
  import opened Store
  import Restart

  // ----- what a batch is to do

  /** The collecting loop allocates an extent for the record of this entry. */
  predicate WorthWriting(records: seq<Record>, e: Entry) {
    && !e.kind.Delete? && e.rid < |records|
    && records[e.rid].refcount > 0 && records[e.rid].sector == 0
  }

  function Chosen(records: seq<Record>, e: Entry): seq<nat> {
    if WorthWriting(records, e) then [e.rid] else []
  }

  /** The records that a batch writes, in order. */
  function Wanted(records: seq<Record>, entries: seq<Entry>): seq<nat> {
    if entries == [] then [] else Chosen(records, entries[0]) + Wanted(records, entries[1..])
  }

  /** The deletion that an entry leads to, if its record is on disk. */
  function Noted(records: seq<Record>, e: Entry): seq<Deletion> {
    if e.kind.Delete? && e.rid < |records| && records[e.rid].sector != 0 then
      [Deletion(e.rid, records[e.rid].sector, |records[e.rid].key|, e.oldLen)]
    else []
  }

  /** The deletions that a batch carries out, in order. */
  function Doomed(records: seq<Record>, entries: seq<Entry>): seq<Deletion> {
    if entries == [] then [] else Noted(records, entries[0]) + Doomed(records, entries[1..])
  }

  function Rids(batch: seq<Write>): (rids: seq<nat>)
    ensures |rids| == |batch|
  {
    seq(|batch|, (i: nat) requires i < |batch| => batch[i].rid)
  }

  /** Each element of the batch holds the bytes of its record. */
  ghost predicate HoldsData(records: seq<Record>, batch: seq<Write>) {
    forall i | 0 <= i < |batch| :: batch[i].rid < |records| && batch[i].data == PreparedBlocks(records[batch[i].rid])
  }

  /** With `entries` still to come, the lists are what the drained entries call for so far. */
  ghost predicate SoFar(records: seq<Record>, drained: seq<Entry>, entries: seq<Entry>, batch: seq<Write>,
                        deletions: seq<Deletion>)
  {
    && Rids(batch) + Wanted(records, entries) == Wanted(records, drained) && HoldsData(records, batch)
    && deletions + Doomed(records, entries) == Doomed(records, drained)
  }

  /** One entry further. */
  ghost predicate OneMore(records: seq<Record>, e: Entry, batch: seq<Write>, deletions: seq<Deletion>,
                          more: seq<Write>, listed: seq<Deletion>)
  {
    && Rids(more) == Rids(batch) + Chosen(records, e) && (HoldsData(records, batch) ==> HoldsData(records, more))
    && listed == deletions + Noted(records, e)
  }

  lemma {:induction false} SoFarNext(records: seq<Record>, drained: seq<Entry>, entries: seq<Entry>, batch: seq<Write>,
                                     deletions: seq<Deletion>, more: seq<Write>, listed: seq<Deletion>)
    requires SoFar(records, drained, entries, batch, deletions) && entries != []
    requires OneMore(records, entries[0], batch, deletions, more, listed)
    ensures SoFar(records, drained, entries[1..], more, listed)
  {
    var e, rest := entries[0], entries[1..];
    assert Rids(batch) + Chosen(records, e) + Wanted(records, rest)
      == Rids(batch) + (Chosen(records, e) + Wanted(records, rest));
    assert deletions + Noted(records, e) + Doomed(records, rest)
      == deletions + (Noted(records, e) + Doomed(records, rest));
  }

  /** A record whose value is on disk only, from sector `start` on. */
  function Offloaded(rec: Record, start: nat): Record {
    rec.(sector := start, value := None)
  }

  /** The records after the batch has been published. */
  function PublishedAll(records: seq<Record>, batch: seq<Write>): (r: seq<Record>)
    ensures |r| == |records|
    decreases |batch|
  {
    if batch == [] || batch[0].rid >= |records| then records
    else PublishedAll(records[batch[0].rid := Offloaded(records[batch[0].rid], batch[0].start)], batch[1..])
  }

  ghost predicate DistinctRids(batch: seq<Write>) {
    forall i, j | 0 <= i < j < |batch| :: batch[i].rid != batch[j].rid
  }

  /** Publishing offloads each record of the batch to its own extent and leaves the others alone. */
  lemma {:induction false} PublishedRecords(records: seq<Record>, batch: seq<Write>, r: nat)
    requires r < |records| && DistinctRids(batch) && forall i | 0 <= i < |batch| :: batch[i].rid < |records|
    ensures forall i | 0 <= i < |batch| && batch[i].rid == r ::
              PublishedAll(records, batch)[r] == Offloaded(records[r], batch[i].start)
    ensures r !in Rids(batch) ==> PublishedAll(records, batch)[r] == records[r]
    decreases |batch|
  {
    if batch != [] {
      var next, rest := records[batch[0].rid := Offloaded(records[batch[0].rid], batch[0].start)], batch[1..];
      assert forall i | 0 <= i < |rest| :: rest[i] == batch[i + 1] && Rids(rest)[i] == Rids(batch)[i + 1];
      PublishedRecords(next, rest, r);
      assert Rids(batch)[0] == batch[0].rid;
      forall i | 0 <= i < |batch| && batch[i].rid == r
        ensures PublishedAll(records, batch)[r] == Offloaded(records[r], batch[i].start)
      {
        if i > 0 {
          assert rest[i - 1].rid == r && batch[0].rid != r;
        } else {
          assert r !in Rids(rest);
        }
      }
    }
  }

  /** The sectors that a list of deletions gives back. */
  ghost function GivenBack(deletions: seq<Deletion>): set<nat> {
    if deletions == [] then {} else Range(deletions[0].start, Freed(deletions[0])) + GivenBack(deletions[1..])
  }

  /** The first sectors of the extents of a batch. */
  ghost function FirstSectors(batch: seq<Write>): set<nat> {
    if batch == [] then {} else Range(batch[0].start, 1) + FirstSectors(batch[1..])
  }

  /** The extents of a batch. */
  ghost function TakenBy(batch: seq<Write>): set<nat> {
    if batch == [] then {}
    else
      var n := |batch| - 1;
      TakenBy(batch[..n]) + Range(batch[n].start, |batch[n].data|)
  }

  /** The batch has grown by at most one element, the extent of which was free. */
  ghost predicate Drawn(free: set<nat>, left: set<nat>, batch: seq<Write>, more: seq<Write>) {
    || (more == batch && left == free)
    || (&& |more| == |batch| + 1 && more[..|batch|] == batch
        && left == free - Range(more[|batch|].start, |more[|batch|].data|))
  }

  lemma {:induction false} DrawnIsTaken(base: set<nat>, left: set<nat>, batch: seq<Write>, more: seq<Write>)
    requires Drawn(base - TakenBy(batch), left, batch, more)
    ensures left == base - TakenBy(more)
  {
  }

  /** Only sectors of the batch have changed. */
  ghost predicate OnlyInBatch(before: Disk, after: Disk, batch: seq<Write>) {
    |after| == |before| && forall i | 0 <= i < |before| && !InBatch(batch, i) :: after[i] == before[i]
  }

  lemma WrittenInBatch(disk: Disk, batch: seq<Write>)
    ensures OnlyInBatch(disk, WriteAll(disk, batch), batch)
  {
    forall i | 0 <= i < |disk| && !InBatch(batch, i)
      ensures WriteAll(disk, batch)[i] == disk[i]
    {
      WriteAllFrame(disk, batch, i);
    }
  }

  /** Only sectors of the batch and the first sectors of the deletions have changed. */
  ghost predicate Touched(before: Disk, after: Disk, deletions: seq<Deletion>, batch: seq<Write>) {
    && |after| == |before|
    && forall i | 0 <= i < |before| && after[i] != before[i] && !InBatch(batch, i) ::
         exists j :: 0 <= j < |deletions| && deletions[j].start == i
  }

  lemma TouchedByBoth(before: Disk, middle: Disk, after: Disk, deletions: seq<Deletion>, batch: seq<Write>)
    requires |middle| == |before| && OnlyMarked(before, middle, deletions) && OnlyInBatch(middle, after, batch)
    ensures Touched(before, after, deletions, batch)
  {
    forall i | 0 <= i < |before| && after[i] != before[i] && !InBatch(batch, i)
      ensures exists j :: 0 <= j < |deletions| && deletions[j].start == i
    {
      assert middle[i] == after[i];
    }
  }

  /** What follows the collecting loop does to the free sectors and to the disk: the deletions give back theirs, and so
      does a batch that could not be written with its first sectors. */
  ghost predicate CarriedOut(written: bool, free: set<nat>, left: set<nat>, device: Device, disk: Disk, now: Disk,
                             deletions: seq<Deletion>, batch: seq<Write>)
  {
    && left == (if written then free + GivenBack(deletions) else free + GivenBack(deletions) + FirstSectors(batch))
    && Touched(disk, now, deletions, batch) && MarkedBut(device, now, deletions, batch)
  }

  /** Every deletion whose marker write did not fail has left its marker, unless the batch has written there. */
  ghost predicate MarkedBut(device: Device, now: Disk, deletions: seq<Deletion>, batch: seq<Write>) {
    forall j | 0 <= j < |deletions| && !InBatch(batch, deletions[j].start) ::
      && deletions[j].start < |now|
      && (device.torn(deletions[j].start).None? ==> Deleted(now[deletions[j].start]))
  }

  lemma StillMarked(device: Device, middle: Disk, now: Disk, deletions: seq<Deletion>, batch: seq<Write>)
    requires Marked(device, middle, deletions, |deletions|) && OnlyInBatch(middle, now, batch)
    ensures MarkedBut(device, now, deletions, batch)
  {
  }

  /** A full device: the batch keeps the extents it has taken so far, and the deletions are not carried out. */
  ghost predicate GivenUp(free: set<nat>, left: set<nat>, disk: Disk, now: Disk, batch: seq<Write>) {
    left == free - TakenBy(batch) && now == disk
  }

  // ----- the device

  /** What the device does with the writes of one batch. `torn(i)` is what a marker write to sector `i` leaves there if
      it fails; `failed(n)` is what lies on the device after the attempt with `n` left, if that fails. */
  datatype Device = Device(torn: nat -> Option<Block>, failed: nat -> Option<Disk>)

  /** No marker write fails. */
  ghost predicate AllMarked(device: Device, deletions: seq<Deletion>) {
    forall i | 0 <= i < |deletions| :: device.torn(deletions[i].start).None?
  }

  /** How many attempts fail before one succeeds. */
  ghost function Failures(device: Device): nat {
    if device.failed(3).None? then 0 else if device.failed(2).None? then 1 else if device.failed(1).None? then 2 else 3
  }

  /** The sector begins with `\0DELETED`. */
  ghost predicate Deleted(b: Block) {
    b[..8] == [0, 68, 69, 76, 69, 84, 69, 68]
  }

  /** Of the first `n` deletions, every one whose marker write does not fail has left its marker, and any other what the
      device says. */
  ghost predicate Marked(device: Device, now: Disk, listed: seq<Deletion>, n: nat) {
    forall j | 0 <= j < |listed| && j < n ::
      && listed[j].start < |now|
      && match device.torn(listed[j].start)
         case None => Deleted(now[listed[j].start])
         case Some(left) => now[listed[j].start] == left
  }

  /** A failed attempt may leave anything in the sectors of the batch, and nothing elsewhere. */
  function TornBy(disk: Disk, left: Disk, batch: seq<Write>): (torn: Disk)
    ensures |torn| == |disk|
    ensures forall i | 0 <= i < |disk| && !InBatch(batch, i) :: torn[i] == disk[i]
  {
    seq(|disk|, (i: nat) requires i < |disk| => if InBatch(batch, i) && i < |left| then left[i] else disk[i])
  }

  /** From the end of `before` on, the run has marked and released `count` times in turn. */
  ghost predicate MarkedThenReleased(before: seq<Step>, after: seq<Step>, count: nat) {
    && |before| + 2 * count <= |after|
    && forall i | 0 <= i < count :: after[|before| + 2 * i].WriteMarker? && after[|before| + 2 * i + 1].ReleaseDeleted?
  }

  /** Only the first sectors of the listed extents have changed. */
  ghost predicate OnlyMarked(before: Disk, after: Disk, listed: seq<Deletion>) {
    forall i | 0 <= i < |before| && i < |after| && after[i] != before[i] ::
      exists j :: 0 <= j < |listed| && listed[j].start == i
  }

  /** Of the listed deletions, the first `n` have been carried out. */
  ghost predicate Wiped(before: seq<Step>, after: seq<Step>, device: Device, disk: Disk, now: Disk,
                        listed: seq<Deletion>, n: nat)
  {
    && |after| == |before| + 2 * n && MarkedThenReleased(before, after, n)
    && |now| == |disk| && OnlyMarked(disk, now, listed) && Marked(device, now, listed, n)
  }

  lemma WipedMore(before: seq<Step>, mid: seq<Step>, after: seq<Step>, w: nat, device: Device, disk: Disk, middle: Disk,
                  now: Disk, listed: seq<Deletion>, n: nat)
    requires Wiped(before, mid, device, disk, middle, listed, n) && n < |listed| && mid <= after
    requires Wiped(mid, after, device, middle, now, listed[n..][..1], 1)
    requires Extends(before, mid, w, AllMarked(device, listed))
    requires Extends(mid, after, w, device.torn(listed[n].start).None?)
    ensures Wiped(before, after, device, disk, now, listed, n + 1)
    ensures Extends(before, after, w, AllMarked(device, listed))
  {
    var all := AllMarked(device, listed);
    ExtendsFurther(before, mid, after, w, all, device.torn(listed[n].start).None?, all);
    assert after[|mid| + 2 * 0].WriteMarker?;
    var one := listed[n..][..1];
    assert one[0] == listed[n];
    forall i | 0 <= i < |disk| && now[i] != disk[i]
      ensures exists j :: 0 <= j < |listed| && listed[j].start == i
    {
      if now[i] != middle[i] {
        var j :| 0 <= j < |one| && one[j].start == i;
        assert listed[n].start == i;
      }
    }
    MarkedMore(device, middle, now, listed, n);
  }

  lemma MarkedMore(device: Device, middle: Disk, now: Disk, listed: seq<Deletion>, n: nat)
    requires Marked(device, middle, listed, n) && n < |listed| && |now| == |middle|
    requires OnlyMarked(middle, now, listed[n..][..1]) && Marked(device, now, listed[n..][..1], 1)
    ensures Marked(device, now, listed, n + 1)
  {
    var one := listed[n..][..1];
    assert one[0] == listed[n];
    forall j | 0 <= j < n
      ensures now[listed[j].start] == middle[listed[j].start] || listed[j].start == listed[n].start
    {
    }
  }

  /** The first `n` deletions have been carried out by worker `w`, and what they free has joined the free sectors. */
  ghost predicate WipedSoFar(before: seq<Step>, after: seq<Step>, w: nat, device: Device, disk: Disk, now: Disk,
                             free: set<nat>, left: set<nat>, listed: seq<Deletion>, n: nat)
  {
    && n <= |listed| && Wiped(before, after, device, disk, now, listed, n)
    && Extends(before, after, w, AllMarked(device, listed))
    && left + GivenBack(listed[n..]) == free + GivenBack(listed)
  }

  lemma {:induction false} WipedFurther(before: seq<Step>, mid: seq<Step>, after: seq<Step>, w: nat, device: Device,
                                        disk: Disk, middle: Disk, now: Disk, free: set<nat>, between: set<nat>,
                                        left: set<nat>, listed: seq<Deletion>, n: nat)
    requires WipedSoFar(before, mid, w, device, disk, middle, free, between, listed, n) && n < |listed| && mid <= after
    requires Wiped(mid, after, device, middle, now, listed[n..][..1], 1)
    requires Extends(mid, after, w, device.torn(listed[n].start).None?)
    requires left == between + Range(listed[n].start, Freed(listed[n]))
    ensures WipedSoFar(before, after, w, device, disk, now, free, left, listed, n + 1)
  {
    WipedMore(before, mid, after, w, device, disk, middle, now, listed, n);
    assert listed[n..][0] == listed[n] && listed[n..][1..] == listed[n + 1..];
  }

  /** From the end of `before` on, `failures` writes have failed and then, if `written`, one has succeeded. */
  ghost predicate Tried(before: seq<Step>, after: seq<Step>, failures: nat, written: bool) {
    && |after| == |before| + failures + (if written then 1 else 0)
    && (forall i | |before| <= i < |before| + failures :: after[i].BatchFailed?)
    && (written ==> after[|after| - 1].BatchWritten?)
  }

  /** So many attempts of worker `w` have failed, and only sectors of the batch have changed. */
  ghost predicate TriedSoFar(before: seq<Step>, after: seq<Step>, w: nat, disk: Disk, now: Disk, batch: seq<Write>,
                             failures: nat, written: bool)
  {
    Tried(before, after, failures, written) && Extends(before, after, w, true) && OnlyInBatch(disk, now, batch)
  }

  lemma TriedMore(before: seq<Step>, mid: seq<Step>, after: seq<Step>, w: nat, disk: Disk, middle: Disk, now: Disk,
                  batch: seq<Write>, failures: nat, written: bool)
    requires TriedSoFar(before, mid, w, disk, middle, batch, failures, false) && |after| == |mid| + 1
    requires if written then after[|mid|].BatchWritten? else after[|mid|].BatchFailed?
    requires Extends(mid, after, w, true) && OnlyInBatch(middle, now, batch)
    ensures TriedSoFar(before, after, w, disk, now, batch, if written then failures else failures + 1, written)
  {
    ExtendsFurther(before, mid, after, w, true, true, true);
  }

  /** The batch is on disk. */
  ghost predicate Landed(disk: Disk, records: nat, batch: seq<Write>) {
    DistinctRids(batch) && forall i | 0 <= i < |batch| ::
      && batch[i].rid < records && 16 <= batch[i].start && batch[i].start + |batch[i].data| <= |disk|
      && disk[batch[i].start..batch[i].start + |batch[i].data|] == batch[i].data
  }

  /** The bytes of the record lie on disk from its sector on. */
  ghost predicate LiesAt(disk: Disk, rec: Record, sector: nat) {
    && 16 <= sector && sector + SizeOf(rec) <= |disk|
    && disk[sector..sector + SizeOf(rec)] == PreparedBlocks(rec)
  }

  /** The wanted records have gone to disk, the others are as they were. */
  ghost predicate Flushed(before: seq<Record>, after: seq<Record>, wanted: seq<nat>, disk: Disk) {
    && |after| == |before|
    && forall r | 0 <= r < |before| ::
         if r in wanted then
           after[r] == Offloaded(before[r], after[r].sector) && LiesAt(disk, before[r], after[r].sector)
         else after[r] == before[r]
  }

  lemma {:induction false} PublishedIsFlushed(records: seq<Record>, batch: seq<Write>, entries: seq<Entry>, disk: Disk)
    requires Rids(batch) == Wanted(records, entries) && HoldsData(records, batch) && Landed(disk, |records|, batch)
    ensures Flushed(records, PublishedAll(records, batch), Wanted(records, entries), disk)
  {
    forall r | 0 <= r < |records|
      ensures var after := PublishedAll(records, batch)[r];
        if r in Rids(batch) then after == Offloaded(records[r], after.sector) && LiesAt(disk, records[r], after.sector)
        else after == records[r]
    {
      PublishedRecords(records, batch, r);
      if r in Rids(batch) {
        var i :| 0 <= i < |batch| && Rids(batch)[i] == r;
        assert batch[i].rid == r;
      }
    }
  }

  // ----- where a worker is

  /** The worker of shard `w` has `entries` left to collect and these lists. */
  ghost predicate Holds(s: State, w: nat, phase: Phase, entries: seq<Entry>, batch: seq<Write>,
                        deletions: seq<Deletion>)
  {
    && w < |s.lanes|
    && s.lanes[w].phase == phase
    && s.lanes[w].drained == |entries| && entries <= s.lanes[w].queue
    && s.lanes[w].batch == batch && s.lanes[w].deletions == deletions
  }

  /** A step of worker `w`, and one that gives nothing up if `clean`. */
  ghost predicate StepOf(step: Step, w: nat, clean: bool) {
    WorkerStep(step) && step.w == w && (clean ==> Restart.CleanStep(step))
  }

  /** The run has gone on with such steps. */
  ghost predicate Extends(before: seq<Step>, after: seq<Step>, w: nat, clean: bool) {
    && before <= after
    && forall i {:trigger StepOf(after[i], w, clean)} | |before| <= i < |after| :: StepOf(after[i], w, clean)
  }

  lemma ExtendsFurther(before: seq<Step>, mid: seq<Step>, after: seq<Step>, w: nat, first: bool, second: bool,
                       clean: bool)
    requires Extends(before, mid, w, first) && Extends(mid, after, w, second) && (clean ==> first && second)
    ensures Extends(before, after, w, clean)
  {
    forall i | |before| <= i < |after|
      ensures StepOf(after[i], w, clean)
    {
      if i < |mid| {
        assert StepOf(mid[i], w, first);
      } else {
        assert StepOf(after[i], w, second);
      }
    }
  }

  /** With a step before and one after. */
  lemma ExtendsAround(before: seq<Step>, first: Step, mid: seq<Step>, last: Step, w: nat, clean: bool)
    requires Extends(before + [first], mid, w, clean) && StepOf(first, w, true) && StepOf(last, w, true)
    ensures Extends(before, mid + [last], w, clean)
  {
    var after := mid + [last];
    forall i | |before| <= i < |after|
      ensures StepOf(after[i], w, clean)
    {
      if i == |before| {
        assert (before + [first])[i] == first;
      } else if i < |mid| {
        assert StepOf(mid[i], w, clean);
      }
    }
  }

  /** The steps of a worker leave the versions that the table leads to. */
  lemma WorkerKeepsIndexes(states: seq<State>, steps: seq<Step>, later: seq<State>, more: seq<Step>, w: nat,
                           clean: bool,
                           disk: Disk, records: seq<Record>, table: map<Bytes, nat>, shards: seq<seq<Entry>>,
                           newDisk: Disk, newRecords: seq<Record>, newShards: seq<seq<Entry>>, m: Versions.Model)
    requires History(states, steps) && History(later, more) && states[0] == later[0] && Extends(steps, more, w, clean)
    requires Shows(states[|steps|], disk, records, table, shards) && Indexes(disk, records, table, m)
    requires Shows(later[|more|], newDisk, newRecords, table, newShards)
    ensures Indexes(newDisk, newRecords, table, m)
  {
    ShowsTabled(states[|steps|], disk, records, table, shards, m);
    SameHistory(states, steps, later, more, |steps|);
    forall j | |steps| <= j < |more|
      ensures WorkerStep(more[j])
    {
      assert StepOf(more[j], w, clean);
    }
    WorkersKeepTabled(later, more, |steps|, m);
    ShowsTabled(later[|more|], newDisk, newRecords, table, newShards, m);
  }

  lemma HeadFacts(s: State, w: nat, phase: Phase, entries: seq<Entry>, batch: seq<Write>, deletions: seq<Deletion>)
    requires Inv(s) && Holds(s, w, phase, entries, batch, deletions) && entries != []
    ensures entries[0].rid < |s.slots|
  {
    assert LaneOk(s, w) && entries[0] == s.lanes[w].queue[0] && EntryOk(s, w, entries[0]);
  }

  lemma NoteShows(s: State, disk: Disk, records: seq<Record>, table: map<Bytes, nat>, shards: seq<seq<Entry>>,
                  w: nat, entries: seq<Entry>, batch: seq<Write>, deletions: seq<Deletion>)
    requires Inv(s) && Shows(s, disk, records, table, shards) && Holds(s, w, Collect, entries, batch, deletions)
    requires entries != [] && !WorthWriting(records, entries[0])
    ensures Enabled(s, CheckEntry(w)) && Checked(s, w).free == s.free
    ensures Shows(Checked(s, w), disk, records, table, shards)
    ensures Holds(Checked(s, w), w, Collect, entries[1..], batch, deletions + Noted(records, entries[0]))
  {
    var e := entries[0];
    assert LaneOk(s, w) && e == s.lanes[w].queue[0] && EntryOk(s, w, e);
    assert Waits(s.lanes[w], shards[w]);
    if e.kind.Delete? && s.slots[e.rid].rec.sector != 0 {
      assert Noted(records, e) == [Deletion(e.rid, s.slots[e.rid].rec.sector, |s.slots[e.rid].rec.key|, e.oldLen)];
    } else {
      assert Noted(records, e) == [] && deletions + [] == deletions;
    }
  }

  lemma AbortShows(s: State, disk: Disk, records: seq<Record>, table: map<Bytes, nat>, shards: seq<seq<Entry>>, w: nat)
    requires Inv(s) && Enabled(s, AbortOutOfSpace(w)) && Shows(s, disk, records, table, shards)
    ensures Shows(Aborted(s, w), disk, records, table, shards)
  {
    assert Waits(s.lanes[w], shards[w]);
    forall r | 0 <= r < |records|
      ensures records[r] == Aborted(s, w).slots[r].rec
    {
      AbandonedFrame(s, w, r);
    }
  }

  /** The extent of a listed deletion may be written to and released. */
  lemma DeletionFacts(s: State, w: nat, phase: Phase, batch: seq<Write>, deletions: seq<Deletion>)
    requires Inv(s) && Holds(s, w, phase, [], batch, deletions) && deletions != []
    ensures var d := deletions[0];
      && 16 <= d.start && 1 <= Freed(d) && d.start + Freed(d) <= |s.disk| && Range(d.start, Freed(d)) !! s.free
  {
    var d := deletions[0];
    assert LaneOk(s, w) && DeletionOk(s, w, d) && SlotOk(s, d.rid);
    var x := s.slots[d.rid].extent.value;
    assert Range(d.start, Freed(d)) <= Range(x.start, x.count);
  }

  /** The extent of an element of the batch that is not published. */
  lemma WriteFacts(s: State, w: nat, phase: Phase, batch: seq<Write>)
    requires Inv(s) && Holds(s, w, phase, [], batch, []) && batch != [] && !phase.Clear?
    ensures batch[0].rid < |s.slots| && DistinctRids(batch)
    ensures var x := batch[0];
      16 <= x.start && 1 <= |x.data| && x.start + |x.data| <= |s.disk| && Range(x.start, 1) !! s.free
  {
    var x := batch[0];
    assert LaneOk(s, w) && WriteOk(s, w, x) && SlotOk(s, x.rid);
    assert Range(x.start, 1) <= Range(x.start, |x.data|);
  }

  lemma BatchFacts(s: State, w: nat, batch: seq<Write>)
    requires Inv(s) && Holds(s, w, Publish, [], batch, [])
    ensures Landed(s.disk, |s.slots|, batch)
  {
    assert LaneOk(s, w);
    forall i | 0 <= i < |batch|
      ensures && batch[i].rid < |s.slots| && 16 <= batch[i].start && batch[i].start + |batch[i].data| <= |s.disk|
              && s.disk[batch[i].start..batch[i].start + |batch[i].data|] == batch[i].data
    {
      assert WriteOk(s, w, batch[i]) && SlotOk(s, batch[i].rid) && WriteBehind.OnDisk(s, batch[i]);
    }
  }

  // ----- clients

  /** The step that a successful put is. */
  function PutStep(key: Bytes, v: Versions.Version, shard: nat): Step {
    ClientPut(key, v.value, v.timestamp, v.expiry, shard)
  }

  /** What a put does to the fields is what the step does to the state. */
  lemma PutIsStep(s: State, disk: Disk, records: seq<Record>, table: map<Bytes, nat>, shards: seq<seq<Entry>>,
                  m: Versions.Model, key: Bytes, v: Versions.Version, shard: nat)
    requires Inv(s) && Shows(s, disk, records, table, shards) && Indexes(disk, records, table, m) && shard < |shards|
    requires ValidKey(key) && ValidValue(v.value) && v.timestamp < TWO_TO_THE_64 && v.expiry < TWO_TO_THE_64
    requires key in m ==> m[key].timestamp <= v.timestamp
    ensures Enabled(s, PutStep(key, v, shard))
    ensures Shows(Next(s, PutStep(key, v, shard)), disk, records + [NewRecord(key, v.value, v.timestamp, v.expiry)],
                  table[key := |records|], Push(shards, shard, QueuedBy(table, m, key, |records|)))
  {
    var rec := NewRecord(key, v.value, v.timestamp, v.expiry);
    if key in table {
      assert Carries(disk, records[table[key]], key, m[key]);
      assert TableOk(s, key);
      PutShows(s, disk, records, table, shards, rec, shard, Some(table[key]), |m[key].value|);
    } else {
      PutShows(s, disk, records, table, shards, rec, shard, None, 0);
    }
  }

  lemma DeleteIsStep(s: State, disk: Disk, records: seq<Record>, table: map<Bytes, nat>, shards: seq<seq<Entry>>,
                     m: Versions.Model, key: Bytes, timestamp: nat, shard: nat)
    requires Inv(s) && Shows(s, disk, records, table, shards) && Indexes(disk, records, table, m) && shard < |shards|
    requires key in m && m[key].timestamp <= timestamp
    ensures Enabled(s, ClientDelete(key, timestamp, shard)) && table[key] < |records|
    ensures Shows(Next(s, ClientDelete(key, timestamp, shard)), disk,
                  records[table[key] := records[table[key]].(refcount := 0)], table - {key},
                  Push(shards, shard, [Entry(Kind.Delete, table[key], |m[key].value|)]))
  {
    assert Carries(disk, records[table[key]], key, m[key]);
    assert TableOk(s, key);
    RemoveShows(s, disk, records, table, shards, key, shard, |m[key].value|);
  }

  class WriteBuffer {
    /** The store, which shares its records with the workers. */
    const kv: FunKV
    var freeSpace: FreeSpaceManager
    /** The protocol state, and the states and steps that led to it from `origin`. */
    ghost var state: State
    ghost var origin: State
    ghost var history: seq<State>
    ghost var trace: seq<Step>

    ghost predicate Reached()
      reads this`state, this`origin, this`history, this`trace
    {
      History(history, trace) && history[0] == origin && history[|trace|] == state
    }

    lemma Safe()
      requires Reached()
      ensures Inv(state)
    {
      assert SafeAt(history, |trace|);
    }

    /** This is what the run has led to. */
    ghost predicate At(disk: Disk, records: seq<Record>, table: map<Bytes, nat>, shards: seq<seq<Entry>>)
      reads this`state, this`origin, this`history, this`trace
    {
      Reached() && Shows(state, disk, records, table, shards)
    }

    /** The manager has the free sectors of the protocol state, on a device of this many sectors. */
    ghost predicate Manages(sectors: nat)
      reads this`state, this`freeSpace, freeSpace
    {
      && freeSpace.Valid() && freeSpace.Free() == state.free
      && freeSpace.persistenceSize > 0 && DeviceSectors(freeSpace.persistenceSize) == sectors
    }

    ghost predicate Valid()
      reads this, kv`disk, kv`records, kv`hashTable, kv`shards, freeSpace
    {
      At(kv.disk, kv.records, kv.hashTable, kv.shards) && Manages(|kv.disk|)
    }

    /** The worker of shard `w` is there, with these entries and lists. */
    ghost predicate Works(w: nat, phase: Phase, entries: seq<Entry>, batch: seq<Write>, deletions: seq<Deletion>)
      reads this`state
    {
      Holds(state, w, phase, entries, batch, deletions)
    }

    /** All that has happened are steps of worker `w`, and if `clean` they give nothing up. */
    twostate predicate OnlyWorker(w: nat, clean: bool)
      reads this`trace
    {
      Extends(old(trace), trace, w, clean)
    }

    /** The last step taken. */
    ghost predicate Ends(step: Step)
      reads this`trace
    {
      trace != [] && trace[|trace| - 1] == step
    }

    /** A buffer for a store that starts in this state of the protocol. */
    constructor (kv: FunKV, freeSpace: FreeSpaceManager, ghost start: State)
      requires Inv(start) && Shows(start, kv.disk, kv.records, kv.hashTable, kv.shards)
      requires freeSpace.Valid() && freeSpace.Free() == start.free
      requires freeSpace.persistenceSize > 0 && DeviceSectors(freeSpace.persistenceSize) == |kv.disk|
      ensures Valid() && this.kv == kv && this.freeSpace == freeSpace
      ensures origin == state == start && trace == []
    {
      this.kv, this.freeSpace := kv, freeSpace;
      state, origin, history, trace := start, start, [start], [];
    }

    ghost method Take(step: Step)
      requires Reached() && Inv(state) && Enabled(state, step)
      modifies this`state, this`history, this`trace
      ensures Reached() && state == Next(old(state), step) && trace == old(trace) + [step]
    {
      HistoryExtends(history, trace, step);
      StepIsSafe(state, step);
      history, trace := history + [Next(state, step)], trace + [step];
      state := Next(state, step);
    }

    /** Any step, with the manager that has the free sectors after it. */
    method Adopt(disk: Disk, records: seq<Record>, table: map<Bytes, nat>, shards: seq<seq<Entry>>,
                 newFreeSpace: FreeSpaceManager, ghost step: Step)
      requires Reached() && Inv(state) && Enabled(state, step)
      requires Shows(Next(state, step), disk, records, table, shards)
      requires newFreeSpace.Valid() && newFreeSpace.Free() == Next(state, step).free
      requires newFreeSpace.persistenceSize > 0 && DeviceSectors(newFreeSpace.persistenceSize) == |disk|
      modifies this
      ensures At(disk, records, table, shards) && Manages(|disk|) && trace == old(trace) + [step]
    {
      Take(step);
      freeSpace := newFreeSpace;
    }

    // ----- the steps of clients, and what they do to the fields

    ghost method TakePut(disk: Disk, records: seq<Record>, table: map<Bytes, nat>, shards: seq<seq<Entry>>,
                         m: Versions.Model, key: Bytes, v: Versions.Version, shard: nat)
      requires At(disk, records, table, shards) && Indexes(disk, records, table, m) && shard < |shards|
      requires ValidKey(key) && ValidValue(v.value) && v.timestamp < TWO_TO_THE_64 && v.expiry < TWO_TO_THE_64
      requires key in m ==> m[key].timestamp <= v.timestamp
      modifies this`state, this`history, this`trace
      ensures At(disk, records + [NewRecord(key, v.value, v.timestamp, v.expiry)], table[key := |records|],
                 Push(shards, shard, QueuedBy(table, m, key, |records|)))
      ensures state.free == old(state.free) && trace == old(trace) + [PutStep(key, v, shard)]
    {
      Safe();
      PutIsStep(state, disk, records, table, shards, m, key, v, shard);
      Take(PutStep(key, v, shard));
    }

    ghost method TakeDelete(disk: Disk, records: seq<Record>, table: map<Bytes, nat>, shards: seq<seq<Entry>>,
                            m: Versions.Model, key: Bytes, timestamp: nat, shard: nat)
      requires At(disk, records, table, shards) && Indexes(disk, records, table, m) && shard < |shards|
      requires key in m && m[key].timestamp <= timestamp
      modifies this`state, this`history, this`trace
      ensures table[key] < |records|
      ensures At(disk, records[table[key] := records[table[key]].(refcount := 0)], table - {key},
                 Push(shards, shard, [Entry(Kind.Delete, table[key], |m[key].value|)]))
      ensures state.free == old(state.free) && trace == old(trace) + [ClientDelete(key, timestamp, shard)]
    {
      Safe();
      DeleteIsStep(state, disk, records, table, shards, m, key, timestamp, shard);
      Take(ClientDelete(key, timestamp, shard));
    }

    // ----- the steps of a worker, and what they do to the fields

    ghost method TakeDrain(disk: Disk, records: seq<Record>, table: map<Bytes, nat>, shards: seq<seq<Entry>>,
                      w: nat)
      requires At(disk, records, table, shards)
      requires w < |shards| && state.lanes[w].phase.Idle?
      modifies this`state, this`history, this`trace
      ensures At(disk, records, table, shards[w := []]) && Works(w, Collect, shards[w], [], [])
      ensures state.free == old(state.free) && trace == old(trace) + [Drain(w)]
    {
      Safe();
      assert Waits(state.lanes[w], shards[w]) && LaneOk(state, w);
      Take(Drain(w));
    }

    ghost method TakeNote(disk: Disk, records: seq<Record>, table: map<Bytes, nat>, shards: seq<seq<Entry>>,
                      w: nat, entries: seq<Entry>, batch: seq<Write>, deletions: seq<Deletion>)
      requires At(disk, records, table, shards)
      requires Works(w, Collect, entries, batch, deletions) && entries != [] && !WorthWriting(records, entries[0])
      modifies this`state, this`history, this`trace
      ensures At(disk, records, table, shards)
      ensures Works(w, Collect, entries[1..], batch, deletions + Noted(records, entries[0]))
      ensures state.free == old(state.free) && trace == old(trace) + [CheckEntry(w)]
    {
      Safe();
      NoteShows(state, disk, records, table, shards, w, entries, batch, deletions);
      Take(CheckEntry(w));
    }

    ghost method TakeChoose(disk: Disk, records: seq<Record>, table: map<Bytes, nat>, shards: seq<seq<Entry>>,
                      w: nat, entries: seq<Entry>, batch: seq<Write>, deletions: seq<Deletion>)
      requires At(disk, records, table, shards)
      requires Works(w, Collect, entries, batch, deletions) && entries != [] && WorthWriting(records, entries[0])
      modifies this`state, this`history, this`trace
      ensures At(disk, records, table, shards) && Works(w, Allocate, entries, batch, deletions)
      ensures state.free == old(state.free) && trace == old(trace) + [CheckEntry(w)]
    {
      Safe();
      var e := entries[0];
      assert LaneOk(state, w) && e == state.lanes[w].queue[0] && EntryOk(state, w, e);
      Take(CheckEntry(w));
    }

    ghost method TakeAllocate(disk: Disk, records: seq<Record>, table: map<Bytes, nat>, shards: seq<seq<Entry>>,
                      w: nat, entries: seq<Entry>, batch: seq<Write>, deletions: seq<Deletion>, start: nat)
      requires At(disk, records, table, shards)
      requires Works(w, Allocate, entries, batch, deletions) && entries != [] && entries[0].rid < |records|
      requires Range(start, SizeOf(records[entries[0].rid])) <= state.free
      modifies this`state, this`history, this`trace
      ensures At(disk, records, table, shards)
      ensures Works(w, Collect, entries[1..],
                    batch + [Write(entries[0].rid, start, PreparedBlocks(records[entries[0].rid]))], deletions)
      ensures state.free == old(state.free) - Range(start, SizeOf(records[entries[0].rid]))
      ensures trace == old(trace) + [AllocateExtent(w, start)]
    {
      Safe();
      assert LaneOk(state, w) && entries[0] == state.lanes[w].queue[0];
      Take(AllocateExtent(w, start));
    }

    ghost method TakeAbort(disk: Disk, records: seq<Record>, table: map<Bytes, nat>, shards: seq<seq<Entry>>,
                      w: nat, entries: seq<Entry>, batch: seq<Write>, deletions: seq<Deletion>)
      requires At(disk, records, table, shards)
      requires Works(w, Allocate, entries, batch, deletions) && entries != [] && entries[0].rid < |records|
      requires forall start: nat :: !(Range(start, SizeOf(records[entries[0].rid])) <= state.free)
      modifies this`state, this`history, this`trace
      ensures At(disk, records, table, shards) && Works(w, Idle, [], [], [])
      ensures state.free == old(state.free) && trace == old(trace) + [AbortOutOfSpace(w)]
    {
      Safe();
      assert LaneOk(state, w) && entries[0] == state.lanes[w].queue[0];
      AbortShows(state, disk, records, table, shards, w);
      Take(AbortOutOfSpace(w));
    }

    ghost method TakeCollected(disk: Disk, records: seq<Record>, table: map<Bytes, nat>, shards: seq<seq<Entry>>,
                      w: nat, batch: seq<Write>, deletions: seq<Deletion>)
      requires At(disk, records, table, shards)
      requires Works(w, Collect, [], batch, deletions)
      modifies this`state, this`history, this`trace
      ensures At(disk, records, table, shards) && Works(w, Mark, [], batch, deletions)
      ensures state.free == old(state.free) && trace == old(trace) + [CollectDone(w)]
    {
      Safe();
      Take(CollectDone(w));
    }

    ghost method TakeMarker(disk: Disk, records: seq<Record>, table: map<Bytes, nat>, shards: seq<seq<Entry>>,
                      w: nat, batch: seq<Write>, deletions: seq<Deletion>, written: Block)
      requires At(disk, records, table, shards)
      requires Works(w, Mark, [], batch, deletions) && deletions != [] && deletions[0].start < |disk|
      modifies this`state, this`history, this`trace
      ensures At(disk[deletions[0].start := written], records, table, shards) && Works(w, Release, [], batch, deletions)
      ensures state.free == old(state.free) && trace == old(trace) + [WriteMarker(w, written)]
    {
      Safe();
      Take(WriteMarker(w, written));
    }

    ghost method TakeRelease(disk: Disk, records: seq<Record>, table: map<Bytes, nat>, shards: seq<seq<Entry>>,
                      w: nat, batch: seq<Write>, deletions: seq<Deletion>)
      requires At(disk, records, table, shards)
      requires Works(w, Release, [], batch, deletions) && deletions != []
      modifies this`state, this`history, this`trace
      ensures At(disk, records, table, shards) && Works(w, Mark, [], batch, deletions[1..])
      ensures state.free == old(state.free) + Range(deletions[0].start, Freed(deletions[0]))
      ensures trace == old(trace) + [ReleaseDeleted(w)]
    {
      Safe();
      assert LaneOk(state, w) && DeletionOk(state, w, deletions[0]);
      Take(ReleaseDeleted(w));
    }

    ghost method TakeDeletionsDone(disk: Disk, records: seq<Record>, table: map<Bytes, nat>, shards: seq<seq<Entry>>,
                      w: nat, batch: seq<Write>)
      requires At(disk, records, table, shards)
      requires Works(w, Mark, [], batch, [])
      modifies this`state, this`history, this`trace
      ensures At(disk, records, table, shards) && Works(w, if batch == [] then Idle else Attempt(3), [], batch, [])
      ensures state.free == old(state.free) && trace == old(trace) + [DeletionsDone(w)]
    {
      Safe();
      Take(DeletionsDone(w));
    }

    ghost method TakeWritten(disk: Disk, records: seq<Record>, table: map<Bytes, nat>, shards: seq<seq<Entry>>,
                      w: nat, batch: seq<Write>, retries: nat)
      requires At(disk, records, table, shards)
      requires Works(w, Attempt(retries), [], batch, [])
      modifies this`state, this`history, this`trace
      ensures At(WriteAll(disk, batch), records, table, shards) && Works(w, Publish, [], batch, [])
      ensures state.free == old(state.free) && trace == old(trace) + [BatchWritten(w)]
    {
      Safe();
      Take(BatchWritten(w));
    }

    ghost method TakeFailed(disk: Disk, records: seq<Record>, table: map<Bytes, nat>, shards: seq<seq<Entry>>,
                      w: nat, batch: seq<Write>, retries: nat, torn: Disk)
      requires At(disk, records, table, shards)
      requires Works(w, Attempt(retries), [], batch, []) && retries > 0 && |torn| == |disk|
      requires forall i | 0 <= i < |torn| && !InBatch(batch, i) :: torn[i] == disk[i]
      modifies this`state, this`history, this`trace
      ensures At(torn, records, table, shards)
      ensures Works(w, if retries > 1 then Attempt(retries - 1) else Rollback, [], batch, [])
      ensures state.free == old(state.free) && trace == old(trace) + [BatchFailed(w, torn)]
    {
      Safe();
      Take(BatchFailed(w, torn));
    }

    ghost method TakePublish(disk: Disk, records: seq<Record>, table: map<Bytes, nat>, shards: seq<seq<Entry>>,
                      w: nat, batch: seq<Write>)
      requires At(disk, records, table, shards)
      requires Works(w, Publish, [], batch, []) && batch != [] && batch[0].rid < |records|
      modifies this`state, this`history, this`trace
      ensures At(disk, records[batch[0].rid := records[batch[0].rid].(sector := batch[0].start)], table, shards)
      ensures Works(w, Clear, [], batch, [])
      ensures state.free == old(state.free) && trace == old(trace) + [PublishSector(w)]
    {
      Safe();
      assert LaneOk(state, w) && WriteOk(state, w, batch[0]);
      Take(PublishSector(w));
    }

    ghost method TakeClear(disk: Disk, records: seq<Record>, table: map<Bytes, nat>, shards: seq<seq<Entry>>,
                      w: nat, batch: seq<Write>)
      requires At(disk, records, table, shards)
      requires Works(w, Clear, [], batch, []) && batch != [] && batch[0].rid < |records|
      modifies this`state, this`history, this`trace
      ensures At(disk, records[batch[0].rid := records[batch[0].rid].(value := None)], table, shards)
      ensures Works(w, Publish, [], batch[1..], [])
      ensures state.free == old(state.free) && trace == old(trace) + [ClearValue(w)]
    {
      Safe();
      assert LaneOk(state, w);
      Take(ClearValue(w));
    }

    ghost method TakePublished(disk: Disk, records: seq<Record>, table: map<Bytes, nat>, shards: seq<seq<Entry>>,
                      w: nat)
      requires At(disk, records, table, shards)
      requires Works(w, Publish, [], [], [])
      modifies this`state, this`history, this`trace
      ensures At(disk, records, table, shards) && Works(w, Idle, [], [], [])
      ensures state.free == old(state.free) && trace == old(trace) + [PublishDone(w)]
    {
      Safe();
      Take(PublishDone(w));
    }

    ghost method TakeRollback(disk: Disk, records: seq<Record>, table: map<Bytes, nat>, shards: seq<seq<Entry>>,
                      w: nat, batch: seq<Write>)
      requires At(disk, records, table, shards)
      requires Works(w, Rollback, [], batch, []) && batch != []
      modifies this`state, this`history, this`trace
      ensures At(disk, records, table, shards) && Works(w, Rollback, [], batch[1..], [])
      ensures state.free == old(state.free) + Range(batch[0].start, 1) && trace == old(trace) + [RollbackOne(w)]
    {
      Safe();
      assert LaneOk(state, w) && WriteOk(state, w, batch[0]);
      Take(RollbackOne(w));
    }

    ghost method TakeRolledBack(disk: Disk, records: seq<Record>, table: map<Bytes, nat>, shards: seq<seq<Entry>>,
                      w: nat)
      requires At(disk, records, table, shards)
      requires Works(w, Rollback, [], [], [])
      modifies this`state, this`history, this`trace
      ensures At(disk, records, table, shards) && Works(w, Idle, [], [], [])
      ensures state.free == old(state.free) && trace == old(trace) + [RollbackDone(w)]
    {
      Safe();
      Take(RollbackDone(w));
    }

    // ----- collecting

    /** `drain_entries` */
    method DrainEntries(w: nat) returns (entries: seq<Entry>)
      requires Valid() && w < |kv.shards| && state.lanes[w].phase.Idle?
      modifies this`state, this`history, this`trace, kv`shards
      ensures Valid() && OnlyWorker(w, true) && Works(w, Collect, entries, [], [])
      ensures entries == old(kv.shards[w]) && kv.shards == old(kv.shards)[w := []]
    {
      TakeDrain(kv.disk, kv.records, kv.hashTable, kv.shards, w);
      entries := kv.shards[w];
      kv.shards := kv.shards[w := []];
    }

    /** A round of the collecting loop that allocates nothing: a deletion, or a write that is no longer wanted. */
    method NoteEntry(w: nat, entries: seq<Entry>, batch: seq<Write>, deletions: seq<Deletion>)
      returns (listed: seq<Deletion>)
      requires Valid() && entries != [] && Works(w, Collect, entries, batch, deletions)
      requires !WorthWriting(kv.records, entries[0])
      modifies this`state, this`history, this`trace
      ensures Valid() && OnlyWorker(w, true) && Works(w, Collect, entries[1..], batch, listed)
      ensures listed == deletions + Noted(kv.records, entries[0])
    {
      Safe();
      HeadFacts(state, w, Collect, entries, batch, deletions);
      TakeNote(kv.disk, kv.records, kv.hashTable, kv.shards, w, entries, batch, deletions);
      var e := entries[0];
      listed := deletions;
      if e.kind.Delete? {
        var rec := kv.records[e.rid];
        if rec.sector != 0 {
          listed := deletions + [Deletion(e.rid, rec.sector, |rec.key|, e.oldLen)];
        }
      }
    }

    /** Takes an extent for the record of the first entry from the manager. On a full device everything is given up,
        with the extents allocated so far. */
    method Reserve(w: nat, entries: seq<Entry>, batch: seq<Write>, deletions: seq<Deletion>, data: seq<Block>)
      returns (r: Result<nat>)
      requires Valid() && entries != [] && Works(w, Allocate, entries, batch, deletions)
      requires entries[0].rid < |kv.records| && data == PreparedBlocks(kv.records[entries[0].rid])
      modifies this`state, this`history, this`trace, freeSpace
      ensures Valid() && OnlyWorker(w, r.Ok?)
      ensures r.Err? <==> forall start: nat :: !(Range(start, |data|) <= old(freeSpace.Free()))
      ensures r.Ok? ==>
                && Works(w, Collect, entries[1..], batch + [Write(entries[0].rid, r.value, data)], deletions)
                && Range(r.value, |data|) <= old(freeSpace.Free())
                && freeSpace.Free() == old(freeSpace.Free()) - Range(r.value, |data|)
      ensures r.Err? ==>
                && r.error == OutOfSpace && Works(w, Idle, [], [], []) && Ends(AbortOutOfSpace(w))
                && freeSpace.Free() == old(freeSpace.Free())
    {
      r := freeSpace.AllocateSectors(|data|);
      if r.Err? {
        TakeAbort(kv.disk, kv.records, kv.hashTable, kv.shards, w, entries, batch, deletions);
      } else {
        TakeAllocate(kv.disk, kv.records, kv.hashTable, kv.shards, w, entries, batch, deletions, r.value);
      }
    }

    /** A round that prepares a record and reserves its extent. */
    method AllocateEntry(w: nat, entries: seq<Entry>, batch: seq<Write>, deletions: seq<Deletion>)
      returns (r: Result<seq<Write>>)
      requires Valid() && entries != [] && Works(w, Collect, entries, batch, deletions)
      requires WorthWriting(kv.records, entries[0])
      modifies this`state, this`history, this`trace, freeSpace
      ensures Valid() && OnlyWorker(w, r.Ok?)
      ensures var data := PreparedBlocks(kv.records[entries[0].rid]);
        match r
        case Ok(more) =>
          && |more| == |batch| + 1
          && more == batch + [Write(entries[0].rid, more[|batch|].start, data)]
          && Works(w, Collect, entries[1..], more, deletions)
          && Range(more[|batch|].start, |data|) <= old(freeSpace.Free())
          && freeSpace.Free() == old(freeSpace.Free()) - Range(more[|batch|].start, |data|)
        case Err(e) =>
          && e == OutOfSpace && Works(w, Idle, [], [], []) && Ends(AbortOutOfSpace(w))
          && freeSpace.Free() == old(freeSpace.Free())
          && forall start: nat :: !(Range(start, |data|) <= old(freeSpace.Free()))
    {
      TakeChoose(kv.disk, kv.records, kv.hashTable, kv.shards, w, entries, batch, deletions);
      var data := PreparedBlocks(kv.records[entries[0].rid]);
      var sector := Reserve(w, entries, batch, deletions, data);
      match sector
      case Err(e) => return Err(e);
      case Ok(start) => return Ok(batch + [Write(entries[0].rid, start, data)]);
    }

    /** One round of the collecting loop. */
    method CollectEntry(w: nat, entries: seq<Entry>, batch: seq<Write>, deletions: seq<Deletion>)
      returns (r: Result<()>, more: seq<Write>, listed: seq<Deletion>)
      requires Valid() && entries != [] && Works(w, Collect, entries, batch, deletions)
      modifies this`state, this`history, this`trace, freeSpace
      ensures Valid() && OnlyWorker(w, r.Ok?)
      ensures r.Ok? ==> && Works(w, Collect, entries[1..], more, listed)
                        && OneMore(kv.records, entries[0], batch, deletions, more, listed)
      ensures Drawn(old(freeSpace.Free()), freeSpace.Free(), batch, more) && (r.Err? ==> more == batch)
      ensures r.Err? ==> r.error == OutOfSpace && Works(w, Idle, [], [], []) && Ends(AbortOutOfSpace(w))
    {
      Safe();
      HeadFacts(state, w, Collect, entries, batch, deletions);
      var e := entries[0];
      more, listed := batch, deletions;
      if !e.kind.Delete? && kv.records[e.rid].refcount > 0 && kv.records[e.rid].sector == 0 {
        var got := AllocateEntry(w, entries, batch, deletions);
        if got.Err? {
          return Err(got.error), more, listed;
        }
        more := got.value;
        assert Rids(more) == Rids(batch) + [e.rid];
      } else {
        listed := NoteEntry(w, entries, batch, deletions);
      }
      return Ok(()), more, listed;
    }

    /** The collecting loop: the batch is the records worth writing, the deletions are those of records on disk. */
    method CollectEntries(w: nat, drained: seq<Entry>)
      returns (r: Result<()>, batch: seq<Write>, deletions: seq<Deletion>)
      requires Valid() && Works(w, Collect, drained, [], [])
      modifies this`state, this`history, this`trace, freeSpace
      ensures Valid() && OnlyWorker(w, r.Ok?) && freeSpace.Free() == old(freeSpace.Free()) - TakenBy(batch)
      ensures r.Ok? ==> && Works(w, Collect, [], batch, deletions)
                        && Rids(batch) == Wanted(kv.records, drained) && HoldsData(kv.records, batch)
                        && deletions == Doomed(kv.records, drained)
      ensures r.Err? ==> r.error == OutOfSpace && Works(w, Idle, [], [], []) && Ends(AbortOutOfSpace(w))
    {
      var entries := drained;
      batch, deletions := [], [];
      while entries != []
        invariant Valid() && OnlyWorker(w, true) && Works(w, Collect, entries, batch, deletions)
        invariant SoFar(kv.records, drained, entries, batch, deletions)
        invariant freeSpace.Free() == old(freeSpace.Free()) - TakenBy(batch)
        decreases |entries|
      {
        var more, listed;
        ghost var before := trace;
        r, more, listed := CollectEntry(w, entries, batch, deletions);
        ExtendsFurther(old(trace), before, trace, w, true, r.Ok?, r.Ok?);
        DrawnIsTaken(old(freeSpace.Free()), freeSpace.Free(), batch, more);
        if r.Err? {
          return;
        }
        SoFarNext(kv.records, drained, entries, batch, deletions, more, listed);
        batch, deletions, entries := more, listed, entries[1..];
      }
      return Ok(()), batch, deletions;
    }

    // ----- deleting

    /** Writes the marker over the first sector, or whatever a failing write leaves there. */
    method WriteDeletionMarker(device: Device, w: nat, batch: seq<Write>, deletions: seq<Deletion>)
      requires Valid() && deletions != [] && Works(w, Mark, [], batch, deletions)
      modifies this`state, this`history, this`trace, kv`disk
      ensures Valid() && OnlyWorker(w, device.torn(deletions[0].start).None?) && Works(w, Release, [], batch, deletions)
      ensures |trace| == |old(trace)| + 1 && trace[|old(trace)|].WriteMarker?
      ensures freeSpace.Free() == old(freeSpace.Free())
      ensures deletions[0].start < |kv.disk|
      ensures kv.disk == old(kv.disk)[deletions[0].start := kv.disk[deletions[0].start]]
      ensures Marked(device, kv.disk, deletions, 1)
    {
      Safe();
      DeletionFacts(state, w, Mark, batch, deletions);
      var outcome := device.torn(deletions[0].start);
      var written: Block := if outcome.None? then DeletionMarker() else outcome.value;
      TakeMarker(kv.disk, kv.records, kv.hashTable, kv.shards, w, batch, deletions, written);
      kv.disk := kv.disk[deletions[0].start := written];
    }

    /** Gives back what the deletion takes the extent for. */
    method ReleaseDeletion(w: nat, batch: seq<Write>, deletions: seq<Deletion>)
      requires Valid() && deletions != [] && Works(w, Release, [], batch, deletions)
      modifies this`state, this`history, this`trace, freeSpace
      ensures Valid() && OnlyWorker(w, true) && Works(w, Mark, [], batch, deletions[1..])
      ensures trace == old(trace) + [ReleaseDeleted(w)]
      ensures freeSpace.Free() == old(freeSpace.Free()) + Range(deletions[0].start, Freed(deletions[0]))
    {
      var d := deletions[0];
      Safe();
      DeletionFacts(state, w, Release, batch, deletions);
      TakeRelease(kv.disk, kv.records, kv.hashTable, kv.shards, w, batch, deletions);
      var released := freeSpace.ReleaseSectors(d.start, Freed(d));
    }

    /** One deletion: it is marked and then released. */
    method DeleteOne(device: Device, w: nat, batch: seq<Write>, deletions: seq<Deletion>)
      requires Valid() && deletions != [] && Works(w, Mark, [], batch, deletions)
      modifies this`state, this`history, this`trace, kv`disk, freeSpace
      ensures Valid() && Works(w, Mark, [], batch, deletions[1..])
      ensures OnlyWorker(w, device.torn(deletions[0].start).None?)
      ensures Wiped(old(trace), trace, device, old(kv.disk), kv.disk, deletions[..1], 1)
      ensures freeSpace.Free() == old(freeSpace.Free()) + Range(deletions[0].start, Freed(deletions[0]))
    {
      WriteDeletionMarker(device, w, batch, deletions);
      ghost var marked := trace;
      ReleaseDeletion(w, batch, deletions);
      assert deletions[..1][0] == deletions[0];
      ghost var clean := device.torn(deletions[0].start).None?;
      ExtendsFurther(old(trace), marked, trace, w, clean, true, clean);
    }

    /** Carries out the deletions in order: each is marked and then released. */
    method DeleteAll(device: Device, w: nat, batch: seq<Write>, listed: seq<Deletion>)
      requires Valid() && Works(w, Mark, [], batch, listed)
      modifies this`state, this`history, this`trace, kv`disk, freeSpace
      ensures Valid() && OnlyWorker(w, AllMarked(device, listed)) && Works(w, Mark, [], batch, [])
      ensures Wiped(old(trace), trace, device, old(kv.disk), kv.disk, listed, |listed|)
      ensures freeSpace.Free() == old(freeSpace.Free()) + GivenBack(listed)
    {
      var deletions := listed;
      ghost var n, free := 0, freeSpace.Free();
      assert listed[0..] == listed;
      while deletions != []
        invariant Valid() && n <= |listed| && deletions == listed[n..] && Works(w, Mark, [], batch, deletions)
        invariant WipedSoFar(old(trace), trace, w, device, old(kv.disk), kv.disk, free, freeSpace.Free(), listed, n)
        decreases |deletions|
      {
        ghost var steps, disk, between := trace, kv.disk, freeSpace.Free();
        DeleteOne(device, w, batch, deletions);
        WipedFurther(old(trace), steps, trace, w, device, old(kv.disk), disk, kv.disk, free, between, freeSpace.Free(),
                     listed, n);
        deletions, n := deletions[1..], n + 1;
      }
      assert listed[n..] == [];
    }

    // ----- publishing

    /** Stores the sector of the first record of the batch, then drops its value. */
    method PublishOne(w: nat, batch: seq<Write>)
      requires Valid() && batch != [] && Works(w, Publish, [], batch, [])
      modifies this`state, this`history, this`trace, kv`records
      ensures Valid() && OnlyWorker(w, true) && Works(w, Publish, [], batch[1..], [])
      ensures trace == old(trace) + [PublishSector(w), ClearValue(w)] && freeSpace.Free() == old(freeSpace.Free())
      ensures batch[0].rid < |old(kv.records)|
      ensures kv.records == old(kv.records)[batch[0].rid := Offloaded(old(kv.records)[batch[0].rid], batch[0].start)]
    {
      StoreSector(w, batch);
      DropValue(w, batch);
      assert trace == old(trace) + [PublishSector(w), ClearValue(w)];
    }

    method StoreSector(w: nat, batch: seq<Write>)
      requires Valid() && batch != [] && Works(w, Publish, [], batch, [])
      modifies this`state, this`history, this`trace, kv`records
      ensures Valid() && Works(w, Clear, [], batch, []) && trace == old(trace) + [PublishSector(w)]
      ensures batch[0].rid < |old(kv.records)| && freeSpace.Free() == old(freeSpace.Free())
      ensures kv.records == old(kv.records)[batch[0].rid := old(kv.records)[batch[0].rid].(sector := batch[0].start)]
    {
      var r := batch[0].rid;
      Safe();
      WriteFacts(state, w, Publish, batch);
      TakePublish(kv.disk, kv.records, kv.hashTable, kv.shards, w, batch);
      kv.records := kv.records[r := kv.records[r].(sector := batch[0].start)];
    }

    method DropValue(w: nat, batch: seq<Write>)
      requires Valid() && batch != [] && Works(w, Clear, [], batch, []) && batch[0].rid < |kv.records|
      modifies this`state, this`history, this`trace, kv`records
      ensures Valid() && Works(w, Publish, [], batch[1..], []) && trace == old(trace) + [ClearValue(w)]
      ensures freeSpace.Free() == old(freeSpace.Free())
      ensures kv.records == old(kv.records)[batch[0].rid := old(kv.records)[batch[0].rid].(value := None)]
    {
      var r := batch[0].rid;
      TakeClear(kv.disk, kv.records, kv.hashTable, kv.shards, w, batch);
      kv.records := kv.records[r := kv.records[r].(value := None)];
    }

    method PublishAll(w: nat, written: seq<Write>)
      requires Valid() && Works(w, Publish, [], written, [])
      modifies this`state, this`history, this`trace, kv`records
      ensures Valid() && OnlyWorker(w, true) && Works(w, Idle, [], [], []) && Ends(PublishDone(w))
      ensures kv.records == PublishedAll(old(kv.records), written) && freeSpace.Free() == old(freeSpace.Free())
    {
      var batch := written;
      while batch != []
        invariant Valid() && OnlyWorker(w, true) && Works(w, Publish, [], batch, [])
        invariant PublishedAll(kv.records, batch) == PublishedAll(old(kv.records), written)
        invariant freeSpace.Free() == old(freeSpace.Free())
        decreases |batch|
      {
        PublishOne(w, batch);
        batch := batch[1..];
      }
      TakePublished(kv.disk, kv.records, kv.hashTable, kv.shards, w);
    }

    // ----- giving up

    /** Gives back the first sector of the first extent, which always succeeds; the others are lost. */
    method RollbackFirst(w: nat, batch: seq<Write>) returns (r: Result<()>)
      requires Valid() && batch != [] && Works(w, Rollback, [], batch, [])
      modifies this`state, this`history, this`trace, freeSpace
      ensures Valid() && OnlyWorker(w, false) && Works(w, Rollback, [], batch[1..], [])
      ensures trace == old(trace) + [RollbackOne(w)]
      ensures r.Ok? && freeSpace.Free() == old(freeSpace.Free()) + Range(batch[0].start, 1)
    {
      Safe();
      WriteFacts(state, w, Rollback, batch);
      TakeRollback(kv.disk, kv.records, kv.hashTable, kv.shards, w, batch);
      r := freeSpace.ReleaseSectors(batch[0].start, 1);
    }

    method RollbackAll(w: nat, failed: seq<Write>)
      requires Valid() && Works(w, Rollback, [], failed, [])
      modifies this`state, this`history, this`trace, freeSpace
      ensures Valid() && OnlyWorker(w, false) && Works(w, Idle, [], [], []) && Ends(RollbackDone(w))
      ensures freeSpace.Free() == old(freeSpace.Free()) + FirstSectors(failed)
    {
      var batch := failed;
      while batch != []
        invariant Valid() && OnlyWorker(w, false) && Works(w, Rollback, [], batch, [])
        invariant freeSpace.Free() + FirstSectors(batch) == old(freeSpace.Free()) + FirstSectors(failed)
        decreases |batch|
      {
        var released := RollbackFirst(w, batch);
        batch := batch[1..];
      }
      TakeRolledBack(kv.disk, kv.records, kv.hashTable, kv.shards, w);
    }

    // ----- writing

    /** One attempt at writing the batch, which may fail after writing some of it. */
    method AttemptWrite(device: Device, w: nat, batch: seq<Write>, retries: nat) returns (written: bool)
      requires Valid() && Works(w, Attempt(retries), [], batch, []) && retries > 0
      modifies this`state, this`history, this`trace, kv`disk
      ensures Valid() && OnlyWorker(w, true) && freeSpace.Free() == old(freeSpace.Free())
      ensures Works(w, if written then Publish else if retries > 1 then Attempt(retries - 1) else Rollback,
                    [], batch, [])
      ensures |trace| == |old(trace)| + 1
      ensures if written then trace[|old(trace)|] == BatchWritten(w) && Landed(kv.disk, |kv.records|, batch)
              else trace[|old(trace)|].BatchFailed?
      ensures OnlyInBatch(old(kv.disk), kv.disk, batch)
      ensures match device.failed(retries)
              case None => written && kv.disk == WriteAll(old(kv.disk), batch)
              case Some(left) => !written && kv.disk == TornBy(old(kv.disk), left, batch)
    {
      var outcome := device.failed(retries);
      written := outcome.None?;
      if written {
        TakeWritten(kv.disk, kv.records, kv.hashTable, kv.shards, w, batch, retries);
        Safe();
        BatchFacts(state, w, batch);
        WrittenInBatch(kv.disk, batch);
        kv.disk := WriteAll(kv.disk, batch);
      } else {
        var torn := TornBy(kv.disk, outcome.value, batch);
        TakeFailed(kv.disk, kv.records, kv.hashTable, kv.shards, w, batch, retries, torn);
        kv.disk := torn;
      }
    }

    /** The retry loop: at most three attempts, until one succeeds. */
    method Attempts(device: Device, w: nat, batch: seq<Write>) returns (written: bool, ghost failures: nat)
      requires Valid() && Works(w, Attempt(3), [], batch, [])
      modifies this`state, this`history, this`trace, kv`disk
      ensures Valid() && OnlyWorker(w, true) && Works(w, if written then Publish else Rollback, [], batch, [])
      ensures failures == Failures(device) && Tried(old(trace), trace, failures, written) && (written <==> failures < 3)
      ensures written ==> Landed(kv.disk, |kv.records|, batch)
      ensures freeSpace.Free() == old(freeSpace.Free()) && OnlyInBatch(old(kv.disk), kv.disk, batch)
    {
      var retries := 3;
      written, failures := false, 0;
      while retries > 0
        invariant 0 <= retries && failures == 3 - retries && !written && failures <= Failures(device)
        invariant Valid() && freeSpace.Free() == old(freeSpace.Free())
        invariant Works(w, if retries > 0 then Attempt(retries) else Rollback, [], batch, [])
        invariant TriedSoFar(old(trace), trace, w, old(kv.disk), kv.disk, batch, failures, false)
      {
        ghost var before, disk := trace, kv.disk;
        written := AttemptWrite(device, w, batch, retries);
        TriedMore(old(trace), before, trace, w, old(kv.disk), disk, kv.disk, batch, failures, written);
        if written {
          return;
        }
        retries, failures := retries - 1, failures + 1;
      }
    }

    /** The batch is published once it is written; if it cannot be, the first sectors are given back. */
    method WriteBatch(device: Device, w: nat, batch: seq<Write>) returns (r: Result<()>)
      requires Valid() && Works(w, Attempt(3), [], batch, [])
      modifies this`state, this`history, this`trace, kv`disk, kv`records, freeSpace
      ensures Valid() && OnlyWorker(w, r.Ok?) && Works(w, Idle, [], [], [])
      ensures r.Ok? ==>
                && Ends(PublishDone(w)) && Landed(kv.disk, |kv.records|, batch)
                && kv.records == PublishedAll(old(kv.records), batch) && freeSpace.Free() == old(freeSpace.Free())
      ensures r.Err? ==>
                && r.error == IoError && Ends(RollbackDone(w)) && kv.records == old(kv.records)
                && freeSpace.Free() == old(freeSpace.Free()) + FirstSectors(batch)
      ensures OnlyInBatch(old(kv.disk), kv.disk, batch) && (r.Ok? <==> Failures(device) < 3)
    {
      ghost var failures;
      var written;
      written, failures := Attempts(device, w, batch);
      ghost var before := trace;
      if written {
        PublishAll(w, batch);
        r := Ok(());
      } else {
        RollbackAll(w, batch);
        r := Err(IoError);
      }
      ExtendsFurther(old(trace), before, trace, w, true, r.Ok?, r.Ok?);
    }

    /** The loop over the deletions, with the steps before and after it. */
    method Wipe(device: Device, w: nat, batch: seq<Write>, deletions: seq<Deletion>)
      requires Valid() && Works(w, Collect, [], batch, deletions)
      modifies this`state, this`history, this`trace, kv`disk, freeSpace
      ensures Valid() && OnlyWorker(w, AllMarked(device, deletions))
      ensures Works(w, if batch == [] then Idle else Attempt(3), [], batch, [])
      ensures Ends(DeletionsDone(w)) && freeSpace.Free() == old(freeSpace.Free()) + GivenBack(deletions)
      ensures |kv.disk| == |old(kv.disk)| && OnlyMarked(old(kv.disk), kv.disk, deletions)
      ensures Marked(device, kv.disk, deletions, |deletions|)
    {
      TakeCollected(kv.disk, kv.records, kv.hashTable, kv.shards, w, batch, deletions);
      DeleteAll(device, w, batch, deletions);
      ExtendsAround(old(trace), CollectDone(w), trace, DeletionsDone(w), w, AllMarked(device, deletions));
      TakeDeletionsDone(kv.disk, kv.records, kv.hashTable, kv.shards, w, batch);
    }

    /** What follows the collecting loop: first the deletions, then the batch, if there is one. */
    method WriteOut(device: Device, w: nat, batch: seq<Write>, deletions: seq<Deletion>) returns (r: Result<()>)
      requires Valid() && Works(w, Collect, [], batch, deletions)
      modifies this`state, this`history, this`trace, kv`disk, kv`records, freeSpace
      ensures Valid() && OnlyWorker(w, r.Ok? && AllMarked(device, deletions)) && Works(w, Idle, [], [], [])
      ensures r.Ok? ==> && Ends(if batch == [] then DeletionsDone(w) else PublishDone(w))
                        && Landed(kv.disk, |kv.records|, batch) && kv.records == PublishedAll(old(kv.records), batch)
      ensures r.Err? ==> r.error == IoError && Ends(RollbackDone(w)) && kv.records == old(kv.records)
      ensures CarriedOut(r.Ok?, old(freeSpace.Free()), freeSpace.Free(), device, old(kv.disk), kv.disk, deletions,
                         batch)
      ensures r.Ok? <==> batch == [] || Failures(device) < 3
    {
      Wipe(device, w, batch, deletions);
      ghost var before, disk := trace, kv.disk;
      if batch == [] {
        TouchedByBoth(old(kv.disk), disk, disk, deletions, batch);
        StillMarked(device, disk, disk, deletions, batch);
        return Ok(());
      }
      r := WriteBatch(device, w, batch);
      ghost var all := AllMarked(device, deletions);
      ExtendsFurther(old(trace), before, trace, w, all, r.Ok?, r.Ok? && all);
      TouchedByBoth(old(kv.disk), disk, kv.disk, deletions, batch);
      StillMarked(device, disk, kv.disk, deletions, batch);
    }

    /** `process_write_batch` on these entries. */
    method Process(device: Device, w: nat, entries: seq<Entry>) returns (r: Result<()>, ghost batch: seq<Write>)
      requires Valid() && Works(w, Collect, entries, [], [])
      modifies this`state, this`history, this`trace, kv`disk, kv`records, freeSpace
      ensures Valid() && Works(w, Idle, [], [], [])
      ensures OnlyWorker(w, r.Ok? && AllMarked(device, Doomed(old(kv.records), entries)))
      ensures r.Ok? ==> && (Ends(PublishDone(w)) || Ends(DeletionsDone(w)))
                        && Flushed(old(kv.records), kv.records, Wanted(old(kv.records), entries), kv.disk)
      ensures r.Err? ==> && kv.records == old(kv.records)
                         && (if Ends(AbortOutOfSpace(w)) then r.error == OutOfSpace
                             else Ends(RollbackDone(w)) && r.error == IoError)
      ensures if r == Err(OutOfSpace) then
                GivenUp(old(freeSpace.Free()), freeSpace.Free(), old(kv.disk), kv.disk, batch)
              else
                CarriedOut(r.Ok?, old(freeSpace.Free()) - TakenBy(batch), freeSpace.Free(), device,
                           old(kv.disk), kv.disk, Doomed(old(kv.records), entries), batch)
                && (r.Ok? <==> batch == [] || Failures(device) < 3)
    {
      var writes, deletions;
      r, writes, deletions := CollectEntries(w, entries);
      batch := writes;
      if r.Err? {
        return;
      }
      ghost var collected := trace;
      r := WriteOut(device, w, writes, deletions);
      ghost var clean := r.Ok? && AllMarked(device, deletions);
      ExtendsFurther(old(trace), collected, trace, w, true, clean, clean);
      if r.Ok? {
        PublishedIsFlushed(old(kv.records), batch, entries, kv.disk);
      }
    }

    /** A worker takes the entries of shard `w` and processes them. Whatever fails, it is a run of steps of this worker
        and ends with the worker idle. If it succeeds, exactly the records worth writing have gone to disk; if it fails,
        none has. If the device is full, the deletions are forgotten; otherwise they are carried out. */
    method ProcessWriteBatch(device: Device, w: nat) returns (r: Result<()>, ghost batch: seq<Write>)
      requires Valid() && w < |kv.shards| && state.lanes[w].phase.Idle?
      modifies this`state, this`history, this`trace, kv`disk, kv`records, kv`shards, freeSpace
      ensures Valid() && Works(w, Idle, [], [], [])
      ensures OnlyWorker(w, r.Ok? && AllMarked(device, Doomed(old(kv.records), old(kv.shards[w]))))
      ensures kv.shards == old(kv.shards)[w := []]
      ensures r.Ok? ==> && (Ends(PublishDone(w)) || Ends(DeletionsDone(w)))
                        && Flushed(old(kv.records), kv.records, Wanted(old(kv.records), old(kv.shards[w])), kv.disk)
      ensures r.Err? ==> && kv.records == old(kv.records)
                         && (if Ends(AbortOutOfSpace(w)) then r.error == OutOfSpace
                             else Ends(RollbackDone(w)) && r.error == IoError)
      ensures if r == Err(OutOfSpace) then
                GivenUp(old(freeSpace.Free()), freeSpace.Free(), old(kv.disk), kv.disk, batch)
              else
                CarriedOut(r.Ok?, old(freeSpace.Free()) - TakenBy(batch), freeSpace.Free(), device,
                           old(kv.disk), kv.disk, Doomed(old(kv.records), old(kv.shards[w])), batch)
                && (r.Ok? <==> batch == [] || Failures(device) < 3)
    {
      var entries := DrainEntries(w);
      ghost var drained := trace;
      r, batch := Process(device, w, entries);
      ghost var clean := r.Ok? && AllMarked(device, Doomed(old(kv.records), entries));
      ExtendsFurther(old(trace), drained, trace, w, true, clean, clean);
    }

    /** A flush leaves the versions that the table leads to. */
    method FlushShard(device: Device, w: nat, ghost m: Versions.Model) returns (r: Result<()>)
      requires Valid() && w < |kv.shards| && state.lanes[w].phase.Idle? && Indexes(kv.disk, kv.records, kv.hashTable, m)
      modifies this`state, this`history, this`trace, kv`disk, kv`records, kv`shards, freeSpace
      ensures Valid() && Works(w, Idle, [], [], []) && Indexes(kv.disk, kv.records, kv.hashTable, m)
      ensures OnlyWorker(w, r.Ok? && AllMarked(device, Doomed(old(kv.records), old(kv.shards[w]))))
      ensures kv.shards == old(kv.shards)[w := []]
      ensures r.Ok? ==> Flushed(old(kv.records), kv.records, Wanted(old(kv.records), old(kv.shards[w])), kv.disk)
      ensures r.Err? ==> kv.records == old(kv.records)
    {
      ghost var states, steps := history, trace;
      ghost var disk, records, shards := kv.disk, kv.records, kv.shards;
      ghost var batch;
      r, batch := ProcessWriteBatch(device, w);
      ghost var clean := r.Ok? && AllMarked(device, Doomed(records, old(kv.shards[w])));
      WorkerKeepsIndexes(states, steps, history, trace, w, clean, disk, records, kv.hashTable, shards, kv.disk,
                         kv.records, kv.shards, m);
    }
  }
}
