/** The write-behind protocol of src/storage/write_buffer.rs as a state machine: client operations, which are atomic,
    interleave with the small steps of one worker per shard. */
module WriteBehind {
  import opened Base
  import opened Format

  datatype Kind = Insert | Update | Delete

  /** `WriteEntry`. Records are shared, so an entry names one by its index. */
  datatype Entry = Entry(kind: Kind, rid: nat, oldLen: nat)

  /** Consecutive sectors. */
  datatype Extent = Extent(start: nat, count: nat)

  /** How far an entry for a record has come: never queued; queued in shard `w` or drained by its worker; in the batch
      or the deletions of worker `w`; dealt with. */
  datatype Progress = Nowhere | Pending(w: nat) | Listed(w: nat) | Done

  /** A record with its history: the extent allocated to it and not released yet, and how far its write (`put`) and
      its deletion (`del`) have come. */
  datatype Slot = Slot(rec: Record, extent: Option<Extent>, put: Progress, del: Progress)

  /** An element of `batch_writes` and `records_to_clear`. */
  datatype Write = Write(rid: nat, start: nat, data: seq<Block>)

  /** An element of `delete_operations`. */
  datatype Deletion = Deletion(rid: nat, start: nat, keyLen: nat, oldLen: nat)

  /** The sectors it gives back. */
  function Freed(d: Deletion): nat {
    SectorsReleased(d.keyLen, d.oldLen)
  }

  /** Where a worker is in `process_write_batch`. In `Allocate` it has found its first entry worth writing, in `Release`
      it has written the deletion marker, in `Clear` it has stored the sector. */
  datatype Phase = Idle | Collect | Allocate | Mark | Release | Attempt(retries: nat) | Publish | Clear | Rollback

  /** A shard and the worker that drains it. Of the queue, the first `drained` entries are in the worker's hands. */
  datatype Lane = Lane(queue: seq<Entry>, drained: nat, phase: Phase, batch: seq<Write>, deletions: seq<Deletion>)

  datatype State = State(slots: seq<Slot>, table: map<Bytes, nat>, lanes: seq<Lane>, free: set<nat>, disk: Disk)

  datatype Step =
    | ClientPut(key: Bytes, value: Bytes, timestamp: nat, expiry: nat, shard: nat)
    | ClientDelete(key: Bytes, timestamp: nat, shard: nat)
    | Sweep(key: Bytes, shard: nat)
    | SetExpiry(key: Bytes, expiry: nat)
    | Drain(w: nat)
    | CheckEntry(w: nat)
    | AllocateExtent(w: nat, start: nat)
    | AbortOutOfSpace(w: nat)
    | CollectDone(w: nat)
    | WriteMarker(w: nat, written: Block)
    | ReleaseDeleted(w: nat)
    | DeletionsDone(w: nat)
    | BatchWritten(w: nat)
    | BatchFailed(w: nat, torn: Disk)
    | PublishSector(w: nat)
    | ClearValue(w: nat)
    | PublishDone(w: nat)
    | RollbackOne(w: nat)
    | RollbackDone(w: nat)

  function SizeOf(r: Record): nat {
    SectorsNeeded(|r.key|, r.valueLen)
  }

  // ----- writing sectors

  /** `data` written from sector `start` on. */
  function WriteAt(disk: Disk, start: nat, data: seq<Block>): (d: Disk)
    ensures |d| == |disk|
  {
    seq(|disk|, (i: nat) requires i < |disk| => if start <= i < start + |data| then data[i - start] else disk[i])
  }

  function WriteAll(disk: Disk, batch: seq<Write>): (d: Disk)
    ensures |d| == |disk|
    decreases batch
  {
    if batch == [] then disk else WriteAll(WriteAt(disk, batch[0].start, batch[0].data), batch[1..])
  }

  /** Sector `i` is one the batch writes to. */
  predicate InBatch(batch: seq<Write>, i: nat) {
    exists j :: 0 <= j < |batch| && batch[j].start <= i < batch[j].start + |batch[j].data|
  }

  /** The batch writes record `r`. */
  ghost predicate InWrites(b: seq<Write>, r: nat) {
    exists i :: 0 <= i < |b| && b[i].rid == r
  }

  /** An entry for record `r` is queued, which asks for its deletion or for its write. */
  ghost predicate InQueue(q: seq<Entry>, r: nat, deletion: bool) {
    exists i :: 0 <= i < |q| && q[i].rid == r && q[i].kind.Delete? == deletion
  }

  ghost predicate InDeletions(d: seq<Deletion>, r: nat) {
    exists i :: 0 <= i < |d| && d[i].rid == r
  }

  /** Record `r` holds its key. */
  ghost predicate InTable(s: State, r: nat)
    requires r < |s.slots|
  {
    s.slots[r].rec.key in s.table && s.table[s.slots[r].rec.key] == r
  }

  // ----- the invariant

  /** What holds of record `r` alone. */
  ghost predicate SlotOk(s: State, r: nat)
    requires r < |s.slots|
  {
    var x := s.slots[r];
    && (x.rec.value.Some? ==> |x.rec.value.value| == x.rec.valueLen)
    && (x.rec.sector == 0 ==> x.rec.value.Some?)
    && (x.extent.Some? ==>
          && x.extent.value.count == SizeOf(x.rec)
          && 16 <= x.extent.value.start && x.extent.value.start + x.extent.value.count <= |s.disk|
          && Range(x.extent.value.start, x.extent.value.count) !! s.free
          && (x.rec.sector != 0 ==> x.rec.sector == x.extent.value.start))
    && (x.put.Pending? ==> x.rec.sector == 0 && x.extent.None?)
    && (x.del.Listed? ==> x.rec.sector != 0)
    && (x.del.Nowhere? || x.del.Pending? ==> x.rec.sector != 0 ==> x.extent.Some?)
    && (x.del.Nowhere? && x.rec.sector != 0 && x.rec.value.Some? ==> ValueOnDisk(s, r))
  }

  /** A published value that is still in memory is the one on disk. */
  ghost predicate ValueOnDisk(s: State, r: nat)
    requires r < |s.slots| && s.slots[r].rec.value.Some?
  {
    LoadValue(s.disk, true, s.slots[r].rec) == Ok(s.slots[r].rec.value.value)
  }

  /** The extents of two records have no sector in common. */
  ghost predicate Apart(a: Option<Extent>, b: Option<Extent>) {
    a.Some? && b.Some? ==>
      a.value.start + a.value.count <= b.value.start || b.value.start + b.value.count <= a.value.start
  }

  ghost predicate TableOk(s: State, k: Bytes)
    requires k in s.table
  {
    var r := s.table[k];
    r < |s.slots| && s.slots[r].rec.key == k && s.slots[r].del == Nowhere && s.slots[r].rec.refcount == 1
  }

  ghost predicate EntryOk(s: State, w: nat, e: Entry) {
    && e.rid < |s.slots|
    && (if e.kind.Delete? then s.slots[e.rid].del == Pending(w) && e.oldLen <= s.slots[e.rid].rec.valueLen
        else s.slots[e.rid].put == Pending(w))
  }

  /** An element of the batch whose sector has not been published. */
  ghost predicate WriteOk(s: State, w: nat, x: Write) {
    && x.rid < |s.slots|
    && var slot := s.slots[x.rid];
    && slot.put == Listed(w)
    && slot.extent == Some(Extent(x.start, |x.data|))
    && |x.data| == SizeOf(slot.rec)
    && slot.rec.sector == 0
    && slot.rec.value == Some(ValueIn(x.data, |slot.rec.key|, slot.rec.valueLen))
  }

  /** The batch has been written and not overwritten. */
  ghost predicate OnDisk(s: State, x: Write) {
    x.start + |x.data| <= |s.disk| && s.disk[x.start..x.start + |x.data|] == x.data
  }

  ghost predicate DeletionOk(s: State, w: nat, d: Deletion) {
    && d.rid < |s.slots|
    && var slot := s.slots[d.rid];
    && slot.del == Listed(w)
    && slot.extent.Some? && slot.extent.value.start == d.start && 1 <= Freed(d) <= slot.extent.value.count
    && d.keyLen == |slot.rec.key| && d.oldLen <= slot.rec.valueLen
    && slot.rec.sector == d.start
  }

  ghost predicate SameTarget(a: Entry, b: Entry) {
    a.rid == b.rid && (a.kind.Delete? <==> b.kind.Delete?)
  }

  ghost predicate PhaseOk(l: Lane) {
    && l.drained <= |l.queue|
    && (l.phase.Idle? ==> l.drained == 0 && l.batch == [] && l.deletions == [])
    && (l.phase.Allocate? ==> l.drained > 0 && !l.queue[0].kind.Delete?)
    && (l.phase.Mark? || l.phase.Release? ==> l.drained == 0)
    && (l.phase.Release? ==> l.deletions != [])
    && (l.phase.Attempt? ==> l.batch != [] && l.phase.retries >= 1)
    && (l.phase.Clear? ==> l.batch != [])
    && (l.phase.Attempt? || l.phase.Publish? || l.phase.Clear? || l.phase.Rollback? ==>
          l.drained == 0 && l.deletions == [])
  }

  /** How many elements at the front of the batch have been published and not cleared. */
  function Published(l: Lane): nat {
    if l.phase.Clear? then 1 else 0
  }

  ghost predicate QueueOk(s: State, w: nat)
    requires w < |s.lanes|
  {
    var q := s.lanes[w].queue;
    && (forall i | 0 <= i < |q| :: EntryOk(s, w, q[i]))
    && (forall i, j {:trigger SameTarget(q[i], q[j])} | 0 <= i < j < |q| :: !SameTarget(q[i], q[j]))
  }

  ghost predicate BatchOk(s: State, w: nat)
    requires w < |s.lanes| && PhaseOk(s.lanes[w])
  {
    var l := s.lanes[w];
    && (forall i | Published(l) <= i < |l.batch| :: WriteOk(s, w, l.batch[i]))
    && (forall i, j | 0 <= i < j < |l.batch| :: l.batch[i].rid != l.batch[j].rid)
    && (l.phase.Publish? || l.phase.Clear? ==> forall i | Published(l) <= i < |l.batch| :: OnDisk(s, l.batch[i]))
    && (l.phase.Clear? ==>
          && l.batch[0].rid < |s.slots|
          && s.slots[l.batch[0].rid].put == Listed(w)
          && s.slots[l.batch[0].rid].rec.sector != 0)
  }

  ghost predicate DeletionsOk(s: State, w: nat)
    requires w < |s.lanes|
  {
    var d := s.lanes[w].deletions;
    && (forall i | 0 <= i < |d| :: DeletionOk(s, w, d[i]))
    && (forall i, j | 0 <= i < j < |d| :: d[i].rid != d[j].rid)
  }

  ghost predicate LaneOk(s: State, w: nat)
    requires w < |s.lanes|
  {
    PhaseOk(s.lanes[w]) && QueueOk(s, w) && BatchOk(s, w) && DeletionsOk(s, w)
  }

  ghost predicate ExtentsApart(s: State) {
    forall r, q {:trigger Apart(s.slots[r].extent, s.slots[q].extent)} | 0 <= r < q < |s.slots| ::
      Apart(s.slots[r].extent, s.slots[q].extent)
  }

  ghost predicate FreeInRange(s: State) {
    forall i | i in s.free :: 16 <= i < |s.disk|
  }

  /** What every step keeps. */
  ghost predicate Inv(s: State) {
    && FreeInRange(s)
    && (forall r | 0 <= r < |s.slots| :: SlotOk(s, r))
    && ExtentsApart(s)
    && (forall k | k in s.table :: TableOk(s, k))
    && (forall w | 0 <= w < |s.lanes| :: LaneOk(s, w))
  }

  // ----- reading

  /** The value as `get` finds it: in memory, or else on disk. */
  function ValueOf(disk: Disk, r: Record): Result<Bytes> {
    if r.value.Some? then Ok(r.value.value) else LoadValue(disk, true, r)
  }

  /** What the store holds, read through the record of every key. */
  ghost function Contents(s: State): map<Bytes, Result<Bytes>>
    requires Inv(s)
  {
    map k | k in s.table :: (assert TableOk(s, k); ValueOf(s.disk, s.slots[s.table[k]].rec))
  }

  // ----- steps

  function SetLane(s: State, w: nat, l: Lane): State
    requires w < |s.lanes|
  {
    s.(lanes := s.lanes[w := l])
  }

  function SetSlot(s: State, r: nat, x: Slot): State
    requires r < |s.slots|
  {
    s.(slots := s.slots[r := x])
  }

  /** The lane without the entry that was just dealt with. */
  function Pop(l: Lane): Lane
    requires 0 < l.drained <= |l.queue|
  {
    l.(queue := l.queue[1..], drained := l.drained - 1)
  }

  function NewRecord(key: Bytes, value: Bytes, timestamp: nat, expiry: nat): Record {
    Record(key, Some(value), |value|, timestamp, expiry, 0, 1)
  }

  ghost predicate Enabled(s: State, step: Step) {
    match step
    case ClientPut(key, value, timestamp, expiry, i) =>
      && i < |s.lanes|
      && 1 <= |key| <= MAX_KEY_SIZE && 1 <= |value| <= MAX_VALUE_SIZE
      && timestamp < TWO_TO_THE_64 && expiry < TWO_TO_THE_64
      && (key in s.table && s.table[key] < |s.slots| ==> timestamp >= s.slots[s.table[key]].rec.timestamp)
    case ClientDelete(key, timestamp, i) =>
      i < |s.lanes| && key in s.table && s.table[key] < |s.slots| && timestamp >= s.slots[s.table[key]].rec.timestamp
    case Sweep(key, i) =>
      i < |s.lanes| && key in s.table && s.table[key] < |s.slots| && s.slots[s.table[key]].rec.expiry > 0
    case SetExpiry(key, expiry) =>
      key in s.table && expiry < TWO_TO_THE_64
    case Drain(w) =>
      w < |s.lanes| && s.lanes[w].phase.Idle?
    case CheckEntry(w) =>
      w < |s.lanes| && s.lanes[w].phase.Collect? && s.lanes[w].drained > 0
    case AllocateExtent(w, start) =>
      && w < |s.lanes| && s.lanes[w].phase.Allocate? && s.lanes[w].queue != []
      && s.lanes[w].queue[0].rid < |s.slots|
      && Range(start, SizeOf(s.slots[s.lanes[w].queue[0].rid].rec)) <= s.free
    case AbortOutOfSpace(w) =>
      && w < |s.lanes| && s.lanes[w].phase.Allocate? && s.lanes[w].queue != []
      && s.lanes[w].queue[0].rid < |s.slots|
      && forall start: nat :: !(Range(start, SizeOf(s.slots[s.lanes[w].queue[0].rid].rec)) <= s.free)
    case CollectDone(w) =>
      w < |s.lanes| && s.lanes[w].phase.Collect? && s.lanes[w].drained == 0
    case WriteMarker(w, _) =>
      w < |s.lanes| && s.lanes[w].phase.Mark? && s.lanes[w].deletions != []
    case ReleaseDeleted(w) =>
      w < |s.lanes| && s.lanes[w].phase.Release?
    case DeletionsDone(w) =>
      w < |s.lanes| && s.lanes[w].phase.Mark? && s.lanes[w].deletions == []
    case BatchWritten(w) =>
      w < |s.lanes| && s.lanes[w].phase.Attempt?
    case BatchFailed(w, torn) =>
      && w < |s.lanes| && s.lanes[w].phase.Attempt?
      && |torn| == |s.disk|
      && forall i | 0 <= i < |torn| && !InBatch(s.lanes[w].batch, i) :: torn[i] == s.disk[i]
    case PublishSector(w) =>
      w < |s.lanes| && s.lanes[w].phase.Publish? && s.lanes[w].batch != []
    case ClearValue(w) =>
      w < |s.lanes| && s.lanes[w].phase.Clear?
    case PublishDone(w) =>
      w < |s.lanes| && s.lanes[w].phase.Publish? && s.lanes[w].batch == []
    case RollbackOne(w) =>
      w < |s.lanes| && s.lanes[w].phase.Rollback? && s.lanes[w].batch != []
    case RollbackDone(w) =>
      w < |s.lanes| && s.lanes[w].phase.Rollback? && s.lanes[w].batch == []
  }

  /** `insert_with_timestamp_and_ttl_internal` and `update_record_with_ttl`: a new record takes the key; a record it
      supersedes is queued for deletion right behind it. */
  ghost function Put(s: State, key: Bytes, rec: Record, i: nat): State
    requires Inv(s) && i < |s.lanes|
  {
    var n, l := |s.slots|, s.lanes[i];
    var added := Slot(rec, None, Pending(i), Nowhere);
    if key in s.table then
      assert TableOk(s, key);
      var prior := s.table[key];
      var oldLen := s.slots[prior].rec.valueLen;
      s.(slots := s.slots[prior := s.slots[prior].(del := Pending(i))] + [added],
         table := s.table[key := n],
         lanes := s.lanes[i := l.(queue := l.queue + [Entry(Update, n, oldLen), Entry(Delete, prior, oldLen)])])
    else
      s.(slots := s.slots + [added],
         table := s.table[key := n],
         lanes := s.lanes[i := l.(queue := l.queue + [Entry(Insert, n, 0)])])
  }

  /** Takes a key out of the table and, if `queued`, hands its record to the shard for deletion. */
  ghost function Remove(s: State, key: Bytes, refcount: nat, oldLen: nat, queued: bool, i: nat): State
    requires Inv(s) && i < |s.lanes| && key in s.table
  {
    assert TableOk(s, key);
    var prior, l := s.table[key], s.lanes[i];
    var x := s.slots[prior];
    var gone := x.(rec := x.rec.(refcount := refcount));
    s.(slots := s.slots[prior := if queued then gone.(del := Pending(i)) else gone],
       table := s.table - {key},
       lanes := if queued then s.lanes[i := l.(queue := l.queue + [Entry(Delete, prior, oldLen)])] else s.lanes)
  }

  /** One round of the collecting loop, up to the allocation. */
  ghost function Checked(s: State, w: nat): State
    requires Inv(s) && Enabled(s, CheckEntry(w))
  {
    assert LaneOk(s, w);
    var l := s.lanes[w];
    var e := l.queue[0];
    assert EntryOk(s, w, e);
    var x := s.slots[e.rid];
    if e.kind.Delete? then
      if x.rec.sector != 0 then
        var d := Deletion(e.rid, x.rec.sector, |x.rec.key|, e.oldLen);
        SetSlot(SetLane(s, w, Pop(l).(deletions := l.deletions + [d])), e.rid, x.(del := Listed(w)))
      else
        SetSlot(SetLane(s, w, Pop(l)), e.rid, x.(del := Done))
    else if x.rec.refcount > 0 && x.rec.sector == 0 then
      SetLane(s, w, l.(phase := Allocate))
    else
      SetSlot(SetLane(s, w, Pop(l)), e.rid, x.(put := Done))
  }

  ghost function Allocated(s: State, w: nat, start: nat): State
    requires Inv(s) && Enabled(s, AllocateExtent(w, start))
  {
    assert LaneOk(s, w);
    var l := s.lanes[w];
    var rid := l.queue[0].rid;
    var x := s.slots[rid];
    var n := SizeOf(x.rec);
    SetSlot(SetLane(s, w, Pop(l).(phase := Collect, batch := l.batch + [Write(rid, start, PreparedBlocks(x.rec))])),
            rid, x.(extent := Some(Extent(start, n)), put := Listed(w))).(free := s.free - Range(start, n))
  }

  /** Records of a batch that is given up: nobody will write to their extents any more. */
  ghost function Abandoned(slots: seq<Slot>, batch: seq<Write>): (r: seq<Slot>)
    ensures |r| == |slots|
  {
    seq(|slots|, (i: nat) requires i < |slots| =>
      if InWrites(batch, i) then slots[i].(extent := None, put := Done) else slots[i])
  }

  /** The device is full: what the worker holds is dropped, and the extents it has allocated with it. */
  ghost function Aborted(s: State, w: nat): State
    requires Inv(s) && Enabled(s, AbortOutOfSpace(w))
  {
    assert LaneOk(s, w);
    SetLane(s.(slots := Abandoned(s.slots, s.lanes[w].batch)), w,
            Lane(s.lanes[w].queue[s.lanes[w].drained..], 0, Idle, [], []))
  }

  ghost function Released(s: State, w: nat): State
    requires Inv(s) && Enabled(s, ReleaseDeleted(w))
  {
    assert LaneOk(s, w);
    var l := s.lanes[w];
    var d := l.deletions[0];
    assert DeletionOk(s, w, d);
    SetSlot(SetLane(s, w, l.(deletions := l.deletions[1..], phase := Mark)),
            d.rid, s.slots[d.rid].(extent := None, del := Done)).(free := s.free + Range(d.start, Freed(d)))
  }

  ghost function SectorPublished(s: State, w: nat): State
    requires Inv(s) && Enabled(s, PublishSector(w))
  {
    assert LaneOk(s, w);
    var l := s.lanes[w];
    var x := l.batch[0];
    assert WriteOk(s, w, x);
    var slot := s.slots[x.rid];
    SetSlot(SetLane(s, w, l.(phase := Clear)), x.rid, slot.(rec := slot.rec.(sector := x.start)))
  }

  ghost function ValueCleared(s: State, w: nat): State
    requires Inv(s) && Enabled(s, ClearValue(w))
  {
    assert LaneOk(s, w);
    var l := s.lanes[w];
    var slot := s.slots[l.batch[0].rid];
    SetSlot(SetLane(s, w, l.(phase := Publish, batch := l.batch[1..])),
            l.batch[0].rid, slot.(rec := slot.rec.(value := None), put := Done))
  }

  /** After three failed attempts only the first sector of each extent is released. */
  ghost function RolledBack(s: State, w: nat): State
    requires Inv(s) && Enabled(s, RollbackOne(w))
  {
    assert LaneOk(s, w);
    var l := s.lanes[w];
    var x := l.batch[0];
    assert WriteOk(s, w, x);
    SetSlot(SetLane(s, w, l.(batch := l.batch[1..])),
            x.rid, s.slots[x.rid].(extent := None, put := Done)).(free := s.free + Range(x.start, 1))
  }

  ghost function Next(s: State, step: Step): (t: State)
    requires Inv(s) && Enabled(s, step)
    ensures |t.disk| == |s.disk|
  {
    match step
    case ClientPut(key, value, timestamp, expiry, i) =>
      Put(s, key, NewRecord(key, value, timestamp, expiry), i)
    case ClientDelete(key, _, i) =>
      Remove(s, key, 0, s.slots[s.table[key]].rec.valueLen, true, i)
    case Sweep(key, i) =>
      assert TableOk(s, key);
      var rec := s.slots[s.table[key]].rec;
      Remove(s, key, rec.refcount, 0, rec.sector > 0, i)
    case SetExpiry(key, expiry) =>
      assert TableOk(s, key);
      var x := s.slots[s.table[key]];
      SetSlot(s, s.table[key], x.(rec := x.rec.(expiry := expiry)))
    case Drain(w) =>
      SetLane(s, w, s.lanes[w].(phase := Collect, drained := |s.lanes[w].queue|))
    case CheckEntry(w) => Checked(s, w)
    case AllocateExtent(w, start) => Allocated(s, w, start)
    case AbortOutOfSpace(w) => Aborted(s, w)
    case CollectDone(w) =>
      SetLane(s, w, s.lanes[w].(phase := Mark))
    case WriteMarker(w, written) =>
      assert LaneOk(s, w) && DeletionOk(s, w, s.lanes[w].deletions[0]);
      assert SlotOk(s, s.lanes[w].deletions[0].rid);
      SetLane(s, w, s.lanes[w].(phase := Release)).(disk := s.disk[s.lanes[w].deletions[0].start := written])
    case ReleaseDeleted(w) => Released(s, w)
    case DeletionsDone(w) =>
      SetLane(s, w, s.lanes[w].(phase := if s.lanes[w].batch == [] then Idle else Attempt(3)))
    case BatchWritten(w) =>
      SetLane(s, w, s.lanes[w].(phase := Publish)).(disk := WriteAll(s.disk, s.lanes[w].batch))
    case BatchFailed(w, torn) =>
      var left := s.lanes[w].phase.retries - 1;
      SetLane(s, w, s.lanes[w].(phase := if left > 0 then Attempt(left) else Rollback)).(disk := torn)
    case PublishSector(w) => SectorPublished(s, w)
    case ClearValue(w) => ValueCleared(s, w)
    case PublishDone(w) =>
      SetLane(s, w, s.lanes[w].(phase := Idle))
    case RollbackOne(w) => RolledBack(s, w)
    case RollbackDone(w) =>
      SetLane(s, w, s.lanes[w].(phase := Idle))
  }
}
