/** One session of the real store from end to end: a client's operation, a flush by the real worker, and a restart. */
module Session {
  import opened Base
  import opened Format
  import opened FreeSpace
  import opened WriteBehind
  import opened Safety
  import opened Versions
  import opened Tables
  import opened Store
  import opened Batch
  import opened Running
  import opened Recovering
  import Scan
  import Restart
  import RestartTheorem
  import Reopen

  // ----- what a worker leaves alone

  lemma OtherLanesStay(s: State, step: Step, v: nat)
    requires Inv(s) && Enabled(s, step) && WorkerStep(step) && v != step.w
    ensures |Next(s, step).lanes| == |s.lanes| && (v < |s.lanes| ==> Next(s, step).lanes[v] == s.lanes[v])
  {
    assert LaneOk(s, step.w);
  }

  lemma {:induction false} LanesStay(states: seq<State>, steps: seq<Step>, n: nat, w: nat, v: nat)
    requires History(states, steps) && n <= |steps| && v != w
    requires forall i | n <= i < |steps| :: WorkerStep(steps[i]) && steps[i].w == w
    ensures |states[|steps|].lanes| == |states[n].lanes|
    ensures v < |states[n].lanes| ==> states[|steps|].lanes[v] == states[n].lanes[v]
    decreases |steps| - n
  {
    if n < |steps| {
      assert Follows(states, steps, n);
      OtherLanesStay(states[n], steps[n], v);
      LanesStay(states, steps, n + 1, w, v);
    }
  }

  /** Every shard but this one is empty and its worker idle; so is this one's worker. */
  ghost predicate OnlyShard(s: State, w: nat) {
    && w < |s.lanes| && s.lanes[w].phase.Idle?
    && forall v | 0 <= v < |s.lanes| && v != w :: s.lanes[v].queue == [] && s.lanes[v].phase.Idle?
  }

  /** A worker that empties the last shard leaves a drained store. */
  lemma DrainedAfter(states: seq<State>, steps: seq<Step>, later: seq<State>, more: seq<Step>, w: nat, clean: bool)
    requires History(states, steps) && History(later, more) && states[0] == later[0] && Extends(steps, more, w, clean)
    requires OnlyShard(states[|steps|], w) && w < |later[|more|].lanes|
    requires later[|more|].lanes[w].phase.Idle? && later[|more|].lanes[w].queue == []
    ensures RestartTheorem.Drained(later[|more|])
  {
    SameHistory(states, steps, later, more, |steps|);
    assert forall i | |steps| <= i < |more| :: StepOf(more[i], w, clean);
    var s, t := states[|steps|], later[|more|];
    forall v | 0 <= v < |t.lanes|
      ensures t.lanes[v].queue == [] && t.lanes[v].phase.Idle?
    {
      if v != w {
        LanesStay(later, more, |steps|, w, v);
      }
    }
  }

  // ----- flushing

  /** The store has been good so far, and only this shard holds anything. */
  ghost predicate Ready(system: System, shard: nat)
    reads system, system.kv, system.kv.cache, system.buffer, system.buffer.freeSpace
  {
    && system.Valid() && RestartTheorem.CleanStart(system.buffer.origin)
    && RestartTheorem.GoodRun(system.buffer.origin, system.buffer.trace) && OnlyShard(system.buffer.state, shard)
  }

  /** And after a flush nothing at all is under way. */
  ghost predicate AtRest(system: System)
    reads system, system.kv, system.kv.cache, system.buffer, system.buffer.freeSpace
  {
    && system.Valid() && RestartTheorem.CleanStart(system.buffer.origin)
    && RestartTheorem.GoodRun(system.buffer.origin, system.buffer.trace) && RestartTheorem.Drained(system.buffer.state)
  }

  /** What a worker has done keeps the run good. */
  lemma GoodAfter(states: seq<State>, steps: seq<Step>, later: seq<State>, more: seq<Step>, w: nat)
    requires History(states, steps) && History(later, more) && states[0] == later[0] && Extends(steps, more, w, true)
    requires RestartTheorem.GoodRun(states[0], steps)
    ensures RestartTheorem.GoodRun(states[0], more)
  {
    HistoryIsRun(later, more);
    forall i | |steps| <= i < |more|
      ensures Restart.CleanStep(more[i]) && !more[i].ClientPut? && !more[i].ClientDelete?
    {
      assert StepOf(more[i], w, true);
    }
    RestartTheorem.GoodRunWorks(states[0], steps, more);
  }

  /** The device takes every write. */
  const SOUND: Device := Device((_: nat) => None, (_: nat) => None)

  lemma SoundMarks(deletions: seq<Deletion>)
    ensures AllMarked(SOUND, deletions)
  {
  }

  /** An idle worker whose shard is empty has nothing queued. */
  lemma NothingQueued(s: State, disk: Disk, records: seq<Record>, table: map<Bytes, nat>, shards: seq<seq<Entry>>,
                      w: nat)
    requires Inv(s) && Shows(s, disk, records, table, shards) && w < |shards| && shards[w] == []
    requires s.lanes[w].phase.Idle?
    ensures s.lanes[w].queue == []
  {
    assert LaneOk(s, w) && Waits(s.lanes[w], shards[w]);
  }

  /** What is known after a flush of the last shard. */
  lemma Rested(states: seq<State>, steps: seq<Step>, later: seq<State>, more: seq<Step>, w: nat, disk: Disk,
               records: seq<Record>, table: map<Bytes, nat>, shards: seq<seq<Entry>>)
    requires History(states, steps) && History(later, more) && states[0] == later[0] && Extends(steps, more, w, true)
    requires RestartTheorem.GoodRun(states[0], steps) && OnlyShard(states[|steps|], w)
    requires Shows(later[|more|], disk, records, table, shards) && w < |shards| && shards[w] == []
    requires later[|more|].lanes[w].phase.Idle?
    ensures RestartTheorem.GoodRun(states[0], more) && RestartTheorem.Drained(later[|more|])
  {
    assert SafeAt(later, |more|);
    GoodAfter(states, steps, later, more, w);
    NothingQueued(later[|more|], disk, records, table, shards, w);
    DrainedAfter(states, steps, later, more, w, true);
  }

  /** A flush of the last shard by the real worker, with a device that takes every write: unless there is no room,
      nothing is under way any more, and a restart will be exact. */
  method FlushLast(system: System, shard: nat) returns (r: Result<()>)
    requires Ready(system, shard)
    modifies system.buffer`state, system.buffer`history, system.buffer`trace, system.kv`disk, system.kv`records,
             system.kv`shards, system.buffer.freeSpace
    ensures system.Valid() && system.kv.model == old(system.kv.model)
    ensures r.Ok? ==> AtRest(system)
  {
    ghost var states, steps := system.buffer.history, system.buffer.trace;
    SoundMarks(Doomed(system.kv.records, system.kv.shards[shard]));
    r := system.Flush(SOUND, shard);
    if r.Ok? {
      Rested(states, steps, system.buffer.history, system.buffer.trace, shard, system.kv.disk, system.kv.records,
             system.kv.hashTable, system.kv.shards);
    }
  }

  // ----- clients

  /** In a store at rest every record of the table is on disk, so no client's step catches one on its way. */
  lemma DisciplinedAtRest(origin: State, steps: seq<Step>, s: State, step: Step)
    requires RestartTheorem.CleanStart(origin) && RestartTheorem.GoodRun(origin, steps)
    requires s == Final(origin, steps) && RestartTheorem.Drained(s)
    ensures RestartTheorem.Disciplined(s, step)
  {
    if (step.ClientPut? || step.ClientDelete?) && step.key in s.table {
      var v := Scan.ViewOf(s.disk, {});
      RestartTheorem.RestartFrom(origin, steps);
      RestartTheorem.LiveIsFlushed(s, v, step.key);
      RestartTheorem.SettledSlot(s, v, s.table[step.key]);
    }
  }

  lemma ClientLanes(s: State, step: Step)
    requires Inv(s) && Enabled(s, step) && (step.ClientPut? || step.ClientDelete?) && RestartTheorem.Drained(s)
    ensures OnlyShard(Next(s, step), step.shard)
  {
    assert step.key in s.table ==> TableOk(s, step.key);
  }

  /** A clean step of a client leaves a store that was at rest with one shard to flush. */
  lemma ReadyAfter(states: seq<State>, steps: seq<Step>, later: seq<State>, more: seq<Step>, step: Step)
    requires History(states, steps) && History(later, more) && states[0] == later[0] && more == steps + [step]
    requires RestartTheorem.CleanStart(states[0]) && RestartTheorem.GoodRun(states[0], steps)
    requires RestartTheorem.Drained(states[|steps|])
    requires (step.ClientPut? || step.ClientDelete?) && Restart.CleanStep(step)
    ensures RestartTheorem.GoodRun(states[0], more) && OnlyShard(later[|more|], step.shard)
  {
    var n := |steps|;
    HistoryIsRun(states, steps);
    SameHistory(states, steps, later, more, n);
    assert Follows(later, more, n);
    DisciplinedAtRest(states[0], steps, states[n], step);
    RestartTheorem.GoodRunStep(states[0], steps, step);
    ClientLanes(states[n], step);
  }

  /** A put of a record that fits one sector. */
  method PutOne(system: System, key: Bytes, value: Bytes, timestamp: nat, shard: nat) returns (r: Result<bool>)
    requires AtRest(system) && shard < |system.kv.shards| && 0 < timestamp < TWO_TO_THE_64
    requires 1 <= |key| && 1 <= |value| && 30 + |key| + |value| <= 4096
    modifies system.buffer`state, system.buffer`history, system.buffer`trace, system.kv, system.kv.cache
    ensures system.Valid() && (r.Err? ==> system.kv.model == old(system.kv.model))
    ensures r.Ok? ==> Ready(system, shard)
    ensures r.Ok? ==> system.kv.model == old(system.kv.model)[key := Version(value, timestamp, 0)]
  {
    ghost var states, steps := system.buffer.history, system.buffer.trace;
    Restart.OneSectorIsRecoverable(key, value, timestamp);
    r := system.Put(key, value, Some(timestamp), 0, 0, shard);
    if r.Ok? {
      assert ExpiryOf(timestamp, 0, system.kv.enableTtl) == 0;
      var step := ClientPut(key, value, timestamp, 0, shard);
      assert system.buffer.trace == steps + [step];
      assert Restart.CleanStep(step);
      ReadyAfter(states, steps, system.buffer.history, system.buffer.trace, step);
    }
  }

  method DeleteOne(system: System, key: Bytes, timestamp: nat, shard: nat) returns (r: Result<()>)
    requires AtRest(system) && shard < |system.kv.shards| && 0 < timestamp
    modifies system.buffer`state, system.buffer`history, system.buffer`trace, system.kv, system.kv.cache
    ensures system.Valid() && (r.Err? ==> system.kv.model == old(system.kv.model))
    ensures r.Ok? ==> Ready(system, shard)
    ensures r.Ok? ==> system.kv.model == old(system.kv.model) - {key}
  {
    ghost var states, steps := system.buffer.history, system.buffer.trace;
    r := TakeAway(system, key, timestamp, shard);
    if r.Ok? {
      ReadyAfter(states, steps, system.buffer.history, system.buffer.trace, ClientDelete(key, timestamp, shard));
    }
  }

  method TakeAway(system: System, key: Bytes, timestamp: nat, shard: nat) returns (r: Result<()>)
    requires system.Valid() && shard < |system.kv.shards| && 0 < timestamp
    modifies system.buffer`state, system.buffer`history, system.buffer`trace, system.kv, system.kv.cache
    ensures system.Valid() && (r.Err? ==> system.kv.model == old(system.kv.model))
    ensures r.Ok? ==> system.buffer.trace == old(system.buffer.trace) + [ClientDelete(key, timestamp, shard)]
    ensures r.Ok? ==> system.kv.model == old(system.kv.model) - {key}
  {
    r := system.Delete(key, Some(timestamp), 0, shard);
  }

  // ----- from end to end

  /** A store at rest is closed and opened again, with a manager of its own. */
  method OpenAgain(system: System, clock: nat -> nat, enableCaching: bool, enableTtl: bool, maxMemory: Option<nat>,
                   numShards: nat)
    returns (next: System)
    requires AtRest(system) && numShards > 0
    ensures fresh(next) && AtRest(next) && next.kv.model == system.kv.model
  {
    var manager := NewManager(system.buffer.freeSpace.persistenceSize);
    next := Recovering.Restart(system, clock, manager, enableCaching, enableTtl, maxMemory, numShards);
    RestedStart(system.buffer.state, numShards);
  }

  /** A manager that holds nothing yet. */
  method NewManager(size: nat) returns (manager: FreeSpaceManager)
    ensures fresh(manager) && manager.Valid() && manager.byStart == map[] && manager.persistenceSize == size
  {
    manager := new FreeSpaceManager();
    manager.SetPersistenceSize(size);
  }

  lemma RestedStart(t: State, shards: nat)
    requires RestartTheorem.CleanStart(Reopen.Restarted(t, shards))
    ensures RestartTheorem.GoodRun(Reopen.Restarted(t, shards), [])
    ensures RestartTheorem.Drained(Reopen.Restarted(t, shards))
  {
  }

  /** What was stored and flushed is there after a restart. */
  method StoredSurvives(system: System, key: Bytes, value: Bytes, timestamp: nat, shard: nat, clock: nat -> nat,
                        numShards: nat)
    returns (stored: Result<bool>, flushed: Result<()>, next: System)
    requires AtRest(system) && shard < |system.kv.shards| && 0 < timestamp < TWO_TO_THE_64 && numShards > 0
    requires 1 <= |key| && 1 <= |value| && 30 + |key| + |value| <= 4096
    modifies system.buffer`state, system.buffer`history, system.buffer`trace, system.kv, system.kv.cache,
             system.buffer.freeSpace
    ensures stored.Ok? && flushed.Ok? ==>
              AtRest(next) && next.kv.model == old(system.kv.model)[key := Version(value, timestamp, 0)]
  {
    next, flushed := system, Ok(());
    stored := PutOne(system, key, value, timestamp, shard);
    if stored.Ok? {
      flushed := FlushLast(system, shard);
      if flushed.Ok? {
        next := OpenAgain(system, clock, true, false, None, numShards);
      }
    }
  }

  /** What was deleted and flushed stays deleted after a restart. */
  method DeletedStaysDeleted(system: System, key: Bytes, timestamp: nat, shard: nat, clock: nat -> nat, numShards: nat)
    returns (deleted: Result<()>, flushed: Result<()>, next: System)
    requires AtRest(system) && shard < |system.kv.shards| && 0 < timestamp && numShards > 0
    modifies system.buffer`state, system.buffer`history, system.buffer`trace, system.kv, system.kv.cache,
             system.buffer.freeSpace
    ensures deleted.Ok? && flushed.Ok? ==> AtRest(next) && next.kv.model == old(system.kv.model) - {key}
  {
    next, flushed := system, Ok(());
    deleted := DeleteOne(system, key, timestamp, shard);
    if deleted.Ok? {
      flushed := FlushLast(system, shard);
      if flushed.Ok? {
        next := OpenAgain(system, clock, true, false, None, numShards);
      }
    }
  }
}
