/** What a restart hands to the next run: the state that recovery builds is again one that every step keeps safe. */
module Reopen {
  import opened Base
  import opened WriteBehind
  import opened Safety
  import opened Layouts
  import opened Scan
  import opened Recovery
  import opened Restart
  import opened RestartTheorem

  /** A record that was found on disk. */
  function Recovered(f: Found): Slot {
    Slot(ToRecord(f), Some(Extent(f.sector, ExtentSize(f.header))), Done, Nowhere)
  }

  /** The protocol state after recovery. */
  ghost function RecoveredState(found: seq<Found>, disk: Disk, shards: nat): State {
    State(seq(|found|, (i: nat) requires i < |found| => Recovered(found[i])), Positions(found),
          seq(shards, (_: nat) => Lane([], 0, Idle, [], [])), Complement(OccupiedBy(found), |disk|), disk)
  }

  /** Every record found lies in the data area and on the device. */
  ghost predicate OnDevice(found: seq<Found>, disk: Disk) {
    forall f: Found | f in found :: 16 <= f.sector && f.sector + ExtentSize(f.header) <= |disk|
  }

  lemma RecoveredSlotOk(found: seq<Found>, disk: Disk, shards: nat, r: nat)
    requires OnDevice(found, disk) && r < |found|
    ensures SlotOk(RecoveredState(found, disk, shards), r)
  {
    var f := found[r];
    assert f in found;
    forall i | i in Range(f.sector, ExtentSize(f.header))
      ensures i in OccupiedBy(found)
    {
      OccupiedMembers(found, i);
    }
  }

  lemma RecoveredTableOk(found: seq<Found>, disk: Disk, shards: nat, k: Bytes)
    ensures var s := RecoveredState(found, disk, shards);
      && (k in s.table <==> k in IndexOf(found))
      && (k in s.table ==> TableOk(s, k) && s.slots[s.table[k]].rec == IndexOf(found)[k])
  {
    PositionsMatchIndex(found, k);
  }

  lemma RecoveredLaneOk(found: seq<Found>, disk: Disk, shards: nat, w: nat)
    requires w < shards
    ensures LaneOk(RecoveredState(found, disk, shards), w)
  {
  }

  /** Recovery builds a safe state. */
  lemma RecoveredIsSafe(found: seq<Found>, disk: Disk, shards: nat)
    requires Ascending(found) && OnDevice(found, disk)
    ensures Inv(RecoveredState(found, disk, shards))
  {
    var s := RecoveredState(found, disk, shards);
    forall r | 0 <= r < |s.slots|
      ensures SlotOk(s, r)
    {
      RecoveredSlotOk(found, disk, shards, r);
    }
    forall k | k in s.table
      ensures TableOk(s, k)
    {
      RecoveredTableOk(found, disk, shards, k);
    }
    forall w | 0 <= w < |s.lanes|
      ensures LaneOk(s, w)
    {
      RecoveredLaneOk(found, disk, shards, w);
    }
    forall a, b | 0 <= a < b < |s.slots|
      ensures Apart(s.slots[a].extent, s.slots[b].extent)
    {
      assert found[a].sector + ExtentSize(found[a].header) <= found[b].sector;
    }
  }

  /** It reads as the rebuilt index does. */
  lemma RecoveredContents(found: seq<Found>, disk: Disk, shards: nat)
    requires Inv(RecoveredState(found, disk, shards))
    ensures Contents(RecoveredState(found, disk, shards)) == ReadBack(disk, IndexOf(found))
  {
    var s := RecoveredState(found, disk, shards);
    forall k
      ensures k in Contents(s) <==> k in ReadBack(disk, IndexOf(found))
      ensures k in Contents(s) ==> Contents(s)[k] == ReadBack(disk, IndexOf(found))[k]
    {
      RecoveredTableOk(found, disk, shards, k);
    }
  }

  /** What recovery takes over from a device. */
  ghost function Live(disk: Disk, unreadable: set<nat>, enableTtl: bool, clock: nat -> nat): seq<Found> {
    Unexpired(Headers(ViewOf(disk, unreadable), 1), enableTtl, clock)
  }

  /** Whatever is on the device, and whatever of it cannot be read or has expired: if recovery takes over no record in
      the metadata area or past the end, every run that follows is safe and reads as the rebuilt index would, changed
      only by the clients. */
  lemma RunsAfterRecovery(disk: Disk, unreadable: set<nat>, enableTtl: bool, clock: nat -> nat, shards: nat,
                          steps: seq<Step>)
    requires OnDevice(Live(disk, unreadable, enableTtl, clock), disk)
    ensures var live := Live(disk, unreadable, enableTtl, clock);
      var s := RecoveredState(live, disk, shards);
      Inv(s) && (IsRun(s, steps) ==>
        Inv(Final(s, steps)) && Contents(Final(s, steps)) == SpecFinal(ReadBack(disk, IndexOf(live)), steps))
  {
    var live := Live(disk, unreadable, enableTtl, clock);
    HeadersAscend(ViewOf(disk, unreadable), 1);
    UnexpiredAscends(Headers(ViewOf(disk, unreadable), 1), enableTtl, clock);
    RecoveredIsSafe(live, disk, shards);
    RecoveredContents(live, disk, shards);
    var s := RecoveredState(live, disk, shards);
    if IsRun(s, steps) {
      RunsRefineMap(s, steps);
    }
  }

  // ----- one session after another

  /** The state that a restart makes of the disk of another. */
  ghost function Restarted(t: State, shards: nat): State {
    RecoveredState(Headers(ViewOf(t.disk, {}), 1), t.disk, shards)
  }

  lemma {:induction false} PositionsAreOwn(found: seq<Found>, i: nat)
    requires DistinctKeys(found) && i < |found|
    ensures found[i].header.key in Positions(found) && Positions(found)[found[i].header.key] == i
  {
    var n := |found| - 1;
    if i < n {
      assert found[..n][i] == found[i];
      assert DistinctKeys(found[..n]) by {
        assert forall j | 0 <= j < n :: found[..n][j] == found[j];
      }
      PositionsAreOwn(found[..n], i);
    }
  }

  /** The extent of a record found, in the state it was written in. */
  lemma FoundSlot(t: State, v: View, i: nat) returns (r: nat)
    requires Settled(t, v) && i < |Headers(v, 1)|
    ensures HasExtent(t, r) && Headers(v, 1)[i] == FoundOf(t.slots[r])
    ensures CleanRecord(t.slots[r]) && ExtentSeen(t, v, r) && Announced(t, r)
    ensures t.slots[r].extent.value == Extent(t.slots[r].rec.sector, SizeOf(t.slots[r].rec))
    ensures 16 <= t.slots[r].rec.sector && t.slots[r].rec.sector + SizeOf(t.slots[r].rec) <= |t.disk|
  {
    ScanFindsExtents(t, v);
    assert Headers(v, 1)[i] in Headers(v, 1);
    r :| HasExtent(t, r) && Headers(v, 1)[i] == FoundOf(t.slots[r]);
    SettledSlot(t, v, r);
    assert CleanRecord(t.slots[r]) && ExtentSeen(t, v, r);
  }

  lemma RestartedSlot(t: State, v: View, shards: nat, i: nat)
    requires Settled(t, v) && v == ViewOf(t.disk, {}) && i < |Headers(v, 1)|
    ensures var u := Restarted(t, shards);
      CleanRecord(u.slots[i]) && Present(u, i) && ExtentSeen(u, v, i)
  {
    var r := FoundSlot(t, v, i);
    var u := Restarted(t, shards);
    assert Announced(u, i);
  }

  /** No sector is lost in a restart. */
  lemma RestartedLosesNothing(t: State, v: View, shards: nat)
    requires Settled(t, v) && v == ViewOf(t.disk, {})
    ensures NothingLost(Restarted(t, shards), v)
  {
    var u, found := Restarted(t, shards), Headers(v, 1);
    FreeListSurvives(t, v);
    forall i | 16 <= i < |u.disk|
      ensures i in u.free || Owned(u, i)
    {
      if i !in u.free {
        OccupiedMembers(found, i);
        var f: Found :| f in found && f.sector <= i < f.sector + ExtentSize(f.header);
        var r :| 0 <= r < |found| && found[r] == f;
        assert Owns(u, r, i);
      }
    }
  }

  /** A restart leads from a clean end to a clean start. */
  lemma RestartedIsClean(t: State, shards: nat)
    requires Settled(t, ViewOf(t.disk, {})) && Tidy(t)
    ensures CleanStart(Restarted(t, shards))
  {
    var u, v := Restarted(t, shards), ViewOf(t.disk, {});
    var found := Headers(v, 1);
    HeadersAscend(v, 1);
    FoundKeysDiffer(t, v);
    forall i | 0 <= i < |found|
      ensures 16 <= found[i].sector && found[i].sector + ExtentSize(found[i].header) <= |t.disk|
    {
      var r := FoundSlot(t, v, i);
    }
    RecoveredIsSafe(found, t.disk, shards);
    forall i | 0 <= i < |u.slots|
      ensures CleanRecord(u.slots[i]) && Present(u, i) && ExtentSeen(u, v, i) && TidySlot(u, i)
    {
      RestartedSlot(t, v, shards, i);
      PositionsAreOwn(found, i);
    }
    RestartedLosesNothing(t, v, shards);
  }

  /** The steps of one session, and the number of shards that the next one has. */
  datatype Session = Session(steps: seq<Step>, nextShards: nat)

  /** Sessions from state `s` on, each a good run that ends drained, with a restart after each. */
  ghost predicate GoodSessions(s: State, sessions: seq<Session>)
    decreases sessions
  {
    sessions == [] ||
    (GoodRun(s, sessions[0].steps) && Drained(Final(s, sessions[0].steps))
     && GoodSessions(Restarted(Final(s, sessions[0].steps), sessions[0].nextShards), sessions[1..]))
  }

  ghost function AfterSessions(s: State, sessions: seq<Session>): State
    requires GoodSessions(s, sessions)
    decreases sessions
  {
    if sessions == [] then s
    else AfterSessions(Restarted(Final(s, sessions[0].steps), sessions[0].nextShards), sessions[1..])
  }

  /** What the clients have stored in all sessions together. */
  ghost function SpecSessions(c: map<Bytes, Result<Bytes>>, sessions: seq<Session>): map<Bytes, Result<Bytes>>
    decreases sessions
  {
    if sessions == [] then c else SpecSessions(SpecFinal(c, sessions[0].steps), sessions[1..])
  }

  lemma RestartReads(s: State, steps: seq<Step>, shards: nat)
    requires CleanStart(s) && GoodRun(s, steps) && Drained(Final(s, steps))
    ensures var u := Restarted(Final(s, steps), shards);
      CleanStart(u) && Contents(u) == SpecFinal(Contents(s), steps) && u.free == Final(s, steps).free
  {
    var t := Final(s, steps);
    RestartFrom(s, steps);
    RestartedIsClean(t, shards);
    RecoveredContents(Headers(ViewOf(t.disk, {}), 1), t.disk, shards);
  }

  /** Restarts are invisible: any number of good sessions, with a restart after each, and a last run of any kind read as
      one run without restarts. */
  lemma {:induction false} RestartsAreInvisible(s: State, sessions: seq<Session>, more: seq<Step>)
    requires CleanStart(s) && GoodSessions(s, sessions)
    ensures var u := AfterSessions(s, sessions);
      && CleanStart(u) && Contents(u) == SpecSessions(Contents(s), sessions)
      && (IsRun(u, more) ==>
          Inv(Final(u, more)) && Contents(Final(u, more)) == SpecFinal(SpecSessions(Contents(s), sessions), more))
    decreases sessions
  {
    if sessions == [] {
      if IsRun(s, more) {
        RunsRefineMap(s, more);
      }
    } else {
      RestartReads(s, sessions[0].steps, sessions[0].nextShards);
      RestartsAreInvisible(Restarted(Final(s, sessions[0].steps), sessions[0].nextShards), sessions[1..], more);
    }
  }

  /** In particular from a blank device. */
  lemma SessionsFromBlank(s: State, sessions: seq<Session>)
    requires Init(s) && Blank(s) && Inv(s) && GoodSessions(s, sessions)
    ensures CleanStart(AfterSessions(s, sessions))
    ensures Contents(AfterSessions(s, sessions)) == SpecSessions(map[], sessions)
  {
    BlankIsClean(s);
    InitIsSafe(s);
    RestartsAreInvisible(s, sessions, []);
  }
}
