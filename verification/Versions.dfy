/** What the store means to its clients: a map of versioned values, and the timestamp rule that decides which write
    wins (src/core/operations.rs). */
module Versions {
  import opened Base
  import opened Format

  datatype Version = Version(value: Bytes, timestamp: nat, expiry: nat)

  type Model = map<Bytes, Version>

  /** A write whose timestamp has been settled. */
  datatype Write = Write(key: Bytes, version: Version)

  /** A write loses against a greater timestamp; on a tie the later write wins. */
  function Apply(m: Model, w: Write): Model {
    if w.key in m && w.version.timestamp < m[w.key].timestamp then m else m[w.key := w.version]
  }

  function ApplyAll(m: Model, ws: seq<Write>): Model {
    if ws == [] then m else Apply(ApplyAll(m, ws[..|ws| - 1]), ws[|ws| - 1])
  }

  /** The write is one of the latest for its key. */
  ghost predicate Newest(ws: seq<Write>, w: Write) {
    w in ws && forall x | x in ws && x.key == w.key :: x.version.timestamp <= w.version.timestamp
  }

  /** What every order of the writes gives: the keys written, each with one of the newest versions. */
  lemma {:induction false} NewestWins(ws: seq<Write>)
    ensures forall k :: k in ApplyAll(map[], ws) <==> exists w :: w in ws && w.key == k
    ensures forall k | k in ApplyAll(map[], ws) :: Newest(ws, Write(k, ApplyAll(map[], ws)[k]))
  {
    if ws != [] {
      var front, last := ws[..|ws| - 1], ws[|ws| - 1];
      NewestWins(front);
      var m := ApplyAll(map[], front);
      assert forall x :: x in ws <==> x in front || x == last;
      forall k | k in ApplyAll(map[], ws)
        ensures Newest(ws, Write(k, ApplyAll(map[], ws)[k]))
      {
        if k in m {
          assert Newest(front, Write(k, m[k]));
        }
      }
    }
  }

  /** Applied last, one of the newest writes decides. */
  lemma {:induction false} NewestLast(ws: seq<Write>, w: Write) returns (moved: seq<Write>)
    requires Newest(ws, w)
    ensures multiset(moved) == multiset(ws)
    ensures w.key in ApplyAll(map[], moved) && ApplyAll(map[], moved)[w.key] == w.version
  {
    var i :| 0 <= i < |ws| && ws[i] == w;
    var rest := ws[..i] + ws[i + 1..];
    moved := rest + [w];
    assert ws == ws[..i] + [w] + ws[i + 1..];
    assert moved[..|moved| - 1] == rest;
    NewestWins(rest);
    var m := ApplyAll(map[], rest);
    if w.key in m {
      assert Newest(rest, Write(w.key, m[w.key]));
    }
  }

  /** The newest writes of each key agree on what they write. */
  ghost predicate NewestAgree(ws: seq<Write>) {
    forall v, w | Newest(ws, v) && Newest(ws, w) && v.key == w.key :: v == w
  }

  lemma {:induction false} SameMembers(us: seq<Write>, ws: seq<Write>)
    requires multiset(us) == multiset(ws)
    ensures forall w :: w in us <==> w in ws
    ensures forall w :: Newest(us, w) <==> Newest(ws, w)
  {
    forall w
      ensures w in us <==> w in ws
    {
      assert w in us <==> w in multiset(us);
      assert w in ws <==> w in multiset(ws);
    }
  }

  /** Last-writer-wins converges: all orders of a collection of writes give the same table, exactly when the newest
      writes of each key agree. */
  lemma {:induction false} Convergence(ws: seq<Write>)
    ensures NewestAgree(ws) <==> forall us | multiset(us) == multiset(ws) :: ApplyAll(map[], us) == ApplyAll(map[], ws)
  {
    if NewestAgree(ws) {
      forall us | multiset(us) == multiset(ws)
        ensures ApplyAll(map[], us) == ApplyAll(map[], ws)
      {
        SameTable(us, ws);
      }
    } else {
      var v, w :| Newest(ws, v) && Newest(ws, w) && v.key == w.key && v != w;
      OrdersDisagree(ws, v, w);
    }
  }

  lemma {:induction false} SameTable(us: seq<Write>, ws: seq<Write>)
    requires multiset(us) == multiset(ws) && NewestAgree(ws)
    ensures ApplyAll(map[], us) == ApplyAll(map[], ws)
  {
    SameMembers(us, ws);
    NewestWins(us);
    NewestWins(ws);
    var m, n := ApplyAll(map[], us), ApplyAll(map[], ws);
    forall k
      ensures k in m <==> k in n
      ensures k in m && k in n ==> m[k] == n[k]
    {
      if k in m && k in n {
        assert Newest(us, Write(k, m[k])) && Newest(ws, Write(k, n[k]));
      }
    }
    assert m == n;
  }

  lemma {:induction false} OrdersDisagree(ws: seq<Write>, v: Write, w: Write)
    requires Newest(ws, v) && Newest(ws, w) && v.key == w.key && v != w
    ensures exists us :: multiset(us) == multiset(ws) && ApplyAll(map[], us) != ApplyAll(map[], ws)
  {
    var us := NewestLast(ws, v);
    var vs := NewestLast(ws, w);
    assert ApplyAll(map[], us)[v.key] != ApplyAll(map[], vs)[v.key];
  }

  /** In particular they do if no two writes of a key carry the same timestamp. */
  lemma {:induction false} DistinctTimestampsConverge(us: seq<Write>, ws: seq<Write>)
    requires multiset(us) == multiset(ws)
    requires forall i, j | 0 <= i < j < |ws| && ws[i].key == ws[j].key ::
               ws[i].version.timestamp != ws[j].version.timestamp
    ensures ApplyAll(map[], us) == ApplyAll(map[], ws)
    ensures forall w | w in ws :: w.key in ApplyAll(map[], us) &&
              ApplyAll(map[], us)[w.key].timestamp >= w.version.timestamp
  {
    assert NewestAgree(ws) by {
      forall v, w | Newest(ws, v) && Newest(ws, w) && v.key == w.key
        ensures v == w
      {
        var i :| 0 <= i < |ws| && ws[i] == v;
        var j :| 0 <= j < |ws| && ws[j] == w;
        assert v.version.timestamp == w.version.timestamp;
      }
    }
    SameTable(us, ws);
    NewestWins(ws);
    forall w | w in ws
      ensures w.key in ApplyAll(map[], us) && ApplyAll(map[], us)[w.key].timestamp >= w.version.timestamp
    {
      assert w.key in ApplyAll(map[], ws);
      assert Newest(ws, Write(w.key, ApplyAll(map[], ws)[w.key]));
    }
  }

  // ----- memory

  /** Memory of the records of a table. */
  ghost function Footprint(m: Model): nat
    decreases |m.Keys|
  {
    if m.Keys == {} then 0
    else
      var k :| k in m.Keys;
      assert (m - {k}).Keys == m.Keys - {k};
      RecordSize(|k|, |m[k].value|) + Footprint(m - {k})
  }

  lemma KeysRemoved(m: Model, k: Bytes)
    requires k in m
    ensures (m - {k}).Keys == m.Keys - {k} && |(m - {k}).Keys| == |m.Keys| - 1
  {
  }

  lemma KeysAdded(m: Model, k: Bytes, v: Version)
    requires k !in m
    ensures m[k := v].Keys == m.Keys + {k} && |m[k := v].Keys| == |m.Keys| + 1
  {
  }

  lemma RemovedTwice(m: Model, j: Bytes, k: Bytes)
    ensures m - {j} - {k} == m - {k} - {j}
  {
  }

  lemma {:induction false} FootprintRemove(m: Model, k: Bytes)
    requires k in m
    ensures Footprint(m) == RecordSize(|k|, |m[k].value|) + Footprint(m - {k})
    decreases |m.Keys|
  {
    KeysRemoved(m, k);
    var j: Bytes :| j in m.Keys && Footprint(m) == RecordSize(|j|, |m[j].value|) + Footprint(m - {j});
    if j != k {
      KeysRemoved(m, j);
      FootprintRemove(m - {j}, k);
      FootprintRemove(m - {k}, j);
      RemovedTwice(m, j, k);
    }
  }

  lemma {:induction false} FootprintPut(m: Model, k: Bytes, v: Version)
    ensures Footprint(m[k := v]) ==
            Footprint(m) + RecordSize(|k|, |v.value|) - if k in m then RecordSize(|k|, |m[k].value|) else 0
  {
    FootprintRemove(m[k := v], k);
    assert m[k := v] - {k} == m - {k};
    if k in m {
      FootprintRemove(m, k);
    } else {
      assert m - {k} == m;
    }
  }

  function Values(m: Model): map<Bytes, Bytes> {
    map k | k in m :: m[k].value
  }

  /** Every key and value counts with its bytes, and every record with 120 more. */
  lemma {:induction false} FootprintIsPayload(m: Model)
    ensures Footprint(m) == Payload(Values(m)) + 120 * |m.Keys|
    decreases |m.Keys|
  {
    if m.Keys != {} {
      var k :| k in m.Keys;
      KeysRemoved(m, k);
      FootprintRemove(m, k);
      PayloadRemove(Values(m), k);
      assert Values(m - {k}) == Values(m) - {k};
      FootprintIsPayload(m - {k});
    } else {
      assert Values(m).Keys == {};
    }
  }
}
