/** The order of the tree: byte strings compared lexicographically, as Rust compares `Vec<u8>`. */
module Order {
  import opened Base

  predicate Leq(a: Bytes, b: Bytes) {
    a == [] || (b != [] && (a[0] < b[0] || (a[0] == b[0] && Leq(a[1..], b[1..]))))
  }

  predicate Less(a: Bytes, b: Bytes) {
    Leq(a, b) && a != b
  }

  lemma {:induction false} Total(a: Bytes, b: Bytes)
    ensures Leq(a, b) || Leq(b, a)
  {
    if a != [] && b != [] && a[0] == b[0] {
      Total(a[1..], b[1..]);
    }
  }

  lemma {:induction false} Transitive(a: Bytes, b: Bytes, c: Bytes)
    requires Leq(a, b) && Leq(b, c)
    ensures Leq(a, c)
  {
    if a != [] && a[0] == b[0] == c[0] {
      Transitive(a[1..], b[1..], c[1..]);
    }
  }

  lemma {:induction false} Antisymmetric(a: Bytes, b: Bytes)
    requires Leq(a, b) && Leq(b, a)
    ensures a == b
  {
    if a != [] && b != [] {
      Antisymmetric(a[1..], b[1..]);
      assert a == [a[0]] + a[1..] && b == [b[0]] + b[1..];
    }
  }

  // ----- lexicographic order

  /** The strings differ at `i` for the first time, and there `a` has the smaller byte. */
  ghost predicate SmallerAt(a: Bytes, b: Bytes, i: nat) {
    i < |a| && i < |b| && a[..i] == b[..i] && a[i] < b[i]
  }

  /** `a` is a prefix of `b`, or has the smaller byte where they first differ. */
  ghost predicate Lexicographic(a: Bytes, b: Bytes) {
    a <= b || exists i: nat :: SmallerAt(a, b, i)
  }

  lemma SmallerShifts(a: Bytes, b: Bytes, i: nat)
    requires a != [] && b != [] && a[0] == b[0]
    ensures SmallerAt(a, b, i + 1) <==> SmallerAt(a[1..], b[1..], i)
  {
    if i < |a| - 1 && i < |b| - 1 {
      assert a[..i + 1] == [a[0]] + a[1..][..i] && b[..i + 1] == [b[0]] + b[1..][..i];
      assert a[..i + 1] == b[..i + 1] <==> a[1..][..i] == b[1..][..i] by {
        assert a[..i + 1][1..] == a[1..][..i] && b[..i + 1][1..] == b[1..][..i];
      }
    }
  }

  lemma LexicographicTail(a: Bytes, b: Bytes)
    requires a != [] && b != [] && a[0] == b[0]
    ensures Lexicographic(a, b) <==> Lexicographic(a[1..], b[1..])
  {
    assert a <= b <==> a[1..] <= b[1..];
    if i: nat :| SmallerAt(a, b, i) {
      SmallerShifts(a, b, i - 1);
    }
    if i: nat :| SmallerAt(a[1..], b[1..], i) {
      SmallerShifts(a, b, i);
    }
  }

  /** The order is the lexicographic one. */
  lemma {:induction false} LeqIsLexicographic(a: Bytes, b: Bytes)
    ensures Leq(a, b) <==> Lexicographic(a, b)
  {
    if a != [] && b != [] {
      if a[0] == b[0] {
        LexicographicTail(a, b);
        LeqIsLexicographic(a[1..], b[1..]);
      } else {
        assert a[0] < b[0] ==> SmallerAt(a, b, 0);
        if i: nat :| SmallerAt(a, b, i) {
          assert i > 0 ==> a[..i][0] == b[..i][0];
        }
      }
    }
  }

  lemma AlwaysLexicographic()
    ensures forall a, b :: Leq(a, b) <==> Lexicographic(a, b)
  {
    forall a, b
      ensures Leq(a, b) <==> Lexicographic(a, b)
    {
      LeqIsLexicographic(a, b);
    }
  }

  /** The first key of an ordered collection. */
  method Least(keys: set<Bytes>) returns (least: Bytes)
    requires keys != {}
    ensures least in keys && forall k | k in keys :: Leq(least, k) && Lexicographic(least, k)
  {
    least :| least in keys;
    Total(least, least);
    var rest := keys - {least};
    while rest != {}
      invariant rest <= keys && least in keys
      invariant forall k | k in keys - rest :: Leq(least, k)
      decreases |rest|
    {
      var k :| k in rest;
      ghost var before := least;
      Total(least, k);
      Total(k, k);
      if !Leq(least, k) {
        least := k;
      }
      forall j | j in keys - rest
        ensures Leq(least, j)
      {
        if least != before {
          Transitive(k, before, j);
        }
      }
      rest := rest - {k};
    }
    AlwaysLexicographic();
  }
}

/** What a range query returns. */
module Ranges {
  import opened Base
  import opened Order
  import opened Versions

  predicate InRange(k: Bytes, first: Bytes, last: Bytes) {
    Leq(first, k) && Leq(k, last)
  }

  /** The first `limit` pairs of the model in the range, in key order. */
  ghost predicate IsPage(m: Model, first: Bytes, last: Bytes, limit: nat, page: seq<(Bytes, Bytes)>) {
    && |page| <= limit
    && (forall i, j | 0 <= i < j < |page| :: Lexicographic(page[i].0, page[j].0) && page[i].0 != page[j].0)
    && (forall i | 0 <= i < |page| ::
          && Lexicographic(first, page[i].0) && Lexicographic(page[i].0, last)
          && page[i].0 in m && page[i].1 == m[page[i].0].value)
    && (forall k | k in m && Lexicographic(first, k) && Lexicographic(k, last) && !OnPage(page, k) ::
          |page| == limit && forall i | 0 <= i < |page| :: Lexicographic(page[i].0, k))
  }

  ghost predicate OnPage(page: seq<(Bytes, Bytes)>, k: Bytes) {
    exists i :: 0 <= i < |page| && page[i].0 == k
  }

  ghost predicate Precedes(page: seq<(Bytes, Bytes)>, k: Bytes) {
    forall i | 0 <= i < |page| :: Less(page[i].0, k)
  }

  lemma NotEarlier(s: seq<(Bytes, Bytes)>, t: seq<(Bytes, Bytes)>, i: nat)
    requires i < |s| && i <= |t| && s[..i] == t[..i] && forall a, b | 0 <= a < b < |s| :: s[a].0 != s[b].0
    ensures forall j | 0 <= j < i :: t[j].0 != s[i].0
  {
    forall j | 0 <= j < i
      ensures t[j].0 != s[i].0
    {
      assert s[..i][j] == t[..i][j];
      assert s[j].0 != s[i].0;
    }
  }

  /** Of two pages, neither can have an earlier key where they first differ. */
  lemma PageOrder(m: Model, first: Bytes, last: Bytes, limit: nat, s: seq<(Bytes, Bytes)>, t: seq<(Bytes, Bytes)>,
                  i: nat)
    requires IsPage(m, first, last, limit, s) && IsPage(m, first, last, limit, t)
    requires i < |s| && i <= |t| && s[..i] == t[..i]
    ensures i < |t| && Leq(t[i].0, s[i].0)
  {
    var k := s[i].0;
    AlwaysLexicographic();
    NotEarlier(s, t, i);
    Total(k, k);
    if OnPage(t, k) {
      var j :| 0 <= j < |t| && t[j].0 == k;
      assert i < j ==> Lexicographic(t[i].0, t[j].0);
    }
  }

  /** There is only one such page. */
  lemma {:induction false} PageUnique(m: Model, first: Bytes, last: Bytes, limit: nat, s: seq<(Bytes, Bytes)>,
                                      t: seq<(Bytes, Bytes)>, i: nat)
    requires IsPage(m, first, last, limit, s) && IsPage(m, first, last, limit, t)
    requires i <= |s| && i <= |t| && s[..i] == t[..i]
    ensures s == t
    decreases |s| - i
  {
    if i < |s| {
      PageOrder(m, first, last, limit, s, t, i);
      PageOrder(m, first, last, limit, t, s, i);
      Antisymmetric(s[i].0, t[i].0);
      assert s[..i + 1] == s[..i] + [s[i]] && t[..i + 1] == t[..i] + [t[i]];
      PageUnique(m, first, last, limit, s, t, i + 1);
    } else if i < |t| {
      PageOrder(m, first, last, limit, t, s, i);
    } else {
      assert s == s[..i] && t == t[..i];
    }
  }

  /** The pairs so far, `rest` being the keys still to come. */
  ghost predicate PageSoFar(m: Model, first: Bytes, last: Bytes, page: seq<(Bytes, Bytes)>, rest: set<Bytes>) {
    && rest <= m.Keys
    && (forall k | k in rest :: InRange(k, first, last) && Precedes(page, k))
    && (forall i, j | 0 <= i < j < |page| :: Less(page[i].0, page[j].0))
    && (forall i | 0 <= i < |page| ::
          page[i].0 in m && InRange(page[i].0, first, last) && page[i].1 == m[page[i].0].value)
    && (forall k | k in m && InRange(k, first, last) && k !in rest :: OnPage(page, k))
  }

  /** The least of the keys to come goes next. */
  lemma PageNext(m: Model, first: Bytes, last: Bytes, page: seq<(Bytes, Bytes)>, rest: set<Bytes>, k: Bytes)
    requires PageSoFar(m, first, last, page, rest) && k in rest && forall j | j in rest :: Leq(k, j)
    ensures PageSoFar(m, first, last, page + [(k, m[k].value)], rest - {k})
  {
    var longer := page + [(k, m[k].value)];
    assert longer[|page|].0 == k && Precedes(page, k);
    forall j | OnPage(page, j)
      ensures OnPage(longer, j)
    {
      var i :| 0 <= i < |page| && page[i].0 == j;
      assert longer[i].0 == j;
    }
    forall j | j in rest - {k}
      ensures Precedes(longer, j)
    {
      assert Precedes(page, j);
    }
  }

  /** When no key is left, or the page is full, it is complete. */
  lemma PageDone(m: Model, first: Bytes, last: Bytes, limit: nat, page: seq<(Bytes, Bytes)>, rest: set<Bytes>)
    requires PageSoFar(m, first, last, page, rest) && |page| <= limit && (rest == {} || |page| == limit)
    ensures IsPage(m, first, last, limit, page)
  {
    AlwaysLexicographic();
    forall i, j | 0 <= i < j < |page|
      ensures Lexicographic(page[i].0, page[j].0) && page[i].0 != page[j].0
    {
      assert Less(page[i].0, page[j].0);
    }
  }
}
