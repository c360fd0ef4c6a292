/** `murmur3_32` (src/utils/hash.rs): MurmurHash3, x86, 32 bits. */
module Hash {

  // ----- the elementary steps and what undoes them

  function MulC1(x: bv32): bv32 { x * 0xcc9e2d51 }

  function DivC1(x: bv32): bv32 { x * 0xdee13bb1 }

  lemma MulC1Undone(x: bv32)
    ensures DivC1(MulC1(x)) == x
  {
    assert DivC1(x * 0xcc9e2d51) == x;
  }

  function MulC2(x: bv32): bv32 { x * 0x1b873593 }

  function DivC2(x: bv32): bv32 { x * 0x56ed309b }

  lemma MulC2Undone(x: bv32)
    ensures DivC2(MulC2(x)) == x
  {
    assert DivC2(x * 0x1b873593) == x;
  }

  function Mul5(x: bv32): bv32 { x * 5 }

  function Div5(x: bv32): bv32 { x * 0xcccccccd }

  lemma Mul5Undone(x: bv32)
    ensures Div5(Mul5(x)) == x
  {
    assert Div5(x * 5) == x;
  }

  function MulF1(x: bv32): bv32 { x * 0x85ebca6b }

  function DivF1(x: bv32): bv32 { x * 0xa5cb9243 }

  lemma MulF1Undone(x: bv32)
    ensures DivF1(MulF1(x)) == x
  {
    assert DivF1(x * 0x85ebca6b) == x;
  }

  function MulF2(x: bv32): bv32 { x * 0xc2b2ae35 }

  function DivF2(x: bv32): bv32 { x * 0x7ed1b41d }

  lemma MulF2Undone(x: bv32)
    ensures DivF2(MulF2(x)) == x
  {
    assert DivF2(x * 0xc2b2ae35) == x;
  }

  function Rotate15(x: bv32): bv32 { x.RotateLeft(15) }

  function Rotate17(x: bv32): bv32 { x.RotateLeft(17) }

  lemma Rotate15Undone(x: bv32)
    ensures Rotate17(Rotate15(x)) == x
  {
    assert Rotate17(x.RotateLeft(15)) == x;
  }

  function Rotate13(x: bv32): bv32 { x.RotateLeft(13) }

  function Rotate19(x: bv32): bv32 { x.RotateLeft(19) }

  lemma Rotate13Undone(x: bv32)
    ensures Rotate19(Rotate13(x)) == x
  {
    assert Rotate19(x.RotateLeft(13)) == x;
  }

  function AddN(x: bv32): bv32 { x + 0xe6546b64 }

  function SubN(x: bv32): bv32 { x - 0xe6546b64 }

  lemma AddNUndone(x: bv32)
    ensures SubN(AddN(x)) == x
  {
    assert SubN(x + 0xe6546b64) == x;
  }

  function Fold16(x: bv32): bv32 { x ^ (x >> 16) }

  function Unfold16(x: bv32): bv32 { x ^ (x >> 16) }

  lemma Fold16Undone(x: bv32)
    ensures Unfold16(Fold16(x)) == x
  {
    assert Unfold16(x ^ (x >> 16)) == x;
  }

  function Fold13(x: bv32): bv32 { x ^ (x >> 13) }

  function Unfold13(x: bv32): bv32 { (x ^ (x >> 13)) ^ (x >> 26) }

  lemma Fold13Undone(x: bv32)
    ensures Unfold13(Fold13(x)) == x
  {
    assert Unfold13(x ^ (x >> 13)) == x;
  }

  function Absorb(h: bv32, k: bv32): bv32 { h ^ k }

  lemma AbsorbUndone(h: bv32, k: bv32)
    ensures Absorb(Absorb(h, k), k) == h && Absorb(h, Absorb(h, k)) == k
  {
    assert Absorb(h ^ k, k) == h && Absorb(h, h ^ k) == k;
  }

  // ----- the hash

  /** The scrambling of one block. */
  function MixBlock(k: bv32): bv32 {
    MulC2(Rotate15(MulC1(k)))
  }

  /** One round: the block goes into the state. */
  function Round(h: bv32, k: bv32): bv32 {
    AddN(Mul5(Rotate13(Absorb(h, MixBlock(k)))))
  }

  /** The finalisation. */
  function Finish(h: bv32): bv32 {
    Fold16(MulF2(Fold13(MulF1(Fold16(h)))))
  }

  /** `u32::from_le_bytes` */
  function Word(c: seq<bv8>): bv32
    requires |c| == 4
  {
    Pack(c[0], c[1], c[2], c[3])
  }

  function Pack(a: bv8, b: bv8, c: bv8, d: bv8): bv32 {
    (a as bv32) | ((b as bv32) << 8) | ((c as bv32) << 16) | ((d as bv32) << 24)
  }

  /** The state after all whole blocks. */
  function Rounds(h: bv32, key: seq<bv8>): bv32
    decreases |key|
  {
    if |key| < 4 then h else Rounds(Round(h, Word(key[..4])), key[4..])
  }

  /** The bytes after the last whole block. */
  function Tail(key: seq<bv8>): (t: seq<bv8>)
    ensures |t| < 4
  {
    key[|key| - |key| % 4..]
  }

  /** The bytes of the tail as a word, and zero bytes. */
  function TailWord(t: seq<bv8>): bv32
    requires |t| < 4
  {
    Word(t + seq(4 - |t|, (_: nat) => 0 as bv8))
  }

  function MixTail(h: bv32, t: seq<bv8>): bv32
    requires |t| < 4
  {
    if t == [] then h else Absorb(h, MixBlock(TailWord(t)))
  }

  /** What follows the whole blocks: the partial one, the length and the finalising steps. */
  function Finalise(h: bv32, t: seq<bv8>, length: nat): bv32
    requires |t| < 4
  {
    Finish(Absorb(MixTail(h, t), (length % 0x1_0000_0000) as bv32))
  }

  function Murmur3(key: seq<bv8>, seed: bv32): bv32 {
    Finalise(Rounds(seed, key), Tail(key), |key|)
  }

  // ----- nothing is lost

  lemma MixBlockInjective(j: bv32, k: bv32)
    requires MixBlock(j) == MixBlock(k)
    ensures j == k
  {
    MulC2Undone(Rotate15(MulC1(j)));
    MulC2Undone(Rotate15(MulC1(k)));
    Rotate15Undone(MulC1(j));
    Rotate15Undone(MulC1(k));
    MulC1Undone(j);
    MulC1Undone(k);
  }

  lemma SpreadInjective(x: bv32, y: bv32)
    requires AddN(Mul5(Rotate13(x))) == AddN(Mul5(Rotate13(y)))
    ensures x == y
  {
    AddNUndone(Mul5(Rotate13(x)));
    AddNUndone(Mul5(Rotate13(y)));
    Mul5Undone(Rotate13(x));
    Mul5Undone(Rotate13(y));
    Rotate13Undone(x);
    Rotate13Undone(y);
  }

  lemma RoundInjectiveInState(g: bv32, h: bv32, k: bv32)
    requires Round(g, k) == Round(h, k)
    ensures g == h
  {
    SpreadInjective(Absorb(g, MixBlock(k)), Absorb(h, MixBlock(k)));
    AbsorbUndone(g, MixBlock(k));
    AbsorbUndone(h, MixBlock(k));
  }

  lemma RoundInjectiveInBlock(h: bv32, j: bv32, k: bv32)
    requires Round(h, j) == Round(h, k)
    ensures j == k
  {
    SpreadInjective(Absorb(h, MixBlock(j)), Absorb(h, MixBlock(k)));
    AbsorbUndone(h, MixBlock(j));
    AbsorbUndone(h, MixBlock(k));
    MixBlockInjective(j, k);
  }

  lemma FinishInjective(g: bv32, h: bv32)
    requires Finish(g) == Finish(h)
    ensures g == h
  {
    Fold16Undone(MulF2(Fold13(MulF1(Fold16(g)))));
    Fold16Undone(MulF2(Fold13(MulF1(Fold16(h)))));
    MulF2Undone(Fold13(MulF1(Fold16(g))));
    MulF2Undone(Fold13(MulF1(Fold16(h))));
    Fold13Undone(MulF1(Fold16(g)));
    Fold13Undone(MulF1(Fold16(h)));
    MulF1Undone(Fold16(g));
    MulF1Undone(Fold16(h));
    Fold16Undone(g);
    Fold16Undone(h);
  }

  lemma BytesOfWord(a: bv8, b: bv8, c: bv8, d: bv8)
    ensures var w := (a as bv32) | ((b as bv32) << 8) | ((c as bv32) << 16) | ((d as bv32) << 24);
      && (w & 0xff) as bv8 == a && ((w >> 8) & 0xff) as bv8 == b
      && ((w >> 16) & 0xff) as bv8 == c && ((w >> 24) & 0xff) as bv8 == d
  {
  }

  lemma WordInjective(c: seq<bv8>, d: seq<bv8>)
    requires |c| == 4 && |d| == 4 && Word(c) == Word(d)
    ensures c == d
  {
    BytesOfWord(c[0], c[1], c[2], c[3]);
    BytesOfWord(d[0], d[1], d[2], d[3]);
  }

  lemma TailWordInjective(t: seq<bv8>, u: seq<bv8>)
    requires |t| == |u| < 4 && TailWord(t) == TailWord(u)
    ensures t == u
  {
    var z := seq(4 - |t|, (_: nat) => 0 as bv8);
    WordInjective(t + z, u + z);
    assert t == (t + z)[..|t|] && u == (u + z)[..|u|];
  }

  // ----- keys that differ in one block

  lemma {:induction false} RoundsInjective(g: bv32, h: bv32, key: seq<bv8>)
    requires Rounds(g, key) == Rounds(h, key)
    ensures g == h
    decreases |key|
  {
    if |key| >= 4 {
      RoundsInjective(Round(g, Word(key[..4])), Round(h, Word(key[..4])), key[4..]);
      RoundInjectiveInState(g, h, Word(key[..4]));
    }
  }

  /** Keys of one length that differ in exactly one aligned block lead to different states. */
  lemma {:induction false} RoundsDiffer(h: bv32, a: seq<bv8>, b: seq<bv8>, c: nat)
    requires |a| == |b| && 4 * c + 4 <= |a| && a != b
    requires a[..4 * c] == b[..4 * c] && a[4 * c + 4..] == b[4 * c + 4..]
    ensures Rounds(h, a) != Rounds(h, b)
    decreases |a|
  {
    if c == 0 {
      assert a == a[..4] + a[4..] && b == b[..4] + b[4..];
      if Rounds(h, a) == Rounds(h, b) {
        RoundsInjective(Round(h, Word(a[..4])), Round(h, Word(b[..4])), a[4..]);
        RoundInjectiveInBlock(h, Word(a[..4]), Word(b[..4]));
        WordInjective(a[..4], b[..4]);
      }
    } else {
      assert a[..4] == a[..4 * c][..4] && b[..4] == b[..4 * c][..4];
      assert a == a[..4] + a[4..] && b == b[..4] + b[4..];
      assert a[4..][..4 * (c - 1)] == a[..4 * c][4..] && b[4..][..4 * (c - 1)] == b[..4 * c][4..];
      assert a[4..][4 * c..] == a[4 * c + 4..] && b[4..][4 * c..] == b[4 * c + 4..];
      RoundsDiffer(Round(h, Word(a[..4])), a[4..], b[4..], c - 1);
    }
  }

  lemma {:induction false} FinalisationInjective(g: bv32, h: bv32, t: seq<bv8>, length: nat)
    requires |t| < 4 && Finalise(g, t, length) == Finalise(h, t, length)
    ensures g == h
  {
    var n := (length % 0x1_0000_0000) as bv32;
    FinishInjective(Absorb(MixTail(g, t), n), Absorb(MixTail(h, t), n));
    AbsorbUndone(MixTail(g, t), n);
    AbsorbUndone(MixTail(h, t), n);
    if t != [] {
      AbsorbUndone(g, MixBlock(TailWord(t)));
      AbsorbUndone(h, MixBlock(TailWord(t)));
    }
  }

  lemma SameTail(a: seq<bv8>, b: seq<bv8>, m: nat)
    requires |a| == |b| && m % 4 == 0 && m <= |a| && a[m..] == b[m..]
    ensures Tail(a) == Tail(b)
  {
    var n := |a| - |a| % 4;
    assert m <= n;
    assert Tail(a) == a[m..][n - m..] && Tail(b) == b[m..][n - m..];
  }

  /** Two keys of one length that differ only within one aligned block never collide, whatever the seed. */
  lemma {:induction false} BlockChangeChangesHash(a: seq<bv8>, b: seq<bv8>, c: nat, seed: bv32)
    requires |a| == |b| && 4 * c + 4 <= |a| && a != b
    requires a[..4 * c] == b[..4 * c] && a[4 * c + 4..] == b[4 * c + 4..]
    ensures Murmur3(a, seed) != Murmur3(b, seed)
  {
    RoundsDiffer(seed, a, b, c);
    SameTail(a, b, 4 * c + 4);
    if Murmur3(a, seed) == Murmur3(b, seed) {
      FinalisationInjective(Rounds(seed, a), Rounds(seed, b), Tail(a), |a|);
    }
  }

  lemma {:induction false} RoundsIgnoreTail(h: bv32, a: seq<bv8>, b: seq<bv8>)
    requires |a| == |b| && a[..|a| - |a| % 4] == b[..|b| - |b| % 4]
    ensures Rounds(h, a) == Rounds(h, b)
    decreases |a|
  {
    if |a| >= 4 {
      var n := |a| - |a| % 4;
      assert a[..4] == a[..n][..4] && b[..4] == b[..n][..4];
      assert a[4..][..n - 4] == a[..n][4..] && b[4..][..n - 4] == b[..n][4..];
      RoundsIgnoreTail(Round(h, Word(a[..4])), a[4..], b[4..]);
    }
  }

  lemma {:induction false} TailInjective(h: bv32, t: seq<bv8>, u: seq<bv8>, length: nat)
    requires |t| == |u| < 4 && Finalise(h, t, length) == Finalise(h, u, length)
    ensures t == u
  {
    var n := (length % 0x1_0000_0000) as bv32;
    FinishInjective(Absorb(MixTail(h, t), n), Absorb(MixTail(h, u), n));
    AbsorbUndone(MixTail(h, t), n);
    AbsorbUndone(MixTail(h, u), n);
    if t != [] {
      AbsorbUndone(h, MixBlock(TailWord(t)));
      AbsorbUndone(h, MixBlock(TailWord(u)));
      MixBlockInjective(TailWord(t), TailWord(u));
      TailWordInjective(t, u);
    }
  }

  /** Nor do two keys of one length that differ only within the final partial block. */
  lemma {:induction false} TailChangeChangesHash(a: seq<bv8>, b: seq<bv8>, seed: bv32)
    requires |a| == |b| && a != b && a[..|a| - |a| % 4] == b[..|b| - |b| % 4]
    ensures Murmur3(a, seed) != Murmur3(b, seed)
  {
    RoundsIgnoreTail(seed, a, b);
    var n, h := |a| - |a| % 4, Rounds(seed, a);
    assert a == a[..n] + a[n..] && b == b[..n] + b[n..];
    if Murmur3(a, seed) == Murmur3(b, seed) {
      TailInjective(h, Tail(a), Tail(b), |a|);
    }
  }

  // ----- the function as it is written

  /** `murmur3_32` */
  method ComputeMurmur3(key: seq<bv8>, seed: bv32) returns (h: bv32)
    ensures h == Murmur3(key, seed)
  {
    h := TakeBlocks(key, seed);
    h := TakeRest(h, key[|key| - |key| % 4..], |key|);
  }

  /** The loop over whole blocks. */
  method TakeBlocks(key: seq<bv8>, seed: bv32) returns (h: bv32)
    ensures h == Rounds(seed, key)
  {
    h := seed;
    var i := 0;
    while i + 4 <= |key|
      invariant 0 <= i <= |key|
      invariant Rounds(seed, key) == Rounds(h, key[i..])
    {
      assert key[i..][..4] == key[i..i + 4] && key[i..][4..] == key[i + 4..];
      h := TakeBlock(h, key[i..i + 4]);
      i := i + 4;
    }
  }

  /** What follows the loop. */
  method TakeRest(state: bv32, remainder: seq<bv8>, length: nat) returns (h: bv32)
    requires |remainder| < 4
    ensures h == Finalise(state, remainder, length)
  {
    h := TakeRemainder(state, remainder);
    h := Absorb(h, (length % 0x1_0000_0000) as bv32);
    h := Avalanche(h);
  }

  /** The partial block, if there is one. */
  method TakeRemainder(state: bv32, remainder: seq<bv8>) returns (h: bv32)
    requires |remainder| < 4
    ensures h == MixTail(state, remainder)
  {
    h := state;
    if remainder != [] {
      var k := RemainderWord(remainder);
      k := MulC1(k);
      k := Rotate15(k);
      k := MulC2(k);
      h := Absorb(h, k);
    }
  }

  /** The body of the loop over whole blocks. */
  method TakeBlock(state: bv32, chunk: seq<bv8>) returns (h: bv32)
    requires |chunk| == 4
    ensures h == Round(state, Word(chunk))
  {
    var k := Word(chunk);
    k := MulC1(k);
    k := Rotate15(k);
    k := MulC2(k);
    h := Absorb(state, k);
    h := Rotate13(h);
    h := AddN(Mul5(h));
  }

  /** The finalising steps. */
  method Avalanche(state: bv32) returns (h: bv32)
    ensures h == Finish(state)
  {
    h := Fold16(state);
    h := MulF1(h);
    h := Fold13(h);
    h := MulF2(h);
    h := Fold16(h);
  }

  /** Packing one more byte. */
  lemma PackNext(a: bv8, b: bv8, c: bv8)
    ensures Pack(a, 0, 0, 0) == Pack(0, 0, 0, 0) | ((a as bv32) << 0)
    ensures Pack(a, b, 0, 0) == Pack(a, 0, 0, 0) | ((b as bv32) << 8)
    ensures Pack(a, b, c, 0) == Pack(a, b, 0, 0) | ((c as bv32) << 16)
  {
  }

  function ByteAt(t: seq<bv8>, i: nat): bv8 {
    if i < |t| then t[i] else 0
  }

  lemma TailWordIs(t: seq<bv8>)
    requires |t| < 4
    ensures TailWord(t) == Pack(ByteAt(t, 0), ByteAt(t, 1), ByteAt(t, 2), 0)
  {
  }

  /** `x << (i * 8)`, one byte at a time. */
  function ShiftBytes(x: bv32, i: nat): bv32
    decreases i
  {
    if i == 0 then x else ShiftBytes(x << 8, i - 1)
  }

  lemma ShiftIs(x: bv32)
    ensures ShiftBytes(x, 0) == x << 0 && ShiftBytes(x, 1) == x << 8 && ShiftBytes(x, 2) == x << 16
  {
    assert ShiftBytes(x, 2) == ShiftBytes(x << 8, 1) == (x << 8) << 8;
  }

  lemma TailWordNext(t: seq<bv8>, i: nat)
    requires i < |t| < 4
    ensures TailWord(t[..i + 1]) == TailWord(t[..i]) | ShiftBytes(t[i] as bv32, i)
  {
    TailWordIs(t[..i]);
    TailWordIs(t[..i + 1]);
    PackNext(ByteAt(t, 0), ByteAt(t, 1), ByteAt(t, 2));
    ShiftIs(t[i] as bv32);
  }

  /** The loop over the bytes of the last partial block. */
  method RemainderWord(t: seq<bv8>) returns (k: bv32)
    requires |t| < 4
    ensures k == TailWord(t)
  {
    k := 0;
    for i := 0 to |t|
      invariant k == TailWord(t[..i])
    {
      TailWordNext(t, i);
      k := k | ShiftBytes(t[i] as bv32, i);
    }
    assert t[..|t|] == t;
  }

  // ----- known values

  /** The constants, at the values that hashing "Hello, world!" with seed 0x9747b28c goes through. */
  lemma KnownValues()
    ensures Round(0x9747b28c, 0x6c6c6548) == 0xdae4c92e
    ensures Round(0xdae4c92e, 0x77202c6f) == 0x71c6b43c
    ensures Round(0x71c6b43c, 0x646c726f) == 0x3bd692af
    ensures Absorb(0x3bd692af, MixBlock(0x21)) == 0x9788c38c
    ensures Finish(Absorb(0x9788c38c, 13)) == 0x24884cba
  {
  }

  lemma KnownWords()
    ensures Pack(0x48, 0x65, 0x6c, 0x6c) == 0x6c6c6548
    ensures Pack(0x6f, 0x2c, 0x20, 0x77) == 0x77202c6f
    ensures Pack(0x6f, 0x72, 0x6c, 0x64) == 0x646c726f
    ensures Pack(0x21, 0, 0, 0) == 0x21
  {
  }

  lemma {:induction false} NextRound(h: bv32, key: seq<bv8>, a: bv8, b: bv8, c: bv8, d: bv8, rest: seq<bv8>, next: bv32)
    requires key == [a, b, c, d] + rest && Round(h, Pack(a, b, c, d)) == next
    ensures Rounds(h, key) == Rounds(next, rest)
  {
    assert key[..4] == [a, b, c, d] && key[4..] == rest;
  }

  /** So the hash of "Hello, world!" with this seed is the published one. */
  lemma {:induction false} KnownHash()
    ensures Murmur3([0x48, 0x65, 0x6c, 0x6c, 0x6f, 0x2c, 0x20, 0x77, 0x6f, 0x72, 0x6c, 0x64, 0x21], 0x9747b28c)
            == 0x24884cba
  {
    KnownValues();
    KnownWords();
    var last: seq<bv8> := [0x21];
    var two: seq<bv8> := [0x6f, 0x72, 0x6c, 0x64] + last;
    var three: seq<bv8> := [0x6f, 0x2c, 0x20, 0x77] + two;
    var key: seq<bv8> := [0x48, 0x65, 0x6c, 0x6c] + three;
    assert key == [0x48, 0x65, 0x6c, 0x6c, 0x6f, 0x2c, 0x20, 0x77, 0x6f, 0x72, 0x6c, 0x64, 0x21];
    NextRound(0x9747b28c, key, 0x48, 0x65, 0x6c, 0x6c, three, 0xdae4c92e);
    NextRound(0xdae4c92e, three, 0x6f, 0x2c, 0x20, 0x77, two, 0x71c6b43c);
    NextRound(0x71c6b43c, two, 0x6f, 0x72, 0x6c, 0x64, last, 0x3bd692af);
    KnownEnd(key, last);
  }

  lemma KnownTail(last: seq<bv8>)
    requires last == [0x21]
    ensures TailWord(last) == 0x21
  {
    KnownWords();
    var padded: seq<bv8> := last + seq(3, (_: nat) => 0 as bv8);
    assert padded[0] == 0x21 && padded[1] == 0 && padded[2] == 0 && padded[3] == 0;
  }

  lemma {:induction false} KnownEnd(key: seq<bv8>, last: seq<bv8>)
    requires |key| == 13 && last == [0x21] && key[12..] == last && Rounds(0x9747b28c, key) == 0x3bd692af
    ensures Murmur3(key, 0x9747b28c) == 0x24884cba
  {
    KnownValues();
    assert Tail(key) == last;
    KnownTail(last);
    assert MixTail(0x3bd692af, last) == 0x9788c38c;
    assert (13 % 0x1_0000_0000) as bv32 == 13;
  }
}
