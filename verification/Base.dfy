/** Values shared by every component: bytes, results, little-endian integers, sectors. */
module Base {

  datatype Option<+T> = None | Some(value: T)

  datatype Error =
    | InvalidArgument
    | InvalidDevice
    | InvalidKeySize
    | InvalidValueSize
    | InvalidRecord
    | InvalidOperation
    | KeyNotFound
    | OlderTimestamp
    | OutOfMemory
    | OutOfSpace
    | CorruptedData
    | DuplicateKey
    | IoError

  datatype Result<+T> = Ok(value: T) | Err(error: Error)

  type Byte = x: int | 0 <= x < 256

  type Bytes = seq<Byte>

  // src/constants.rs
  const KB: nat := 1024
  const MB: nat := 1024 * KB
  const GB: nat := 1024 * MB
  const MAX_KEY_SIZE: nat := 100 * KB
  const MAX_VALUE_SIZE: nat := 4 * MB
  const METADATA_BLOCK_SIZE: nat := 16
  const DATA_START_BLOCK: nat := 16
  /** Bytes in a sector. (Definitions that the solver has to compute with write the number out.) */
  const BLOCK_SIZE: nat := 4096
  const SECTOR_HEADER_SIZE: nat := 4
  const SECTOR_MARKER: nat := 0xABCD
  const SECOND: nat := 1_000_000_000
  const TWO_TO_THE_64: nat := 0x1_0000_0000_0000_0000

  /** The bytes of `\0DELETED`. */
  const DELETED_MARKER: Bytes := [0, 68, 69, 76, 69, 84, 69, 68]

  /** `bytes.div_ceil(BLOCK_SIZE)` */
  function SectorsFor(bytes: nat): nat {
    (bytes + 4095) / 4096
  }

  // ----- little-endian integers

  /** The low `width` bytes of `n`, least significant first: `(n as uW).to_le_bytes()`. */
  function LeBytes(n: nat, width: nat): (b: Bytes)
    ensures |b| == width
    decreases width, n
  {
    if width == 0 then [] else [n % 256] + LeBytes(n / 256, width - 1)
  }

  /** `uW::from_le_bytes(b)` */
  function FromLe(b: Bytes): nat {
    if b == [] then 0 else b[0] + 256 * FromLe(b[1..])
  }

  function Pow256(width: nat): nat {
    if width == 0 then 1 else 256 * Pow256(width - 1)
  }

  lemma {:induction false} LeRoundTrip(n: nat, width: nat)
    requires n < Pow256(width)
    ensures FromLe(LeBytes(n, width)) == n
  {
    if width > 0 {
      LeRoundTrip(n / 256, width - 1);
      assert LeBytes(n, width)[1..] == LeBytes(n / 256, width - 1);
    }
  }

  lemma LeRoundTrip64(n: nat)
    requires n < TWO_TO_THE_64
    ensures FromLe(LeBytes(n, 8)) == n
  {
    assert Pow256(8) == TWO_TO_THE_64 by {
      assert Pow256(4) == 0x1_0000_0000;
      assert Pow256(6) == 0x1_0000_0000_0000;
    }
    LeRoundTrip(n, 8);
  }

  /** A 16-bit field keeps a length modulo 65536. */
  lemma LeTruncates16(n: nat)
    ensures FromLe(LeBytes(n, 2)) == n % 65536
  {
    var b := LeBytes(n, 2);
    var m := n / 256;
    assert b[1..] == LeBytes(m, 1);
    assert LeBytes(m, 1) == [m % 256];
    assert FromLe([m % 256]) == m % 256;
    assert FromLe(b) == n % 256 + 256 * (m % 256);
  }

  // ----- sectors

  type Block = b: seq<Byte> | |b| == 4096 witness seq(4096, (_: nat) => 0 as Byte)

  type Disk = seq<Block>

  /** Cuts a padded buffer into sectors. */
  function ToBlocks(data: Bytes): (bs: seq<Block>)
    requires |data| % 4096 == 0
    ensures |bs| == |data| / 4096
  {
    seq(|data| / 4096, (i: nat) requires i < |data| / 4096 => data[4096 * i..4096 * (i + 1)])
  }

  /** Joins sectors into one buffer. */
  function Flatten(bs: seq<Block>): (data: Bytes)
    ensures |data| == 4096 * |bs|
  {
    seq(4096 * |bs|, (i: nat) requires i < 4096 * |bs| => bs[i / 4096][i % 4096])
  }

  lemma FlattenToBlocks(data: Bytes)
    requires |data| % 4096 == 0
    ensures Flatten(ToBlocks(data)) == data
  {
    var bs := ToBlocks(data);
    forall i | 0 <= i < |data|
      ensures Flatten(bs)[i] == data[i]
    {
      assert bs[i / 4096] == data[4096 * (i / 4096)..4096 * (i / 4096 + 1)];
    }
  }

  // ----- ranges of sectors

  ghost predicate Within(i: nat, start: nat, count: nat) {
    start <= i < start + count
  }

  ghost function Range(start: nat, count: nat): set<nat> {
    set i: nat | start <= i < start + count && Within(i, start, count)
  }

  lemma {:induction false} RangeSize(start: nat, count: nat)
    ensures |Range(start, count)| == count
  {
    if count == 0 {
      assert Range(start, count) == {};
    } else {
      RangeSize(start, count - 1);
      assert Range(start, count) == Range(start, count - 1) + {start + count - 1};
    }
  }

  // ----- bytes in a table

  /** The bytes of all keys and values. */
  ghost function Payload(m: map<Bytes, Bytes>): nat
    decreases |m.Keys|
  {
    if m.Keys == {} then 0
    else
      var k :| k in m.Keys;
      assert (m - {k}).Keys == m.Keys - {k};
      |k| + |m[k]| + Payload(m - {k})
  }

  lemma PayloadKeys(m: map<Bytes, Bytes>, k: Bytes)
    requires k in m
    ensures (m - {k}).Keys == m.Keys - {k} && |(m - {k}).Keys| == |m.Keys| - 1
  {
  }

  lemma PayloadSwap(m: map<Bytes, Bytes>, j: Bytes, k: Bytes)
    ensures m - {j} - {k} == m - {k} - {j}
  {
  }

  lemma {:induction false} PayloadRemove(m: map<Bytes, Bytes>, k: Bytes)
    requires k in m
    ensures Payload(m) == |k| + |m[k]| + Payload(m - {k})
    decreases |m.Keys|
  {
    PayloadKeys(m, k);
    var j: Bytes :| j in m.Keys && Payload(m) == |j| + |m[j]| + Payload(m - {j});
    if j != k {
      PayloadKeys(m, j);
      PayloadRemove(m - {j}, k);
      PayloadRemove(m - {k}, j);
      PayloadSwap(m, j, k);
    }
  }
}
