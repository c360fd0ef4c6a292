/** The on-disk record: sizes, serialisation, parsing, and reading a value back. */
module Format {
  import opened Base

  /** A stored record (`Record` in src/core/record.rs): `value` is None once it lives only on disk. */
  datatype Record = Record(
    key: Bytes,
    value: Option<Bytes>,
    valueLen: nat,
    timestamp: nat,
    expiry: nat,
    sector: nat,
    refcount: nat)

  /** What the header of a record says. */
  datatype Parsed = Parsed(key: Bytes, valueLen: nat, timestamp: nat, expiry: nat)

  function HeaderOf(r: Record): Parsed {
    Parsed(r.key, r.valueLen, r.timestamp, r.expiry)
  }

  // ----- sizes

  function RecordHeaderSize(keyLen: nat): nat {
    SECTOR_HEADER_SIZE + 2 + keyLen + 8 + 8 + 8
  }

  function TotalSize(keyLen: nat, valueLen: nat): nat {
    RecordHeaderSize(keyLen) + valueLen
  }

  /** Sectors a record is given when it is flushed. */
  function SectorsNeeded(keyLen: nat, valueLen: nat): (n: nat)
    ensures n >= 1
    ensures 4096 * (n - 1) < TotalSize(keyLen, valueLen) <= 4096 * n
  {
    SectorsFor(TotalSize(keyLen, valueLen))
  }

  /** Sectors a flushed delete gives back: this formula leaves out the 8 expiry bytes. */
  function SectorsReleased(keyLen: nat, valueLen: nat): nat {
    SectorsFor(SECTOR_HEADER_SIZE + 2 + keyLen + 8 + 8 + valueLen)
  }

  /** A delete frees a non-empty prefix of the extent, whatever (smaller) length it was told. */
  lemma ReleasedIsPrefix(keyLen: nat, valueLen: nat, told: nat)
    requires told <= valueLen
    ensures 1 <= SectorsReleased(keyLen, told) <= SectorsNeeded(keyLen, valueLen)
  {
  }

  /** Told the true length, it frees the whole extent, or one sector too few in eight residues. */
  lemma ReleasedExactly(keyLen: nat, valueLen: nat)
    ensures SectorsReleased(keyLen, valueLen) ==
            SectorsNeeded(keyLen, valueLen) - (if 1 <= TotalSize(keyLen, valueLen) % 4096 <= 8 then 1 else 0)
  {
    var t := TotalSize(keyLen, valueLen);
    assert SectorsReleased(keyLen, valueLen) == (t - 8 + 4095) / 4096;
    assert SectorsNeeded(keyLen, valueLen) == (t + 4095) / 4096;
  }

  /** `mem::size_of::<Record>()` on a 64-bit target. */
  const RECORD_STRUCT_SIZE: nat := 120

  /** `calculate_record_size`: what a record counts for in `memory_usage`. */
  function RecordSize(keyLen: nat, valueLen: nat): nat {
    RECORD_STRUCT_SIZE + keyLen + valueLen
  }

  // ----- writing

  function Serialize(r: Record, includeValue: bool): Bytes {
    LeBytes(|r.key|, 2) + r.key + LeBytes(r.valueLen, 8) + LeBytes(r.timestamp, 8) + LeBytes(r.expiry, 8)
    + if includeValue && r.value.Some? then r.value.value else []
  }

  /** `Vec::resize(n, 0)` */
  function Resize(data: Bytes, n: nat): (d: Bytes)
    ensures |d| == n
  {
    if n <= |data| then data[..n] else data + seq(n - |data|, (_: nat) => 0 as Byte)
  }

  /** `perpare_record_data`: sector marker, sequence number 0, the record, zero padding. */
  function Prepare(r: Record): (d: Bytes)
    ensures |d| == 4096 * SectorsNeeded(|r.key|, r.valueLen)
  {
    Resize(LeBytes(SECTOR_MARKER, 2) + LeBytes(0, 2) + Serialize(r, true),
           4096 * SectorsNeeded(|r.key|, r.valueLen))
  }

  function PreparedBlocks(r: Record): (bs: seq<Block>)
    ensures |bs| == SectorsNeeded(|r.key|, r.valueLen)
  {
    ToBlocks(Prepare(r))
  }

  // ----- parsing

  function ParseRecord(data: Bytes): Option<Parsed> {
    if |data| < SECTOR_HEADER_SIZE + 2 then None
    else
      var offset := SECTOR_HEADER_SIZE + 2;
      var keyLen := FromLe(data[SECTOR_HEADER_SIZE..offset]);
      if offset + keyLen + 24 > |data| then None
      else
        var key := data[offset..offset + keyLen];
        var offset := offset + keyLen;
        Some(Parsed(key,
                    FromLe(data[offset..offset + 8]),
                    FromLe(data[offset + 8..offset + 16]),
                    FromLe(data[offset + 16..offset + 24])))
  }

  /** The numeric fields fit their 64-bit slots. */
  ghost predicate Fits64(r: Record) {
    r.valueLen < TWO_TO_THE_64 && r.timestamp < TWO_TO_THE_64 && r.expiry < TWO_TO_THE_64
  }

  /** The value, when held, has the recorded length. */
  ghost predicate HoldsValue(r: Record) {
    r.value.Some? && |r.value.value| == r.valueLen
  }

  /** The bytes before the value. */
  ghost function HeaderBytes(r: Record): (h: Bytes)
    ensures |h| == RecordHeaderSize(|r.key|)
  {
    LeBytes(SECTOR_MARKER, 2) + LeBytes(0, 2) + Serialize(r, false)
  }

  lemma PrepareLayout(r: Record)
    requires HoldsValue(r)
    ensures HeaderBytes(r) + r.value.value <= Prepare(r)
  {
    var raw := LeBytes(SECTOR_MARKER, 2) + LeBytes(0, 2) + Serialize(r, true);
    assert raw == HeaderBytes(r) + r.value.value;
    assert |raw| == TotalSize(|r.key|, r.valueLen) <= |Prepare(r)|;
    assert raw <= Prepare(r);
  }

  /** Where each field of a header lies. */
  lemma HeaderFields(r: Record)
    ensures var h, n := HeaderBytes(r), |r.key|;
      && h[..2] == LeBytes(SECTOR_MARKER, 2)
      && h[2..4] == LeBytes(0, 2)
      && h[4..6] == LeBytes(n, 2)
      && h[6..6 + n] == r.key
      && h[6 + n..14 + n] == LeBytes(r.valueLen, 8)
      && h[14 + n..22 + n] == LeBytes(r.timestamp, 8)
      && h[22 + n..30 + n] == LeBytes(r.expiry, 8)
  {
  }

  /** A buffer with a record's fields in place parses to them. */
  lemma ParseFields(r: Record, data: Bytes)
    requires |data| >= 30 + |r.key|
    requires FromLe(data[4..6]) == |r.key|
    requires data[6..6 + |r.key|] == r.key
    requires FromLe(data[6 + |r.key|..14 + |r.key|]) == r.valueLen
    requires FromLe(data[14 + |r.key|..22 + |r.key|]) == r.timestamp
    requires FromLe(data[22 + |r.key|..30 + |r.key|]) == r.expiry
    ensures ParseRecord(data) == Some(HeaderOf(r))
  {
  }

  lemma PrefixSlice(h: Bytes, data: Bytes, i: nat, j: nat)
    requires h <= data && i <= j <= |h|
    ensures data[i..j] == h[i..j]
  {
  }

  /** A 64-bit field read from a buffer that starts with `h`. */
  lemma FieldAt(h: Bytes, data: Bytes, i: nat, n: nat)
    requires h <= data && i + 8 <= |h|
    requires n < TWO_TO_THE_64 && h[i..i + 8] == LeBytes(n, 8)
    ensures FromLe(data[i..i + 8]) == n
  {
    PrefixSlice(h, data, i, i + 8);
    LeRoundTrip64(n);
  }

  lemma StoredKeyLength(r: Record, data: Bytes)
    requires |data| >= 6 && data[..6] == HeaderBytes(r)[..6]
    ensures FromLe(data[4..6]) == |r.key| % 65536
  {
    HeaderFields(r);
    assert data[4..6] == data[..6][4..] == HeaderBytes(r)[..6][4..] == HeaderBytes(r)[4..6];
    LeTruncates16(|r.key|);
  }

  /** A short key: the whole header is there. */
  lemma ParseShortKey(r: Record, h: Bytes, data: Bytes)
    requires Fits64(r) && |r.key| < 65536
    requires h == HeaderBytes(r) && h <= data && FromLe(data[4..6]) == |r.key|
    ensures ParseRecord(data) == Some(HeaderOf(r))
  {
    var n := |r.key|;
    assert |h| == 30 + n;
    assert data[6..6 + n] == r.key by {
      HeaderFields(r);
      PrefixSlice(h, data, 6, 6 + n);
    }
    assert FromLe(data[6 + n..14 + n]) == r.valueLen by {
      HeaderFields(r);
      FieldAt(h, data, 6 + n, r.valueLen);
    }
    assert FromLe(data[14 + n..22 + n]) == r.timestamp by {
      HeaderFields(r);
      FieldAt(h, data, 14 + n, r.timestamp);
    }
    assert FromLe(data[22 + n..30 + n]) == r.expiry by {
      HeaderFields(r);
      FieldAt(h, data, 22 + n, r.expiry);
    }
    ParseFields(r, data);
  }

  /** Any buffer that starts with a record's header parses to it, except that the key length is kept modulo 65536. */
  lemma ParseHeader(r: Record, data: Bytes)
    requires Fits64(r)
    requires HeaderBytes(r) <= data
    ensures |r.key| < 65536 ==> ParseRecord(data) == Some(HeaderOf(r))
    ensures |r.key| >= 65536 ==> ParseRecord(data).Some? && |ParseRecord(data).value.key| < |r.key|
  {
    PrefixSlice(HeaderBytes(r), data, 0, 6);
    StoredKeyLength(r, data);
    if |r.key| < 65536 {
      ParseShortKey(r, HeaderBytes(r), data);
    }
  }

  /** Parsing a prepared record returns its header exactly when the key length fits 16 bits. */
  lemma CodecRoundTrip(r: Record)
    requires Fits64(r) && HoldsValue(r)
    ensures ParseRecord(Prepare(r)) == Some(HeaderOf(r)) <==> |r.key| < 65536
  {
    PrepareLayout(r);
    assert HeaderBytes(r) <= HeaderBytes(r) + r.value.value;
    ParseHeader(r, Prepare(r));
  }

  /** The recovery scan sees one sector: that is enough exactly for keys of at most 4066 bytes. */
  lemma FirstSectorSuffices(r: Record)
    requires Fits64(r) && HoldsValue(r)
    ensures ParseRecord(Prepare(r)[..4096]) == Some(HeaderOf(r)) <==> |r.key| <= 4066
  {
    PrepareLayout(r);
    var h, data, first := HeaderBytes(r), Prepare(r), Prepare(r)[..4096];
    assert h <= h + r.value.value;
    if |r.key| <= 4066 {
      assert h <= first;
      ParseHeader(r, first);
    } else {
      assert first[4..6] == h[4..6] == LeBytes(|r.key|, 2);
      LeTruncates16(|r.key|);
    }
  }

  /** In the padded block the value lies at the header size, for every key length. */
  lemma ValueAtHeaderOffset(r: Record)
    requires HoldsValue(r)
    ensures TotalSize(|r.key|, r.valueLen) <= |Prepare(r)|
    ensures Prepare(r)[RecordHeaderSize(|r.key|)..TotalSize(|r.key|, r.valueLen)] == r.value.value
  {
    PrepareLayout(r);
    var h, d := HeaderBytes(r), Prepare(r);
    assert d[..TotalSize(|r.key|, r.valueLen)] == h + r.value.value;
    assert d[|h|..TotalSize(|r.key|, r.valueLen)] == (h + r.value.value)[|h|..];
  }

  // ----- sector headers, as the recovery scan recognises them

  /** The record header a sector holds, if the scan takes it for one. */
  function Classify(b: Block): Option<Parsed> {
    if b[..8] == DELETED_MARKER then None
    else if FromLe(b[..2]) != SECTOR_MARKER || FromLe(b[2..4]) != 0 then None
    else match ParseRecord(b)
      case None => None
      case Some(p) => if p.key == [] || |p.key| > MAX_KEY_SIZE then None else Some(p)
  }

  /** The sector a flushed delete writes over a record's first sector. */
  function DeletionMarker(): (b: Block)
    ensures b[..8] == DELETED_MARKER
  {
    var b := DELETED_MARKER + seq(4096 - 8, (_: nat) => 0 as Byte);
    assert b[..8] == DELETED_MARKER;
    b
  }

  /** A prepared record announces itself in its first sector. */
  lemma PreparedFirstBlock(r: Record)
    requires Fits64(r) && HoldsValue(r) && 1 <= |r.key| <= 4066
    ensures Classify(PreparedBlocks(r)[0]) == Some(HeaderOf(r))
  {
    PrepareLayout(r);
    var b, h := PreparedBlocks(r)[0], HeaderBytes(r);
    assert b == Prepare(r)[..4096];
    assert h <= h + r.value.value;
    assert b[0] == h[0] == LeBytes(SECTOR_MARKER, 2)[0] == 0xCD;
    assert b[..8][0] != DELETED_MARKER[0];
    assert b[..2] == h[..2] == LeBytes(SECTOR_MARKER, 2);
    assert b[2..4] == h[2..4] == LeBytes(0, 2);
    LeTruncates16(SECTOR_MARKER);
    LeTruncates16(0);
    FirstSectorSuffices(r);
  }

  // ----- reading a value back

  /** `read_sectors_sync`: reading past the end of the device is an I/O error. */
  function ReadSectors(disk: Disk, sector: nat, count: nat): Result<Bytes> {
    if sector + count <= |disk| then Ok(Flatten(disk[sector..sector + count])) else Err(IoError)
  }

  /** `load_value_from_disk` */
  function LoadValue(disk: Disk, persistency: bool, r: Record): Result<Bytes> {
    if !persistency || r.sector == 0 then Err(InvalidRecord)
    else match ReadSectors(disk, r.sector, SectorsNeeded(|r.key|, r.valueLen))
      case Err(e) => Err(e)
      case Ok(data) =>
        var offset := RecordHeaderSize(|r.key|);
        if offset + r.valueLen > |data| then Err(InvalidRecord)
        else Ok(data[offset..offset + r.valueLen])
  }

  /** The value a record keeps in the sectors of its extent. */
  function ValueIn(blocks: seq<Block>, keyLen: nat, valueLen: nat): Bytes
    requires |blocks| == SectorsNeeded(keyLen, valueLen)
  {
    Flatten(blocks)[RecordHeaderSize(keyLen)..TotalSize(keyLen, valueLen)]
  }

  /** Loading reads the record's own extent and nothing else. */
  lemma LoadReadsExtent(disk: Disk, r: Record)
    requires r.sector != 0 && r.sector + SectorsNeeded(|r.key|, r.valueLen) <= |disk|
    ensures LoadValue(disk, true, r) ==
            Ok(ValueIn(disk[r.sector..r.sector + SectorsNeeded(|r.key|, r.valueLen)], |r.key|, r.valueLen))
  {
  }

  /** What was prepared from a held value reads back as that value. */
  lemma PreparedValue(r: Record)
    requires HoldsValue(r)
    ensures ValueIn(PreparedBlocks(r), |r.key|, r.valueLen) == r.value.value
  {
    FlattenToBlocks(Prepare(r));
    ValueAtHeaderOffset(r);
  }

  /** Loading fails only for an unflushed record or one whose extent leaves the device. */
  lemma LoadSucceeds(disk: Disk, r: Record)
    ensures LoadValue(disk, true, r).Ok? <==>
            r.sector != 0 && r.sector + SectorsNeeded(|r.key|, r.valueLen) <= |disk|
    ensures LoadValue(disk, true, r).Ok? ==> |LoadValue(disk, true, r).value| == r.valueLen
  {
  }
}
