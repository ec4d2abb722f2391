/** `RawPersistentData`: the 32-byte record stored in each slot, its little-endian
    layout and its validity test.  The CRC is a parameter. */
module HfRecord {
  import opened Nor
  import opened LittleEndian
  import opened RecordLog
  import opened Wrappers

  type u32 = x: int | 0 <= x < 0x1_0000_0000
  type u64 = x: int | 0 <= x < 0x1_0000_0000_0000_0000
  type Crc = seq<Byte> -> u32

  const MAGIC: u32 := 0x1dea_bcde
  const HEADER_VERSION: u32 := 1
  const ALL_ONES: u64 := 0xFFFF_FFFF_FFFF_FFFF
  const RAW_SIZE: nat := 32
  const STRIDE: nat := 128

  // Bytes of a u32 and of a u64.
  const WORD: nat := 4
  const LONG: nat := 8

  datatype Raw = Raw(reserved: u64, magic: u32, version: u32, counter: u64, devSelect: u32, checksum: u32)

  lemma Widths()
    ensures Pow256(WORD) == 0x1_0000_0000 && Pow256(LONG) == 0x1_0000_0000_0000_0000
  {
    assert Pow256(2) == 65536;
    assert Pow256(4) == 256 * (256 * Pow256(2));
    assert Pow256(6) == 256 * (256 * Pow256(4));
    assert Pow256(8) == 256 * (256 * Pow256(6));
  }

  function Body(r: Raw): (bs: seq<Byte>)
    ensures |bs| == RAW_SIZE - WORD
  {
    Le(r.reserved, LONG) + Le(r.magic, WORD) + Le(r.version, WORD) + Le(r.counter, LONG) + Le(r.devSelect, WORD)
  }

  function Encode(r: Raw): (bs: seq<Byte>)
    ensures |bs| == RAW_SIZE
  {
    Body(r) + Le(r.checksum, WORD)
  }

  function Field4(bs: seq<Byte>): (n: u32)
    requires |bs| == WORD
  {
    Widths(); FromLeRoundTrip(bs);
    FromLe(bs)
  }

  function Field8(bs: seq<Byte>): (n: u64)
    requires |bs| == LONG
  {
    Widths(); FromLeRoundTrip(bs);
    FromLe(bs)
  }

  function Decode(bs: seq<Byte>): Raw
    requires |bs| == RAW_SIZE
  {
    Raw(Field8(bs[0..8]), Field4(bs[8..12]), Field4(bs[12..16]),
        Field8(bs[16..24]), Field4(bs[24..28]), Field4(bs[28..32]))
  }

  /** Six fields laid end to end can be cut apart again. */
  lemma Layout(a: seq<Byte>, b: seq<Byte>, c: seq<Byte>, d: seq<Byte>, e: seq<Byte>, f: seq<Byte>)
    requires |a| == LONG && |b| == WORD && |c| == WORD && |d| == LONG && |e| == WORD && |f| == WORD
    ensures var bs := a + b + c + d + e + f;
      && bs[0..8] == a && bs[8..12] == b && bs[12..16] == c && bs[16..24] == d && bs[24..28] == e && bs[28..32] == f
  {}

  lemma DecodeEncode(r: Raw)
    ensures Decode(Encode(r)) == r
  {
    Widths();
    LeRoundTrip(r.reserved, LONG); LeRoundTrip(r.magic, WORD); LeRoundTrip(r.version, WORD);
    LeRoundTrip(r.counter, LONG); LeRoundTrip(r.devSelect, WORD); LeRoundTrip(r.checksum, WORD);
    Layout(Le(r.reserved, LONG), Le(r.magic, WORD), Le(r.version, WORD),
           Le(r.counter, LONG), Le(r.devSelect, WORD), Le(r.checksum, WORD));
  }

  lemma EncodeDecode(bs: seq<Byte>)
    requires |bs| == RAW_SIZE
    ensures Encode(Decode(bs)) == bs
  {
    FromLeRoundTrip(bs[0..8]); FromLeRoundTrip(bs[8..12]); FromLeRoundTrip(bs[12..16]);
    FromLeRoundTrip(bs[16..24]); FromLeRoundTrip(bs[24..28]); FromLeRoundTrip(bs[28..32]);
    assert bs == bs[0..8] + bs[8..12] + bs[12..16] + bs[16..24] + bs[24..28] + bs[28..32];
  }

  function ExpectedChecksum(c: Crc, r: Raw): u32 { c(Body(r)) }

  predicate IsValid(c: Crc, r: Raw) {
    && r.reserved == ALL_ONES
    && r.magic == MAGIC
    && r.version == HEADER_VERSION
    && r.devSelect <= 1
    && r.checksum == ExpectedChecksum(c, r)
  }

  function DevCode(d: DevSelect): u32 { if d.Flash0? then 0 else 1 }
  function CodeDev(n: u32): DevSelect { if n == 0 then Flash0 else Flash1 }

  /** `RawPersistentData::new`; its own validity assertion always holds. */
  function New(c: Crc, rec: Record): (r: Raw)
    requires rec.counter <= MAX_COUNTER
    ensures IsValid(c, r)
  {
    var r := Raw(ALL_ONES, MAGIC, HEADER_VERSION, rec.counter, DevCode(rec.dev), 0);
    r.(checksum := ExpectedChecksum(c, r))
  }

  /** What the scan makes of the 32 bytes at the start of a slot. */
  function SlotView(c: Crc, bs: seq<Byte>): Slot
    requires |bs| == RAW_SIZE
  {
    var r := Decode(bs);
    if IsValid(c, r) then Live(Record(r.counter, CodeDev(r.devSelect)))
    else if forall i :: 0 <= i < |bs| ==> bs[i] == BLANK then Erased
    else Junk
  }

  /** A record written to a slot reads back as itself. */
  lemma RecordRoundTrip(c: Crc, rec: Record)
    requires rec.counter <= MAX_COUNTER
    ensures SlotView(c, Encode(New(c, rec))) == Live(rec)
  {
    DecodeEncode(New(c, rec));
  }

  /** A blank slot is not a valid record, so the two tests of the scan never overlap. */
  lemma BlankIsErased(c: Crc, bs: seq<Byte>)
    requires |bs| == RAW_SIZE && forall i :: 0 <= i < |bs| ==> bs[i] == BLANK
    ensures SlotView(c, bs) == Erased
  {
    FromLeRoundTrip(bs[8..12]);
    assert bs[8..12][0] == BLANK && Le(MAGIC, WORD)[0] == 0xde;
  }

  lemma ValidIsNew(c: Crc, r: Raw)
    requires IsValid(c, r)
    ensures r == New(c, Record(r.counter, CodeDev(r.devSelect)))
  {
    assert Body(r) == Body(r.(checksum := 0));
    assert r.(checksum := 0) == Raw(ALL_ONES, MAGIC, HEADER_VERSION, r.counter, DevCode(CodeDev(r.devSelect)), 0);
  }

  /** A valid slot determines its bytes: valid records that agree on counter and
      device are the same 32 bytes, as the early-exit test of a write assumes. */
  lemma LiveBytes(c: Crc, bs: seq<Byte>, rec: Record)
    requires |bs| == RAW_SIZE && SlotView(c, bs) == Live(rec)
    ensures rec.counter <= MAX_COUNTER && bs == Encode(New(c, rec))
  {
    EncodeDecode(bs);
    ValidIsNew(c, Decode(bs));
  }

  // ----- The bytes themselves -----

  /** The fixed fields of a record as they stand in flash. */
  predicate HasHeader(bs: seq<Byte>)
    requires |bs| == RAW_SIZE
  {
    && U64At(bs, 0) == 0xFFFF_FFFF_FFFF_FFFF
    && U32At(bs, 8) == 0x1dea_bcde
    && U32At(bs, 12) == 1
  }

  lemma FieldsAt(bs: seq<Byte>)
    requires |bs| == RAW_SIZE
    ensures var r := Decode(bs);
      && r.reserved == U64At(bs, 0) && r.magic == U32At(bs, 8) && r.version == U32At(bs, 12)
      && r.counter == U64At(bs, 16) && r.devSelect == U32At(bs, 24) && r.checksum == U32At(bs, 28)
  {
    ReadsLowByteFirst(bs[0..8]); ReadsLowByteFirst(bs[8..12]); ReadsLowByteFirst(bs[12..16]);
    ReadsLowByteFirst(bs[16..24]); ReadsLowByteFirst(bs[24..28]); ReadsLowByteFirst(bs[28..32]);
  }

  lemma BodyIsPrefix(bs: seq<Byte>)
    requires |bs| == RAW_SIZE
    ensures Body(Decode(bs)) == bs[..28]
  {
    EncodeDecode(bs);
    var e := Encode(Decode(bs));
    assert e[..28] == Body(Decode(bs));
  }

  /** What the scan takes for a record, byte by byte: the fixed fields, a device of 0 or 1,
      and a checksum over the 28 bytes before it. */
  lemma ScanReads(c: Crc, bs: seq<Byte>)
    requires |bs| == RAW_SIZE
    ensures SlotView(c, bs).Live? <==> HasHeader(bs) && U32At(bs, 24) <= 1 && U32At(bs, 28) == c(bs[..28])
    ensures SlotView(c, bs).Live? ==>
      SlotView(c, bs).rec == Record(U64At(bs, 16), if U32At(bs, 24) == 0 then Flash0 else Flash1)
    ensures SlotView(c, bs) == Erased <==> forall i :: 0 <= i < |bs| ==> bs[i] == 0xFF
  {
    FieldsAt(bs);
    BodyIsPrefix(bs);
    if forall i :: 0 <= i < |bs| ==> bs[i] == 0xFF { BlankIsErased(c, bs); }
  }

  /** What is stored for a record. */
  lemma RecordLayout(c: Crc, rec: Record)
    requires rec.counter <= MAX_COUNTER
    ensures var bs := Encode(New(c, rec));
      && HasHeader(bs) && U64At(bs, 16) == rec.counter
      && U32At(bs, 24) == (if rec.dev.Flash0? then 0 else 1) && U32At(bs, 28) == c(bs[..28])
  {
    RecordRoundTrip(c, rec);
    ScanReads(c, Encode(New(c, rec)));
  }

  // ----- The codec as the rest of the model sees it -----

  /** How a slot's bytes are read and how a record is laid out. */
  datatype RawCodec = RawCodec(view: seq<Byte> -> Slot, encode: Record -> seq<Byte>)

  predicate AllBlank(bs: seq<Byte>) { forall i :: 0 <= i < |bs| ==> bs[i] == BLANK }

  ghost predicate Lawful(k: RawCodec) {
    && (forall r: Record :: r.counter <= MAX_COUNTER ==> |k.encode(r)| == RAW_SIZE && k.view(k.encode(r)) == Live(r))
    && (forall bs: seq<Byte> :: |bs| == RAW_SIZE && k.view(bs).Live? ==>
          k.view(bs).rec.counter <= MAX_COUNTER && bs == k.encode(k.view(bs).rec))
    && (forall bs: seq<Byte> :: |bs| == RAW_SIZE ==> (k.view(bs) == Erased <==> AllBlank(bs)))
  }

  function CrcCodec(c: Crc): RawCodec {
    RawCodec(
      (bs: seq<Byte>) => if |bs| == RAW_SIZE then SlotView(c, bs) else Junk,
      (r: Record) => if r.counter <= MAX_COUNTER then Encode(New(c, r)) else [])
  }

  /** Whatever the CRC polynomial, writing and scanning fit together. */
  lemma CrcCodecIsLawful(c: Crc)
    ensures Lawful(CrcCodec(c))
  {
    var k := CrcCodec(c);
    forall r: Record | r.counter <= MAX_COUNTER
      ensures |k.encode(r)| == RAW_SIZE && k.view(k.encode(r)) == Live(r)
    {
      RecordRoundTrip(c, r);
    }
    forall bs | |bs| == RAW_SIZE && k.view(bs).Live?
      ensures k.view(bs).rec.counter <= MAX_COUNTER && bs == k.encode(k.view(bs).rec)
    {
      LiveBytes(c, bs, k.view(bs).rec);
    }
    forall bs | |bs| == RAW_SIZE && AllBlank(bs) ensures k.view(bs) == Erased {
      BlankIsErased(c, bs);
    }
  }

  type Codec = k: RawCodec | Lawful(k)
    ghost witness (CrcCodecIsLawful(_ => 0); CrcCodec(_ => 0))
}
