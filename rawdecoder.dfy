/**
 * Decoder for the chunked Timepix3/SPIDR raw stream (parseRawData).
 *
 * A file is a sequence of chunks.  A chunk header is 8 bytes: the ASCII tag
 * "TPX3", a chip index, a reserved byte and a little-endian 16-bit body length
 * that must be a multiple of 8.  The body is a run of 8-byte records whose kind
 * is the top nibble of byte 7.  Pixel records (kind 0xB) are decoded, remapped,
 * masked and time-corrected; control records (0x7) are skipped; every other
 * kind stops the decode.
 */
module RawDecoder {
  import opened Wrappers
  import opened Tpx3

  /* ---------------- record words ---------------- */

  /** The 64-bit little-endian word of an 8-byte record. */
  function LittleEndianWord(p: seq<bv8>): bv64
    requires |p| == 8
  {
    (p[0] as bv64)
    | (p[1] as bv64 << 8)
    | (p[2] as bv64 << 16)
    | (p[3] as bv64 << 24)
    | (p[4] as bv64 << 32)
    | (p[5] as bv64 << 40)
    | (p[6] as bv64 << 48)
    | (p[7] as bv64 << 56)
  }

  /** The 8 bytes of a word, least significant first. */
  function WordBytes(w: bv64): (p: seq<bv8>)
    ensures |p| == 8
  {
    [(w & 0xFF) as bv8, ((w >> 8) & 0xFF) as bv8, ((w >> 16) & 0xFF) as bv8, ((w >> 24) & 0xFF) as bv8,
     ((w >> 32) & 0xFF) as bv8, ((w >> 40) & 0xFF) as bv8, ((w >> 48) & 0xFF) as bv8, ((w >> 56) & 0xFF) as bv8]
  }

  lemma WordBytesRoundTrip(w: bv64)
    ensures LittleEndianWord(WordBytes(w)) == w
  {
  }

  /** The record kind: the top nibble of the last byte. */
  function PacketKind(p: seq<bv8>): (k: int)
    requires |p| == 8
    ensures 0 <= k < 16
  {
    ((p[7] & 0xF0) >> 4) as int
  }

  /* ---------------- pixel record fields ---------------- */

  /** The bit fields of a pixel record, in the widths the source stores them. */
  datatype PixelFields = PixelFields(addr: bv16, fine: bv8, coarse: bv16, spidr: bv16, tot: bv16)

  /** Fine ToA is 4 bits, coarse ToA 14 bits and ToT 10 bits. */
  predicate FieldsInRange(f: PixelFields) {
    f.fine < 0x10 && f.coarse < 0x4000 && f.tot < 0x400
  }

  /**
   * address = bits 44-59, fine = bits 16-19, coarse = bits 30-43,
   * spidr = bits 0-15, tot = bits 20-29.
   */
  function ExtractFields(w: bv64): (f: PixelFields)
    ensures FieldsInRange(f)
  {
    PixelFields(
      ((w & 0x0FFF_F000_0000_0000) >> 44) as bv16,
      ((w & 0x0000_0000_000F_0000) >> 16) as bv8,
      ((w & 0x0000_0FFF_C000_0000) >> 30) as bv16,
      (w & 0x0000_0000_0000_FFFF) as bv16,
      ((w & 0x0000_0000_3FF0_0000) >> 20) as bv16)
  }

  /** The pixel record word that carries the given fields. */
  function EncodePixelWord(f: PixelFields): bv64
    requires FieldsInRange(f)
  {
    0xB000_0000_0000_0000
    | (f.addr as bv64 << 44)
    | (f.coarse as bv64 << 30)
    | (f.tot as bv64 << 20)
    | (f.fine as bv64 << 16)
    | (f.spidr as bv64)
  }

  /** Re-encoding decoded fields gives back the fields, and the record is a pixel record. */
  lemma FieldsRoundTrip(f: PixelFields)
    requires FieldsInRange(f)
    ensures ExtractFields(EncodePixelWord(f)) == f
    ensures PacketKind(WordBytes(EncodePixelWord(f))) == 0xB
  {
    WordBytesRoundTrip(EncodePixelWord(f));
  }

  /** The six fields cover all 64 bits: a pixel record word is determined by its fields. */
  lemma PixelWordDeterminedByFields(w: bv64)
    requires w >> 60 == 0xB
    ensures EncodePixelWord(ExtractFields(w)) == w
  {
  }

  /* ---------------- address remap ---------------- */

  /** Column of a super-pixel address: address bits 0-1 and 3-8. */
  function RemapX(a: bv16): bv8 {
    (((a >> 1) & 0x00FC) | (a & 0x0003)) as bv8
  }

  /** Row of a super-pixel address (before the flip): address bits 2 and 9-15. */
  function RemapY(a: bv16): bv8 {
    (((a >> 8) & 0x00FE) | ((a >> 2) & 0x0001)) as bv8
  }

  /** The super-pixel address of a sensor column and row; inverse of the remap. */
  function SuperPixelAddr(x: bv8, y: bv8): bv16 {
    ((x as bv16 & 0xFC) << 1) | (x as bv16 & 0x03) | ((y as bv16 & 0xFE) << 8) | ((y as bv16 & 0x01) << 2)
  }

  lemma RemapRoundTrip(a: bv16)
    ensures SuperPixelAddr(RemapX(a), RemapY(a)) == a
  {
  }

  lemma UnmapRoundTrip(x: bv8, y: bv8)
    ensures RemapX(SuperPixelAddr(x, y)) == x && RemapY(SuperPixelAddr(x, y)) == y
  {
  }

  /** The sensor pixel of an address, with y flipped to 255 - y. */
  function PixelOf(a: bv16): (p: PixelAddr)
    ensures p.x == RemapX(a) as int && p.y == SensorSize - 1 - RemapY(a) as int
  {
    PixelAddr(RemapX(a) as int, SensorSize - 1 - RemapY(a) as int)
  }

  lemma ByteToIntToByte(v: bv8)
    ensures (v as int) as bv8 == v
  {
  }

  /** The byte whose value is i, found by counting up to it. */
  lemma ByteOf(i: int) returns (v: bv8)
    requires 0 <= i < 256
    ensures v as int == i
  {
    v := 0;
    var k := 0;
    while k < i
      invariant 0 <= k <= i && v as int == k
    {
      v := v + 1;
      k := k + 1;
    }
  }

  lemma IntToByteToInt(i: int)
    requires 0 <= i < 256
    ensures (i as bv8) as int == i
  {
    var v := ByteOf(i);
    ByteToIntToByte(v);
  }

  /** Distinct addresses land on distinct pixels. */
  lemma PixelOfInjective(a: bv16, b: bv16)
    requires PixelOf(a) == PixelOf(b)
    ensures a == b
  {
    ByteToIntToByte(RemapX(a));
    ByteToIntToByte(RemapX(b));
    ByteToIntToByte(RemapY(a));
    ByteToIntToByte(RemapY(b));
    assert RemapX(a) == RemapX(b);
    assert RemapY(a) == RemapY(b);
    RemapRoundTrip(a);
    RemapRoundTrip(b);
  }

  /** Every sensor pixel is the image of some address. */
  lemma PixelOfSurjective(p: PixelAddr)
    ensures PixelOf(SuperPixelAddr(p.x as bv8, (SensorSize - 1 - p.y) as bv8)) == p
  {
    var x, y := p.x as bv8, (SensorSize - 1 - p.y) as bv8;
    UnmapRoundTrip(x, y);
    IntToByteToInt(p.x);
    IntToByteToInt(SensorSize - 1 - p.y);
  }

  /* ---------------- spatial mask ---------------- */

  /** The index the mask tests: x for a vertical mask, y otherwise. */
  function MaskIndex(mask: SpatialMask, p: PixelAddr): int {
    if mask.vertical then p.x else p.y
  }

  /** Strictly inside band 1 or strictly inside band 2. */
  predicate InBands(mask: SpatialMask, i: int) {
    (i < mask.max1 && i > mask.min1) || (i < mask.max2 && i > mask.min2)
  }

  predicate PassesMask(mask: SpatialMask, p: PixelAddr) {
    InBands(mask, MaskIndex(mask, p))
  }

  /* ---------------- arrival time ---------------- */

  lemma CoarseBound(c: bv16)
    requires c < 0x4000
    ensures 0 <= c as int < 0x4000
  {
  }

  lemma FineBound(fine: bv8)
    requires fine < 0x10
    ensures 0 <= fine as int < 0x10
  {
  }

  /**
   * ((spidr << 14 | coarse) << 4) | (fine ^ 0xF) on the counters as integers:
   * the fields occupy disjoint bits, so the or is a sum, and the xor is
   * 15 - fine (FineInversion).
   */
  function CounterTicks(spidr: nat, coarse: nat, fine: nat): (t: int)
    requires coarse < 0x4000 && fine < 0x10
    ensures 0 <= t
  {
    (spidr * 0x4000 + coarse) * 0x10 + (15 - fine)
  }

  /** The arrival time of a pixel record in clock ticks. */
  function ArrivalTicks(f: PixelFields): (t: int)
    requires FieldsInRange(f)
    ensures 0 <= t
  {
    CoarseBound(f.coarse);
    FineBound(f.fine);
    CounterTicks(f.spidr as int, f.coarse as int, f.fine as int)
  }

  /** The fine counter counts backwards: XOR with 0xF is 15 minus the count. */
  lemma FineInversion(fine: bv8)
    requires fine < 0x10
    ensures (fine ^ 0x0F) as int == 15 - fine as int
  {
  }

  /**
   * On the 64-bit words of the source, each or of the combined counter is a
   * sum: every counter lands on bits the others leave clear.
   */
  lemma ArrivalOrIsSum(spidr: bv64, coarse: bv64, fine: bv64)
    requires spidr < 0x1_0000 && coarse < 0x4000 && fine < 0x10
    ensures (spidr << 14) | coarse == (spidr << 14) + coarse
    ensures (((spidr << 14) | coarse) << 4) | (fine ^ 0xF) == (((spidr << 14) | coarse) << 4) + (0xF - fine)
  {
  }

  /** The arrival time gives back the spidr, coarse and fine counters. */
  lemma CounterTicksRoundTrip(spidr: nat, coarse: nat, fine: nat)
    requires coarse < 0x4000 && fine < 0x10
    ensures CounterTicks(spidr, coarse, fine) / 0x4_0000 == spidr
    ensures (CounterTicks(spidr, coarse, fine) / 0x10) % 0x4000 == coarse
    ensures 15 - CounterTicks(spidr, coarse, fine) % 0x10 == fine
  {
    var t := CounterTicks(spidr, coarse, fine);
    assert t / 0x10 == spidr * 0x4000 + coarse;
    assert t / 0x4_0000 == (t / 0x10) / 0x4000;
  }

  /* ---------------- one record ---------------- */

  datatype PacketResult =
    | PixelHit(hit: Hit)
    | MaskedOut
    | Control
    | NotImplemented(kind: int)
    | UnknownKind(kind: int)

  /**
   * One 8-byte record.  The ToT correction is in clock ticks per ToT code and
   * is added to the arrival time of every kept hit.
   */
  function DecodePacket(p: seq<bv8>, mask: SpatialMask, corr: seq<int>): (r: PacketResult)
    requires |p| == 8 && |corr| == TotCodes
    ensures r.PixelHit? <==> PacketKind(p) == 0xB && PassesMask(mask, PixelOf(ExtractFields(LittleEndianWord(p)).addr))
    ensures r.Control? <==> PacketKind(p) == 0x7
    ensures r.NotImplemented? <==> PacketKind(p) == 0x4 || PacketKind(p) == 0x6
    ensures r.UnknownKind? <==> PacketKind(p) !in {0x4, 0x6, 0x7, 0xB}
    ensures (r.NotImplemented? || r.UnknownKind?) ==> r.kind == PacketKind(p)
  {
    var kind := PacketKind(p);
    if kind == 0xB then
      var f := ExtractFields(LittleEndianWord(p));
      var a := PixelOf(f.addr);
      if !PassesMask(mask, a) then MaskedOut
      else PixelHit(Hit(a, ArrivalTicks(f) + corr[f.tot as int], f.tot as int))
    else if kind == 0x6 || kind == 0x4 then NotImplemented(kind)
    else if kind == 0x7 then Control
    else UnknownKind(kind)
  }

  /* ---------------- whole file ---------------- */

  datatype DecodeError =
    | IncompleteHeader      // fewer than 8 bytes after the last chunk
    | CorruptMagic          // tag is not "TPX3"
    | ChipIndexNotZero      // the source asserts chip index 0
    | ChunkSizeNotAligned   // body length is not a multiple of 8
    | TruncatedBody         // body shorter than its declared length
    | NotImplementedPacket(kind: int)
    | UnknownPacket(kind: int)

  const Magic: seq<bv8> := [0x54, 0x50, 0x58, 0x33]

  /** The little-endian body length in a chunk header. */
  function ChunkSize(bytes: seq<bv8>, pos: nat): nat
    requires pos + 8 <= |bytes|
  {
    bytes[pos + 7] as int * 256 + bytes[pos + 6] as int
  }

  function RecordAt(bytes: seq<bv8>, base: nat, k: nat): (p: seq<bv8>)
    requires base + 8 * k + 8 <= |bytes|
    ensures |p| == 8
  {
    bytes[base + 8 * k .. base + 8 * k + 8]
  }

  /** Records k..count-1 of a chunk body starting at base, appended to acc. */
  function RecordsFrom(bytes: seq<bv8>, base: nat, count: nat, k: nat, mask: SpatialMask, corr: seq<int>, acc: PixelData)
    : (r: Result<PixelData, DecodeError>)
    requires k <= count && base + 8 * count <= |bytes| && |corr| == TotCodes && acc.Aligned()
    ensures r.Ok? ==> r.value.Aligned() && acc.NumPackets() <= r.value.NumPackets() <= acc.NumPackets() + (count - k)
    decreases count - k
  {
    if k == count then Ok(acc)
    else
      match DecodePacket(RecordAt(bytes, base, k), mask, corr)
      case PixelHit(h) => RecordsFrom(bytes, base, count, k + 1, mask, corr, acc.Push(h))
      case MaskedOut => RecordsFrom(bytes, base, count, k + 1, mask, corr, acc)
      case Control => RecordsFrom(bytes, base, count, k + 1, mask, corr, acc)
      case NotImplemented(kind) => Err(NotImplementedPacket(kind))
      case UnknownKind(kind) => Err(UnknownPacket(kind))
  }

  /** Chunks from byte pos on, appended to acc. */
  function ChunksFrom(bytes: seq<bv8>, pos: nat, mask: SpatialMask, corr: seq<int>, acc: PixelData)
    : (r: Result<PixelData, DecodeError>)
    requires pos <= |bytes| && |corr| == TotCodes && acc.Aligned()
    ensures r.Ok? ==> r.value.Aligned()
    decreases |bytes| - pos
  {
    if pos == |bytes| then Ok(acc)
    else if |bytes| - pos < 8 then Err(IncompleteHeader)
    else if bytes[pos .. pos + 4] != Magic then Err(CorruptMagic)
    else if bytes[pos + 4] != 0 then Err(ChipIndexNotZero)
    else
      var size := ChunkSize(bytes, pos);
      if size % 8 != 0 then Err(ChunkSizeNotAligned)
      else if pos + 8 + size > |bytes| then Err(TruncatedBody)
      else
        match RecordsFrom(bytes, pos + 8, size / 8, 0, mask, corr, acc)
        case Err(e) => Err(e)
        case Ok(acc') => ChunksFrom(bytes, pos + 8 + size, mask, corr, acc')
  }

  /** The decode of a whole file held in memory. */
  function DecodeFile(bytes: seq<bv8>, mask: SpatialMask, corr: seq<int>): (r: Result<PixelData, DecodeError>)
    requires |corr| == TotCodes
    ensures r.Ok? ==> r.value.Aligned()
  {
    ChunksFrom(bytes, 0, mask, corr, EmptyPixelData)
  }

  /** The record loop of one chunk body: push every kept hit onto the three vectors together. */
  method ParseChunkBody(bytes: seq<bv8>, base: nat, count: nat, mask: SpatialMask, corr: seq<int>, acc: PixelData)
    returns (r: Result<PixelData, DecodeError>)
    requires base + 8 * count <= |bytes| && |corr| == TotCodes && acc.Aligned()
    ensures r == RecordsFrom(bytes, base, count, 0, mask, corr, acc)
  {
    var addrVec, toaVec, totVec := acc.addr, acc.toa, acc.tot;
    var k := 0;
    while k < count
      invariant k <= count
      invariant |addrVec| == |toaVec| == |totVec|
      invariant RecordsFrom(bytes, base, count, 0, mask, corr, acc)
             == RecordsFrom(bytes, base, count, k, mask, corr, PixelData(addrVec, toaVec, totVec))
    {
      var packet := bytes[base + 8 * k .. base + 8 * k + 8];
      match DecodePacket(packet, mask, corr) {
        case PixelHit(h) =>
          addrVec := addrVec + [h.addr];
          toaVec := toaVec + [h.toa];
          totVec := totVec + [h.tot];
        case MaskedOut =>
        case Control =>
        case NotImplemented(kind) =>
          return Err(NotImplementedPacket(kind));
        case UnknownKind(kind) =>
          return Err(UnknownPacket(kind));
      }
      k := k + 1;
    }
    return Ok(PixelData(addrVec, toaVec, totVec));
  }

  /**
   * parseRawData: walk the chunks, decode each record and push every kept hit
   * onto the three vectors together.
   */
  method ParseRawData(bytes: seq<bv8>, mask: SpatialMask, corr: seq<int>) returns (r: Result<PixelData, DecodeError>)
    requires |corr| == TotCodes
    ensures r == DecodeFile(bytes, mask, corr)
    ensures r.Ok? ==> r.value.Aligned()
  {
    var addrVec: seq<PixelAddr> := [];
    var toaVec: seq<int> := [];
    var totVec: seq<U16> := [];
    var pos := 0;
    while pos < |bytes|
      invariant pos <= |bytes|
      invariant |addrVec| == |toaVec| == |totVec|
      invariant DecodeFile(bytes, mask, corr) == ChunksFrom(bytes, pos, mask, corr, PixelData(addrVec, toaVec, totVec))
      decreases |bytes| - pos
    {
      if |bytes| - pos < 8 {
        return Err(IncompleteHeader);
      }
      if bytes[pos .. pos + 4] != Magic {
        return Err(CorruptMagic);
      }
      if bytes[pos + 4] != 0 {
        return Err(ChipIndexNotZero);
      }
      var size := ChunkSize(bytes, pos);
      if size % 8 != 0 {
        return Err(ChunkSizeNotAligned);
      }
      if pos + 8 + size > |bytes| {
        return Err(TruncatedBody);
      }
      var body := ParseChunkBody(bytes, pos + 8, size / 8, mask, corr, PixelData(addrVec, toaVec, totVec));
      match body {
        case Err(e) =>
          return Err(e);
        case Ok(d) =>
          addrVec, toaVec, totVec := d.addr, d.toa, d.tot;
      }
      pos := pos + 8 + size;
    }
    return Ok(PixelData(addrVec, toaVec, totVec));
  }

  /* ---------------- properties of the decode ---------------- */

  /** d holds the hits of acc, in the same order, at its front. */
  predicate Extends(d: PixelData, acc: PixelData)
    requires d.Aligned() && acc.Aligned()
  {
    acc.NumPackets() <= d.NumPackets() && forall i :: 0 <= i < acc.NumPackets() ==> d.At(i) == acc.At(i)
  }

  lemma ExtendsTrans(a: PixelData, b: PixelData, c: PixelData)
    requires a.Aligned() && b.Aligned() && c.Aligned()
    requires Extends(b, a) && Extends(c, b)
    ensures Extends(c, a)
  {
  }

  /** Decoding only ever appends: the hits gathered so far stay, in order, at the front. */
  lemma {:induction false} RecordsKeepPrefix(bytes: seq<bv8>, base: nat, count: nat, k: nat, mask: SpatialMask, corr: seq<int>, acc: PixelData)
    requires k <= count && base + 8 * count <= |bytes| && |corr| == TotCodes && acc.Aligned()
    ensures var r := RecordsFrom(bytes, base, count, k, mask, corr, acc);
      r.Ok? ==> Extends(r.value, acc)
    decreases count - k
  {
    if k < count {
      match DecodePacket(RecordAt(bytes, base, k), mask, corr)
      case PixelHit(h) =>
        var acc' := acc.Push(h);
        RecordsKeepPrefix(bytes, base, count, k + 1, mask, corr, acc');
        var r := RecordsFrom(bytes, base, count, k + 1, mask, corr, acc');
        if r.Ok? {
          ExtendsTrans(acc, acc', r.value);
        }
      case MaskedOut => RecordsKeepPrefix(bytes, base, count, k + 1, mask, corr, acc);
      case Control => RecordsKeepPrefix(bytes, base, count, k + 1, mask, corr, acc);
      case NotImplemented(_) =>
      case UnknownKind(_) =>
    }
  }

  lemma {:induction false} ChunksKeepPrefix(bytes: seq<bv8>, pos: nat, mask: SpatialMask, corr: seq<int>, acc: PixelData)
    requires pos <= |bytes| && |corr| == TotCodes && acc.Aligned()
    ensures var r := ChunksFrom(bytes, pos, mask, corr, acc);
      r.Ok? ==> Extends(r.value, acc)
    decreases |bytes| - pos
  {
    if pos == |bytes| {
      assert ChunksFrom(bytes, pos, mask, corr, acc) == Ok(acc);
    } else if |bytes| - pos >= 8 && bytes[pos .. pos + 4] == Magic && bytes[pos + 4] == 0 {
      var size := ChunkSize(bytes, pos);
      if size % 8 == 0 && pos + 8 + size <= |bytes| {
        RecordsKeepPrefix(bytes, pos + 8, size / 8, 0, mask, corr, acc);
        match RecordsFrom(bytes, pos + 8, size / 8, 0, mask, corr, acc)
        case Err(_) =>
        case Ok(acc') =>
          ChunksKeepPrefix(bytes, pos + 8 + size, mask, corr, acc');
          var r := ChunksFrom(bytes, pos + 8 + size, mask, corr, acc');
          if r.Ok? {
            ExtendsTrans(acc, acc', r.value);
          }
      }
    }
  }

  /** The header outcomes: clean end, partial header, bad tag, bad length. */
  lemma HeaderOutcomes(bytes: seq<bv8>, mask: SpatialMask, corr: seq<int>)
    requires |corr| == TotCodes
    ensures bytes == [] ==> DecodeFile(bytes, mask, corr) == Ok(EmptyPixelData)
    ensures 0 < |bytes| < 8 ==> DecodeFile(bytes, mask, corr) == Err(IncompleteHeader)
    ensures |bytes| >= 8 && bytes[..4] != Magic ==> DecodeFile(bytes, mask, corr) == Err(CorruptMagic)
    ensures |bytes| >= 8 && bytes[..4] == Magic && bytes[4] != 0 ==> DecodeFile(bytes, mask, corr) == Err(ChipIndexNotZero)
    ensures |bytes| >= 8 && bytes[..4] == Magic && bytes[4] == 0 && ChunkSize(bytes, 0) % 8 != 0
      ==> DecodeFile(bytes, mask, corr) == Err(ChunkSizeNotAligned)
  {
  }

  /* ---------------- encoding a file, and the round trip ---------------- */

  /** The bytes of consecutive records. */
  function RecordBytes(fs: seq<PixelFields>): (b: seq<bv8>)
    requires forall i :: 0 <= i < |fs| ==> FieldsInRange(fs[i])
    ensures |b| == 8 * |fs|
  {
    if fs == [] then [] else RecordBytes(fs[..|fs| - 1]) + WordBytes(EncodePixelWord(fs[|fs| - 1]))
  }

  /** A chunk for chip 0 around the given body. */
  function ChunkOf(body: seq<bv8>): (b: seq<bv8>)
    requires |body| < 0x1_0000
    ensures |b| == 8 + |body|
  {
    var size := |body|;
    Magic + [0, 0, (size % 256) as bv8, (size / 256) as bv8] + body
  }

  /** A single-chunk file holding the given pixel records. */
  function ChunkFile(fs: seq<PixelFields>): (b: seq<bv8>)
    requires forall i :: 0 <= i < |fs| ==> FieldsInRange(fs[i])
    requires 8 * |fs| < 0x1_0000
    ensures |b| == 8 + 8 * |fs|
  {
    ChunkOf(RecordBytes(fs))
  }

  /** What the decoder keeps of the records fs, appended to acc. */
  function KeptHits(fs: seq<PixelFields>, mask: SpatialMask, corr: seq<int>, acc: PixelData): (d: PixelData)
    requires forall i :: 0 <= i < |fs| ==> FieldsInRange(fs[i])
    requires |corr| == TotCodes && acc.Aligned()
    ensures d.Aligned()
  {
    if fs == [] then acc
    else
      var acc' := match KeptHit(fs[0], mask, corr) case PixelHit(h) => acc.Push(h) case _ => acc;
      KeptHits(fs[1..], mask, corr, acc')
  }

  lemma {:induction false} RecordBytesAt(fs: seq<PixelFields>, k: nat)
    requires forall i :: 0 <= i < |fs| ==> FieldsInRange(fs[i])
    requires k < |fs|
    ensures RecordBytes(fs)[8 * k .. 8 * k + 8] == WordBytes(EncodePixelWord(fs[k]))
  {
    var n := |fs|;
    var pre := fs[..n - 1];
    assert RecordBytes(fs) == RecordBytes(pre) + WordBytes(EncodePixelWord(fs[n - 1]));
    if k < n - 1 {
      RecordBytesAt(pre, k);
      assert RecordBytes(fs)[8 * k .. 8 * k + 8] == RecordBytes(pre)[8 * k .. 8 * k + 8];
    } else {
      assert RecordBytes(fs)[8 * k .. 8 * k + 8] == WordBytes(EncodePixelWord(fs[n - 1]));
    }
  }

  lemma SliceOfSlice<T>(s: seq<T>, lo: nat, hi: nat, i: nat, j: nat)
    requires lo <= hi <= |s| && i <= j <= hi - lo
    ensures s[lo .. hi][i .. j] == s[lo + i .. lo + j]
  {
    forall m | 0 <= m < j - i
      ensures s[lo .. hi][i .. j][m] == s[lo + i .. lo + j][m]
    {
      assert s[lo .. hi][i .. j][m] == s[lo .. hi][i + m];
    }
  }

  /** The kept hit of one pixel record, if it passes the mask. */
  function KeptHit(f: PixelFields, mask: SpatialMask, corr: seq<int>): (r: PacketResult)
    requires FieldsInRange(f) && |corr| == TotCodes
    ensures r.PixelHit? || r.MaskedOut?
  {
    var a := PixelOf(f.addr);
    if PassesMask(mask, a) then PixelHit(Hit(a, ArrivalTicks(f) + corr[f.tot as int], f.tot as int)) else MaskedOut
  }

  /** An encoded pixel record decodes to its own fields. */
  lemma DecodeEncodedRecord(f: PixelFields, mask: SpatialMask, corr: seq<int>)
    requires FieldsInRange(f) && |corr| == TotCodes
    ensures DecodePacket(WordBytes(EncodePixelWord(f)), mask, corr) == KeptHit(f, mask, corr)
  {
    FieldsRoundTrip(f);
    WordBytesRoundTrip(EncodePixelWord(f));
  }

  /** Record k of a file whose bytes from base on are body is the k-th 8-byte slice of body. */
  lemma RecordInBody(bytes: seq<bv8>, base: nat, body: seq<bv8>, n: nat, k: nat, p: seq<bv8>)
    requires k < n && base + 8 * n <= |bytes| && bytes[base .. base + 8 * n] == body
    requires body[8 * k .. 8 * k + 8] == p
    ensures RecordAt(bytes, base, k) == p
  {
    SliceOfSlice(bytes, base, base + 8 * n, 8 * k, 8 * k + 8);
  }

  /** The records of an encoded prefix fs of a chunk body decode to their kept hits, and decoding goes on after them. */
  lemma {:induction false} RecordsOfEncoded(bytes: seq<bv8>, base: nat, fs: seq<PixelFields>, count: nat, k: nat, mask: SpatialMask, corr: seq<int>, acc: PixelData)
    requires forall i :: 0 <= i < |fs| ==> FieldsInRange(fs[i])
    requires k <= |fs| <= count && base + 8 * count <= |bytes| && |corr| == TotCodes && acc.Aligned()
    requires bytes[base .. base + 8 * |fs|] == RecordBytes(fs)
    ensures RecordsFrom(bytes, base, count, k, mask, corr, acc) == RecordsFrom(bytes, base, count, |fs|, mask, corr, KeptHits(fs[k..], mask, corr, acc))
    decreases |fs| - k
  {
    if k < |fs| {
      var f := fs[k];
      RecordBytesAt(fs, k);
      RecordInBody(bytes, base, RecordBytes(fs), |fs|, k, WordBytes(EncodePixelWord(f)));
      DecodeEncodedRecord(f, mask, corr);
      assert fs[k..][0] == f && fs[k..][1..] == fs[k + 1..];
      match KeptHit(f, mask, corr)
      case PixelHit(h) =>
        RecordsOfEncoded(bytes, base, fs, count, k + 1, mask, corr, acc.Push(h));
      case MaskedOut =>
        RecordsOfEncoded(bytes, base, fs, count, k + 1, mask, corr, acc);
    } else {
      assert fs[k..] == [];
    }
  }

  lemma ChunkHeader(body: seq<bv8>)
    requires |body| < 0x1_0000
    ensures ChunkOf(body)[..4] == Magic && ChunkOf(body)[4] == 0
    ensures ChunkSize(ChunkOf(body), 0) == |body|
    ensures ChunkOf(body)[8 .. 8 + |body|] == body
  {
    var size := |body|;
    var bytes := ChunkOf(body);
    assert bytes[6] == (size % 256) as bv8 && bytes[7] == (size / 256) as bv8;
    SizeBytes(size);
  }

  /** The two length bytes of a header give back the length. */
  lemma SizeBytes(size: int)
    requires 0 <= size < 0x1_0000
    ensures ((size / 256) as bv8) as int * 256 + ((size % 256) as bv8) as int == size
  {
    IntToByteToInt(size % 256);
    IntToByteToInt(size / 256);
  }

  /** A file of one well-formed chunk decodes to the records of its body. */
  lemma SingleChunk(body: seq<bv8>, count: nat, mask: SpatialMask, corr: seq<int>)
    requires |body| == 8 * count && |body| < 0x1_0000 && |corr| == TotCodes
    ensures DecodeFile(ChunkOf(body), mask, corr) == RecordsFrom(ChunkOf(body), 8, count, 0, mask, corr, EmptyPixelData)
  {
    var bytes := ChunkOf(body);
    ChunkHeader(body);
    assert ChunkSize(bytes, 0) / 8 == count;
    match RecordsFrom(bytes, 8, count, 0, mask, corr, EmptyPixelData)
    case Err(_) =>
    case Ok(acc') =>
      assert ChunksFrom(bytes, 8 + |body|, mask, corr, acc') == Ok(acc');
  }

  /**
   * Round trip: a chunk of pixel records decodes to exactly the hits that pass
   * the mask, in record order, with their remapped addresses, corrected
   * arrival times and ToT codes.
   */
  lemma EncodeDecodeChunk(fs: seq<PixelFields>, mask: SpatialMask, corr: seq<int>)
    requires forall i :: 0 <= i < |fs| ==> FieldsInRange(fs[i])
    requires 8 * |fs| < 0x1_0000 && |corr| == TotCodes
    ensures DecodeFile(ChunkFile(fs), mask, corr) == Ok(KeptHits(fs, mask, corr, EmptyPixelData))
  {
    var body := RecordBytes(fs);
    var bytes := ChunkOf(body);
    assert ChunkFile(fs) == bytes;
    ChunkHeader(body);
    SingleChunk(body, |fs|, mask, corr);
    assert bytes[8 .. 8 + 8 * |fs|] == RecordBytes(fs);
    RecordsOfEncoded(bytes, 8, fs, |fs|, 0, mask, corr, EmptyPixelData);
    assert fs[0..] == fs;
  }

  /* ---------------- a body as a run of decoded records ---------------- */

  /** The whole 8-byte records of a body, in order. */
  function Records(body: seq<bv8>): (rs: seq<seq<bv8>>)
    ensures forall i :: 0 <= i < |rs| ==> |rs[i]| == 8
    decreases |body|
  {
    if |body| < 8 then [] else [body[..8]] + Records(body[8..])
  }

  /** What each record decodes to. */
  function Decoded(rs: seq<seq<bv8>>, mask: SpatialMask, corr: seq<int>): (ps: seq<PacketResult>)
    requires forall i :: 0 <= i < |rs| ==> |rs[i]| == 8
    requires |corr| == TotCodes
    ensures |ps| == |rs|
    decreases |rs|
  {
    if rs == [] then [] else [DecodePacket(rs[0], mask, corr)] + Decoded(rs[1..], mask, corr)
  }

  /**
   * The record loop over records already decoded: hits are pushed, masked
   * and control records skipped, and any other kind ends it with its error.
   */
  function Gather(ps: seq<PacketResult>, acc: PixelData): (r: Result<PixelData, DecodeError>)
    requires acc.Aligned()
    ensures r.Ok? ==> r.value.Aligned()
  {
    if ps == [] then Ok(acc)
    else
      match ps[0]
      case PixelHit(h) => Gather(ps[1..], acc.Push(h))
      case MaskedOut => Gather(ps[1..], acc)
      case Control => Gather(ps[1..], acc)
      case NotImplemented(kind) => Err(NotImplementedPacket(kind))
      case UnknownKind(kind) => Err(UnknownPacket(kind))
  }

  /** Gathering ps + qs gathers ps, then qs onto what ps gave, unless ps already stopped. */
  lemma {:induction false} GatherAppend(ps: seq<PacketResult>, qs: seq<PacketResult>, acc: PixelData)
    requires acc.Aligned()
    ensures var r := Gather(ps, acc);
      && (r.Ok? ==> Gather(ps + qs, acc) == Gather(qs, r.value))
      && (r.Err? ==> Gather(ps + qs, acc) == r)
    decreases |ps|
  {
    if ps == [] {
      assert ps + qs == qs;
    } else {
      assert (ps + qs)[0] == ps[0] && (ps + qs)[1..] == ps[1..] + qs;
      match ps[0]
      case PixelHit(h) => GatherAppend(ps[1..], qs, acc.Push(h));
      case MaskedOut => GatherAppend(ps[1..], qs, acc);
      case Control => GatherAppend(ps[1..], qs, acc);
      case NotImplemented(_) =>
      case UnknownKind(_) =>
    }
  }

  /** A control record between ps and qs changes nothing. */
  lemma GatherSkipsControl(ps: seq<PacketResult>, qs: seq<PacketResult>, acc: PixelData)
    requires acc.Aligned()
    ensures Gather(ps + [Control] + qs, acc) == Gather(ps + qs, acc)
  {
    assert ps + [Control] + qs == ps + ([Control] + qs);
    GatherAppend(ps, [Control] + qs, acc);
    GatherAppend(ps, qs, acc);
    assert ([Control] + qs)[1..] == qs;
  }

  /** After records that gather cleanly, a record of a kind the loop refuses ends it with that kind's error. */
  lemma GatherStopsAt(ps: seq<PacketResult>, p: PacketResult, qs: seq<PacketResult>, acc: PixelData)
    requires acc.Aligned() && Gather(ps, acc).Ok?
    ensures p.NotImplemented? ==> Gather(ps + [p] + qs, acc) == Err(NotImplementedPacket(p.kind))
    ensures p.UnknownKind? ==> Gather(ps + [p] + qs, acc) == Err(UnknownPacket(p.kind))
  {
    assert ps + [p] + qs == ps + ([p] + qs);
    GatherAppend(ps, [p] + qs, acc);
  }

  /** The record loop from record k reads what the records it has still to read decode to. */
  lemma {:induction false} RecordsAsGather(bytes: seq<bv8>, base: nat, count: nat, k: nat, mask: SpatialMask, corr: seq<int>, acc: PixelData)
    requires k <= count && base + 8 * count <= |bytes| && |corr| == TotCodes && acc.Aligned()
    ensures RecordsFrom(bytes, base, count, k, mask, corr, acc)
         == Gather(Decoded(Records(bytes[base + 8 * k .. base + 8 * count]), mask, corr), acc)
    decreases count - k
  {
    if k == count {
      assert |bytes[base + 8 * k .. base + 8 * count]| == 0;
    } else {
      var p := RecordAt(bytes, base, k);
      var rs := Records(bytes[base + 8 * (k + 1) .. base + 8 * count]);
      var d := DecodePacket(p, mask, corr);
      RecordsOfSlice(bytes, base, count, k);
      DecodedCons(p, rs, mask, corr);
      GatherCons(d, Decoded(rs, mask, corr), acc);
      if !(d.NotImplemented? || d.UnknownKind?) {
        RecordsAsGather(bytes, base, count, k + 1, mask, corr, Step(d, acc));
      }
    }
  }

  /** The hits after a record that does not end the loop. */
  function Step(d: PacketResult, acc: PixelData): (a: PixelData)
    requires acc.Aligned()
    ensures a.Aligned()
  {
    if d.PixelHit? then acc.Push(d.hit) else acc
  }

  /** The records from record k on are record k, then those from record k + 1 on. */
  lemma RecordsOfSlice(bytes: seq<bv8>, base: nat, count: nat, k: nat)
    requires k < count && base + 8 * count <= |bytes|
    ensures Records(bytes[base + 8 * k .. base + 8 * count])
         == [RecordAt(bytes, base, k)] + Records(bytes[base + 8 * (k + 1) .. base + 8 * count])
  {
    var body := bytes[base + 8 * k .. base + 8 * count];
    assert body[..8] == RecordAt(bytes, base, k);
    assert body[8..] == bytes[base + 8 * (k + 1) .. base + 8 * count];
  }

  lemma DecodedCons(p: seq<bv8>, rs: seq<seq<bv8>>, mask: SpatialMask, corr: seq<int>)
    requires |p| == 8 && (forall i :: 0 <= i < |rs| ==> |rs[i]| == 8) && |corr| == TotCodes
    ensures Decoded([p] + rs, mask, corr) == [DecodePacket(p, mask, corr)] + Decoded(rs, mask, corr)
  {
    assert ([p] + rs)[0] == p && ([p] + rs)[1..] == rs;
  }

  /** One step of the loop over decoded records. */
  lemma GatherCons(p: PacketResult, ps: seq<PacketResult>, acc: PixelData)
    requires acc.Aligned()
    ensures p.PixelHit? ==> Gather([p] + ps, acc) == Gather(ps, acc.Push(p.hit))
    ensures p.MaskedOut? || p.Control? ==> Gather([p] + ps, acc) == Gather(ps, acc)
    ensures p.NotImplemented? ==> Gather([p] + ps, acc) == Err(NotImplementedPacket(p.kind))
    ensures p.UnknownKind? ==> Gather([p] + ps, acc) == Err(UnknownPacket(p.kind))
  {
    assert ([p] + ps)[0] == p && ([p] + ps)[1..] == ps;
  }

  /** A one-chunk file of count records decodes as the records of its body, gathered in order. */
  lemma ChunkAsGather(body: seq<bv8>, count: nat, mask: SpatialMask, corr: seq<int>)
    requires |body| == 8 * count && |body| < 0x1_0000 && |corr| == TotCodes
    ensures DecodeFile(ChunkOf(body), mask, corr) == Gather(Decoded(Records(body), mask, corr), EmptyPixelData)
  {
    SingleChunk(body, count, mask, corr);
    ChunkHeader(body);
    assert 8 + 8 * count == 8 + |body|;
    RecordsAsGather(ChunkOf(body), 8, count, 0, mask, corr, EmptyPixelData);
  }

  /** The records of n whole records a, then b, are those of a, then those of b. */
  lemma {:induction false} RecordsAppend(a: seq<bv8>, b: seq<bv8>, n: nat)
    requires |a| == 8 * n
    ensures Records(a + b) == Records(a) + Records(b)
  {
    if n == 0 {
      assert a + b == b;
    } else {
      assert (a + b)[..8] == a[..8] && (a + b)[8..] == a[8..] + b;
      RecordsAppend(a[8..], b, n - 1);
    }
  }

  lemma {:induction false} DecodedAppend(rs: seq<seq<bv8>>, qs: seq<seq<bv8>>, mask: SpatialMask, corr: seq<int>)
    requires (forall i :: 0 <= i < |rs| ==> |rs[i]| == 8) && (forall i :: 0 <= i < |qs| ==> |qs[i]| == 8)
    requires |corr| == TotCodes
    ensures Decoded(rs + qs, mask, corr) == Decoded(rs, mask, corr) + Decoded(qs, mask, corr)
    decreases |rs|
  {
    if rs == [] {
      assert rs + qs == qs;
    } else {
      assert (rs + qs)[0] == rs[0] && (rs + qs)[1..] == rs[1..] + qs;
      DecodedAppend(rs[1..], qs, mask, corr);
    }
  }

  /** The records of pre + r + rest are those of pre, then r, then those of rest. */
  lemma RecordsAround(pre: seq<bv8>, r: seq<bv8>, rest: seq<bv8>, n: nat)
    requires |pre| == 8 * n && |r| == 8
    ensures Records(pre + r + rest) == Records(pre) + [r] + Records(rest)
    ensures Records(pre + rest) == Records(pre) + Records(rest)
  {
    RecordsAppend(pre, r, n);
    RecordsAppend(pre + r, rest, n + 1);
    RecordsAppend(pre, rest, n);
    assert r[..8] == r && |r[8..]| == 0;
    assert Records(r) == [r];
  }

  /** Decoding rs + [p] + qs decodes rs, then p, then qs. */
  lemma DecodedAround(rs: seq<seq<bv8>>, p: seq<bv8>, qs: seq<seq<bv8>>, mask: SpatialMask, corr: seq<int>)
    requires (forall i :: 0 <= i < |rs| ==> |rs[i]| == 8) && |p| == 8 && (forall i :: 0 <= i < |qs| ==> |qs[i]| == 8)
    requires |corr| == TotCodes
    ensures Decoded(rs + [p] + qs, mask, corr) == Decoded(rs, mask, corr) + [DecodePacket(p, mask, corr)] + Decoded(qs, mask, corr)
  {
    DecodedAppend(rs + [p], qs, mask, corr);
    DecodedAppend(rs, [p], mask, corr);
  }

  /**
   * After whole records pre that decode cleanly as a chunk of their own, a
   * record of kind 0x4 or 0x6 stops the import with the not-implemented
   * error, and one of any kind other than 0x4, 0x6, 0x7 and 0xB with the
   * unknown-packet error, whatever follows.
   */
  lemma BadRecordFails(pre: seq<bv8>, r: seq<bv8>, rest: seq<bv8>, mask: SpatialMask, corr: seq<int>)
    requires |pre| % 8 == 0 && |r| == 8 && |rest| % 8 == 0 && |pre| + 8 + |rest| < 0x1_0000 && |corr| == TotCodes
    requires DecodeFile(ChunkOf(pre), mask, corr).Ok?
    ensures PacketKind(r) == 0x4 || PacketKind(r) == 0x6 ==>
      DecodeFile(ChunkOf(pre + r + rest), mask, corr) == Err(NotImplementedPacket(PacketKind(r)))
    ensures PacketKind(r) !in {0x4, 0x6, 0x7, 0xB} ==>
      DecodeFile(ChunkOf(pre + r + rest), mask, corr) == Err(UnknownPacket(PacketKind(r)))
  {
    var n, m := |pre| / 8, |rest| / 8;
    ChunkAsGather(pre, n, mask, corr);
    ChunkAsGather(pre + r + rest, n + m + 1, mask, corr);
    RecordsAround(pre, r, rest, n);
    DecodedAround(Records(pre), r, Records(rest), mask, corr);
    GatherStopsAt(Decoded(Records(pre), mask, corr), DecodePacket(r, mask, corr), Decoded(Records(rest), mask, corr), EmptyPixelData);
  }

  /** A control record (kind 0x7) after whole records pre decodes as if it were absent, whatever follows. */
  lemma ControlRecordSkipped(pre: seq<bv8>, r: seq<bv8>, rest: seq<bv8>, mask: SpatialMask, corr: seq<int>)
    requires |pre| % 8 == 0 && |r| == 8 && PacketKind(r) == 0x7
    requires |rest| % 8 == 0 && |pre| + 8 + |rest| < 0x1_0000 && |corr| == TotCodes
    ensures DecodeFile(ChunkOf(pre + r + rest), mask, corr) == DecodeFile(ChunkOf(pre + rest), mask, corr)
  {
    var n, m := |pre| / 8, |rest| / 8;
    ChunkAsGather(pre + r + rest, n + m + 1, mask, corr);
    ChunkAsGather(pre + rest, n + m, mask, corr);
    RecordsAround(pre, r, rest, n);
    DecodedAround(Records(pre), r, Records(rest), mask, corr);
    DecodedAppend(Records(pre), Records(rest), mask, corr);
    GatherSkipsControl(Decoded(Records(pre), mask, corr), Decoded(Records(rest), mask, corr), EmptyPixelData);
  }
}
