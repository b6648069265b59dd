/** The .vdb file: header codec, whole-file writing and loading. */
module VdbFormat {
  import opened Basics
  import opened Bytes

  const HEADER_SIZE: nat := 512
  const VERSION: u32 := 1
  const FLOAT_SIZE: nat := 4

  /** "VECDBFS1" */
  const MAGIC: seq<byte> := [0x56, 0x45, 0x43, 0x44, 0x42, 0x46, 0x53, 0x31]

  datatype Header = Header(
    version: u32, dim: u32, count: u32, hashSeed: u32, metric: u16, indexType: u16,
    vectorsOff: u64, vectorsSize: u64, payloadOff: u64, payloadSize: u64,
    idmapOff: u64, idmapSize: u64, idfOff: u64, idfSize: u64)

  /** A float32 as the four bytes it has in memory; its arithmetic is not modelled. */
  type Float = f: seq<byte> | |f| == FLOAT_SIZE witness [0, 0, 0, 0]

  /** A payload: the characters of a C string. */
  type Text = t: seq<byte> | 0 !in t

  // ---------- the header ----------

  /** The 32 bytes up to the region fields. */
  function EncodeFixed(h: Header): (b: seq<byte>)
    ensures |b| == 32
  {
    MAGIC + Be32(h.version) + Be16(HEADER_SIZE) + Be16(h.metric) + Be16(h.indexType) + [0, 0]
    + Be32(h.dim) + Be32(h.count) + Be32(h.hashSeed)
  }

  function EncodeRegions(h: Header): (b: seq<byte>)
    ensures |b| == 64
  {
    Be64(h.vectorsOff) + Be64(h.vectorsSize) + Be64(h.payloadOff) + Be64(h.payloadSize)
    + Be64(h.idmapOff) + Be64(h.idmapSize) + Be64(h.idfOff) + Be64(h.idfSize)
  }

  function EncodeHeader(h: Header): (b: seq<byte>)
    ensures |b| == HEADER_SIZE
  {
    EncodeFixed(h) + EncodeRegions(h) + Zeros(HEADER_SIZE - 96)
  }

  function DecodeHeader(b: seq<byte>): Option<Header>
    requires |b| == HEADER_SIZE
  {
    if b[0..8] != MAGIC || FromBe16(b[12..14]) != HEADER_SIZE then None else
    Some(Header(FromBe32(b[8..12]), FromBe32(b[20..24]), FromBe32(b[24..28]), FromBe32(b[28..32]),
                FromBe16(b[14..16]), FromBe16(b[16..18]),
                FromBe64(b[32..40]), FromBe64(b[40..48]), FromBe64(b[48..56]), FromBe64(b[56..64]),
                FromBe64(b[64..72]), FromBe64(b[72..80]), FromBe64(b[80..88]), FromBe64(b[88..96])))
  }

  lemma FixedFields(h: Header)
    ensures var f := EncodeFixed(h);
            && f[0..8] == MAGIC && f[8..12] == Be32(h.version) && f[12..14] == Be16(HEADER_SIZE)
            && f[14..16] == Be16(h.metric) && f[16..18] == Be16(h.indexType)
            && f[20..24] == Be32(h.dim) && f[24..28] == Be32(h.count) && f[28..32] == Be32(h.hashSeed)
  {
  }

  lemma RegionFields(h: Header)
    ensures var r := EncodeRegions(h);
            && r[0..8] == Be64(h.vectorsOff) && r[8..16] == Be64(h.vectorsSize)
            && r[16..24] == Be64(h.payloadOff) && r[24..32] == Be64(h.payloadSize)
            && r[32..40] == Be64(h.idmapOff) && r[40..48] == Be64(h.idmapSize)
            && r[48..56] == Be64(h.idfOff) && r[56..64] == Be64(h.idfSize)
  {
  }

  lemma WindowInside(a: seq<byte>, b: seq<byte>, c: seq<byte>, lo: nat, hi: nat)
    requires lo < hi
    ensures hi <= |a| ==> (a + b + c)[lo..hi] == a[lo..hi]
    ensures |a| <= lo && hi <= |a| + |b| ==> (a + b + c)[lo..hi] == b[lo - |a|..hi - |a|]
  {
    if hi <= |a| {
      WindowLeft(a, b, lo, hi);
      WindowLeft(a + b, c, lo, hi);
    } else if |a| <= lo && hi <= |a| + |b| {
      WindowRight(a, b, lo, hi);
      WindowLeft(a + b, c, lo, hi);
    }
  }

  lemma WindowLeft(a: seq<byte>, b: seq<byte>, lo: nat, hi: nat)
    requires lo <= hi <= |a|
    ensures (a + b)[lo..hi] == a[lo..hi]
  {
  }

  lemma WindowRight(a: seq<byte>, b: seq<byte>, lo: nat, hi: nat)
    requires |a| <= lo <= hi <= |a| + |b|
    ensures (a + b)[lo..hi] == b[lo - |a|..hi - |a|]
  {
  }

  /** decode_header inverts encode_header. */
  lemma HeaderRoundTrip(h: Header)
    ensures DecodeHeader(EncodeHeader(h)) == Some(h)
  {
    FixedWindows(h);
    RegionWindows(h);
    Be16RoundTrip(HEADER_SIZE);
    Be16RoundTrip(h.metric);
    Be16RoundTrip(h.indexType);
    Be32RoundTrip(h.version);
    Be32RoundTrip(h.dim);
    Be32RoundTrip(h.count);
    Be32RoundTrip(h.hashSeed);
    Be64RoundTrip(h.vectorsOff);
    Be64RoundTrip(h.vectorsSize);
    Be64RoundTrip(h.payloadOff);
    Be64RoundTrip(h.payloadSize);
    Be64RoundTrip(h.idmapOff);
    Be64RoundTrip(h.idmapSize);
    Be64RoundTrip(h.idfOff);
    Be64RoundTrip(h.idfSize);
  }

  lemma FixedWindows(h: Header)
    ensures var b := EncodeHeader(h);
            && b[0..8] == MAGIC && b[8..12] == Be32(h.version) && b[12..14] == Be16(HEADER_SIZE)
            && b[14..16] == Be16(h.metric) && b[16..18] == Be16(h.indexType)
            && b[20..24] == Be32(h.dim) && b[24..28] == Be32(h.count) && b[28..32] == Be32(h.hashSeed)
  {
    FixedFields(h);
    var f, r, z := EncodeFixed(h), EncodeRegions(h), Zeros(HEADER_SIZE - 96);
    WindowInside(f, r, z, 0, 8);
    WindowInside(f, r, z, 8, 12);
    WindowInside(f, r, z, 12, 14);
    WindowInside(f, r, z, 14, 16);
    WindowInside(f, r, z, 16, 18);
    WindowInside(f, r, z, 20, 24);
    WindowInside(f, r, z, 24, 28);
    WindowInside(f, r, z, 28, 32);
  }

  lemma RegionWindows(h: Header)
    ensures var b := EncodeHeader(h);
            && b[32..40] == Be64(h.vectorsOff) && b[40..48] == Be64(h.vectorsSize)
            && b[48..56] == Be64(h.payloadOff) && b[56..64] == Be64(h.payloadSize)
            && b[64..72] == Be64(h.idmapOff) && b[72..80] == Be64(h.idmapSize)
            && b[80..88] == Be64(h.idfOff) && b[88..96] == Be64(h.idfSize)
  {
    RegionFields(h);
    var f, r, z := EncodeFixed(h), EncodeRegions(h), Zeros(HEADER_SIZE - 96);
    WindowInside(f, r, z, 32, 40);
    WindowInside(f, r, z, 40, 48);
    WindowInside(f, r, z, 48, 56);
    WindowInside(f, r, z, 56, 64);
    WindowInside(f, r, z, 64, 72);
    WindowInside(f, r, z, 72, 80);
    WindowInside(f, r, z, 80, 88);
    WindowInside(f, r, z, 88, 96);
  }

  /** Which byte of the header holds what. */
  lemma HeaderBytes(h: Header)
    ensures var b := EncodeHeader(h);
            && (forall i | 0 <= i < 8 :: b[i] == "VECDBFS1"[i] as int)
            && b[8..12] == Be32(h.version) && b[12..14] == [2, 0]
            && b[14..16] == Be16(h.metric) && b[16..18] == Be16(h.indexType) && b[18..20] == [0, 0]
            && b[20..24] == Be32(h.dim) && b[24..28] == Be32(h.count) && b[28..32] == Be32(h.hashSeed)
            && b[32..40] == Be64(h.vectorsOff) && b[40..48] == Be64(h.vectorsSize)
            && b[48..56] == Be64(h.payloadOff) && b[56..64] == Be64(h.payloadSize)
            && b[64..72] == Be64(h.idmapOff) && b[72..80] == Be64(h.idmapSize)
            && b[80..88] == Be64(h.idfOff) && b[88..96] == Be64(h.idfSize)
            && forall i | 96 <= i < 512 :: b[i] == 0
  {
    hide Be32, Be64, EncodeRegions;
    FixedWindows(h);
    RegionWindows(h);
    var b := EncodeHeader(h);
    WindowInside(EncodeFixed(h), EncodeRegions(h), Zeros(HEADER_SIZE - 96), 18, 20);
    assert b[18..20] == EncodeFixed(h)[18..20] == [0, 0];
    forall i | 0 <= i < 8 ensures b[i] == "VECDBFS1"[i] as int {
      assert b[i] == b[0..8][i];
    }
  }

  /** Only a file that begins with the magic, version 1 and header size 512 loads. */
  lemma LoadRequires(f: seq<byte>)
    ensures Load(f).Some? ==>
              && |f| >= 512
              && (forall i | 0 <= i < 8 :: f[i] == "VECDBFS1"[i] as int)
              && Worth(f[8..12]) == 1 && Worth(f[12..14]) == 512
  {
    hide FromBe16, FromBe32, FromBe64, Worth, ReadVectors, ReadPayloads, ReadFloats;
    if Load(f).Some? {
      var b := f[..HEADER_SIZE];
      assert b[0..8] == MAGIC;
      forall i | 0 <= i < 8 ensures f[i] == "VECDBFS1"[i] as int {
        assert f[i] == b[0..8][i];
      }
      assert b[8..12] == f[8..12] && b[12..14] == f[12..14];
      ReadsBigEndian(f[8..12]);
      ReadsBigEndian(f[12..14]);
    }
  }

  // ---------- the whole store ----------

  datatype Store = Store(hdr: Header, vectors: seq<seq<Float>>, payloads: seq<Text>, idf: Option<seq<Float>>)

  function FloatBytes(v: seq<Float>): (b: seq<byte>)
    ensures |b| == Span(FLOAT_SIZE, |v|)
  {
    if v == [] then [] else FloatBytes(v[..|v| - 1]) + v[|v| - 1]
  }

  function VectorBytes(rows: seq<seq<Float>>): seq<byte> {
    if rows == [] then [] else FloatBytes(rows[0]) + VectorBytes(rows[1..])
  }

  function PayloadBytes(ps: seq<Text>): seq<byte> {
    if ps == [] then [] else Be32(|ps[0]| % 0x1_0000_0000) + ps[0] + PayloadBytes(ps[1..])
  }

  function IdfBytes(idf: Option<seq<Float>>): seq<byte> {
    match idf case Some(w) => FloatBytes(w) case None => []
  }

  function Wrap64(n: nat): u64 { n % 0x1_0000_0000_0000_0000 }

  /** The header vdb_write records: the count and where each region lies. */
  function LaidOut(d: Store): Header {
    var vs := Span(Span(FLOAT_SIZE, d.hdr.dim), |d.payloads|);
    var ps := |PayloadBytes(d.payloads)|;
    d.hdr.(count := |d.payloads| % 0x1_0000_0000,
           vectorsOff := HEADER_SIZE, vectorsSize := Wrap64(vs),
           payloadOff := Wrap64(HEADER_SIZE + vs), payloadSize := Wrap64(ps),
           idmapOff := 0, idmapSize := 0,
           idfOff := if d.idf.Some? then Wrap64(HEADER_SIZE + vs + ps) else 0,
           idfSize := if d.idf.Some? then Wrap64(Span(FLOAT_SIZE, d.hdr.dim)) else 0)
  }

  /** The bytes vdb_write leaves in the file. */
  function FileOf(d: Store): seq<byte> {
    EncodeHeader(LaidOut(d)) + VectorBytes(d.vectors) + PayloadBytes(d.payloads) + IdfBytes(d.idf)
  }

  // ---------- reading, front to back ----------

  /** A successful read: what was read, and the rest of the file. */
  datatype Read<+T> = Read(value: T, rest: seq<byte>)

  function ReadFloats(b: seq<byte>, n: nat): (r: Option<Read<seq<Float>>>)
    ensures r.Some? ==> |r.value.value| == n
  {
    if n == 0 then Some(Read([], b))
    else match ReadFloats(b, n - 1)
      case None => None
      case Some(r) =>
        if |r.rest| < FLOAT_SIZE then None
        else Some(Read(r.value + [r.rest[..FLOAT_SIZE]], r.rest[FLOAT_SIZE..]))
  }

  function ReadVectors(b: seq<byte>, dim: nat, n: nat): Option<Read<seq<seq<Float>>>>
    decreases n
  {
    if n == 0 then Some(Read([], b)) else
    match ReadFloats(b, dim)
    case None => None
    case Some(row) =>
      match ReadVectors(row.rest, dim, n - 1)
      case None => None
      case Some(rows) => Some(Read([row.value] + rows.value, rows.rest))
  }

  /** Each payload: a big-endian length and that many bytes, kept as a C string. */
  function ReadPayloads(b: seq<byte>, n: nat): Option<Read<seq<Text>>>
    decreases n
  {
    if n == 0 then Some(Read([], b))
    else if |b| < 4 then None else
    var len := FromBe32(b[..4]);
    if |b| < 4 + len then None else
    match ReadPayloads(b[4 + len..], n - 1)
    case None => None
    case Some(ps) => Some(Read([CString(b[4..4 + len])] + ps.value, ps.rest))
  }

  /** vdb_load. */
  function Load(file: seq<byte>): Option<Store> {
    if |file| < HEADER_SIZE then None else
    var h := DecodeHeader(file[..HEADER_SIZE]);
    if h.None? || h.value.version != VERSION then None else
    var hdr := h.value;
    if hdr.count == 0 then Some(Store(hdr, [], [], None)) else
    match ReadVectors(file[HEADER_SIZE..], hdr.dim, hdr.count)
    case None => None
    case Some(vs) =>
      match ReadPayloads(vs.rest, hdr.count)
      case None => None
      case Some(ps) =>
        if hdr.idfSize != Span(FLOAT_SIZE, hdr.dim) then Some(Store(hdr, vs.value, ps.value, None)) else
        match ReadFloats(ps.rest, hdr.dim)
        case None => None
        case Some(idf) => Some(Store(hdr, vs.value, ps.value, Some(idf.value)))
  }
}
