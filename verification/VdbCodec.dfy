/** Loading inverts writing, exactly when it does; no strict prefix loads; the
    recorded regions tile the file. */
module VdbCodec {
  import opened Basics
  import opened Bytes
  import opened VdbFormat

  // ---------- reading what was written ----------

  lemma {:induction false} ReadFloatsBack(v: seq<Float>, tail: seq<byte>)
    ensures ReadFloats(FloatBytes(v) + tail, |v|) == Some(Read(v, tail))
  {
    if v == [] {
      assert FloatBytes(v) + tail == tail;
    } else {
      var init, last := v[..|v| - 1], v[|v| - 1];
      ReadFloatsBack(init, last + tail);
      assert FloatBytes(v) + tail == FloatBytes(init) + (last + tail);
      assert (last + tail)[..FLOAT_SIZE] == last && (last + tail)[FLOAT_SIZE..] == tail;
      assert v == init + [last];
    }
  }

  ghost predicate Rows(vs: seq<seq<Float>>, dim: nat) {
    forall i | 0 <= i < |vs| :: |vs[i]| == dim
  }

  lemma {:induction false} ReadVectorsBack(vs: seq<seq<Float>>, dim: nat, tail: seq<byte>)
    requires Rows(vs, dim)
    ensures ReadVectors(VectorBytes(vs) + tail, dim, |vs|) == Some(Read(vs, tail))
    decreases |vs|
  {
    if vs == [] {
      assert VectorBytes(vs) + tail == tail;
    } else {
      ReadVectorsBack(vs[1..], dim, tail);
      ReadFloatsBack(vs[0], VectorBytes(vs[1..]) + tail);
      assert VectorBytes(vs) + tail == FloatBytes(vs[0]) + (VectorBytes(vs[1..]) + tail);
      assert vs == [vs[0]] + vs[1..];
    }
  }

  ghost predicate Short(ps: seq<Text>) {
    forall i | 0 <= i < |ps| :: |ps[i]| < 0x1_0000_0000
  }

  lemma {:induction false} CStringOfText(t: Text)
    ensures CString(t) == t
  {
    CStringOfPadded(t, 0);
    assert t + Zeros(0) == t;
  }

  lemma {:induction false} ReadPayloadsBack(ps: seq<Text>, tail: seq<byte>)
    requires Short(ps)
    ensures ReadPayloads(PayloadBytes(ps) + tail, |ps|) == Some(Read(ps, tail))
    decreases |ps|
  {
    if ps == [] {
      assert PayloadBytes(ps) + tail == tail;
    } else {
      ReadPayloadsBack(ps[1..], tail);
      ReadPayloadsCons(ps, tail);
    }
  }

  lemma ReadPayloadsCons(ps: seq<Text>, tail: seq<byte>)
    requires Short(ps) && ps != []
    requires ReadPayloads(PayloadBytes(ps[1..]) + tail, |ps| - 1) == Some(Read(ps[1..], tail))
    ensures ReadPayloads(PayloadBytes(ps) + tail, |ps|) == Some(Read(ps, tail))
  {
    hide Be32, ReadPayloads;
    var p, more := ps[0], PayloadBytes(ps[1..]);
    ReadPayloadsStep(p, more + tail, |ps| - 1);
    Regroup(Be32(|p|) + p, more, tail);
    assert ps == [p] + ps[1..];
  }

  lemma Regroup(a: seq<byte>, b: seq<byte>, c: seq<byte>)
    ensures a + b + c == a + (b + c)
  {
  }

  lemma ReadPayloadsStep(p: Text, more: seq<byte>, n: nat)
    requires |p| < 0x1_0000_0000 && ReadPayloads(more, n).Some?
    ensures ReadPayloads(Be32(|p|) + p + more, n + 1)
         == Some(Read([p] + ReadPayloads(more, n).value.value, ReadPayloads(more, n).value.rest))
  {
    hide CString, Be32, FromBe32;
    FirstPayload(p, more);
  }

  lemma FirstPayload(p: Text, more: seq<byte>)
    requires |p| < 0x1_0000_0000
    ensures var b := Be32(|p|) + p + more;
            && FromBe32(b[..4]) == |p| && b[4..4 + |p|] == p && b[4 + |p|..] == more
            && CString(b[4..4 + |p|]) == p
  {
    var b := Be32(|p|) + p + more;
    assert b[..4] == Be32(|p|) && b[4..4 + |p|] == p;
    Be32RoundTrip(|p|);
    CStringOfText(p);
  }

  // ---------- short files ----------

  lemma {:induction false} ReadFloatsNeeds(b: seq<byte>, n: nat)
    ensures ReadFloats(b, n).Some? <==> |b| >= Span(FLOAT_SIZE, n)
    ensures ReadFloats(b, n).Some? ==> ReadFloats(b, n).value.rest == b[Span(FLOAT_SIZE, n)..]
  {
    if n > 0 {
      ReadFloatsNeeds(b, n - 1);
    }
  }

  lemma {:induction false} ReadVectorsNeeds(b: seq<byte>, dim: nat, n: nat)
    ensures ReadVectors(b, dim, n).Some? <==> |b| >= Span(Span(FLOAT_SIZE, dim), n)
    ensures ReadVectors(b, dim, n).Some? ==>
              ReadVectors(b, dim, n).value.rest == b[Span(Span(FLOAT_SIZE, dim), n)..]
    decreases n
  {
    if n > 0 {
      ReadFloatsNeeds(b, dim);
      var row := Span(FLOAT_SIZE, dim);
      if |b| >= row {
        ReadVectorsNeeds(b[row..], dim, n - 1);
      }
    }
  }

  lemma {:induction false} VectorBytesSize(vs: seq<seq<Float>>, dim: nat)
    requires Rows(vs, dim)
    ensures |VectorBytes(vs)| == Span(Span(FLOAT_SIZE, dim), |vs|)
    decreases |vs|
  {
    if vs != [] {
      VectorBytesSize(vs[1..], dim);
    }
  }

  /** A strict prefix of the payload region cannot be read as that many payloads. */
  lemma {:induction false} PayloadsCutShort(ps: seq<Text>, n: nat)
    requires Short(ps) && n < |PayloadBytes(ps)|
    ensures ReadPayloads(PayloadBytes(ps)[..n], |ps|).None?
    decreases |ps|
  {
    hide Be32, ReadPayloads;
    var p, more := ps[0], PayloadBytes(ps[1..]);
    if n >= 4 + |p| {
      PayloadsCutShort(ps[1..], n - 4 - |p|);
    }
    FirstCutShort(p, more, n, |ps| - 1);
  }

  lemma FirstCutShort(p: Text, more: seq<byte>, n: nat, k: nat)
    requires |p| < 0x1_0000_0000 && n < 4 + |p| + |more|
    requires n >= 4 + |p| ==> ReadPayloads(more[..n - 4 - |p|], k).None?
    ensures ReadPayloads((Be32(|p|) + p + more)[..n], k + 1).None?
  {
    hide CString, Be32, FromBe32;
    var b := Be32(|p|) + p + more;
    FirstPayload(p, more);
    if n >= 4 {
      assert b[..n][..4] == b[..4];
    }
    if n >= 4 + |p| {
      assert b[..n][4 + |p|..] == more[..n - 4 - |p|];
    }
  }

  // ---------- round trip ----------

  /** What the program keeps in memory: one payload and one row per record. */
  ghost predicate InMemory(d: Store) {
    && d.hdr.version == VERSION
    && |d.vectors| == |d.payloads| < 0x1_0000_0000
    && Rows(d.vectors, d.hdr.dim) && Short(d.payloads)
    && (d.idf.Some? ==> |d.idf.value| == d.hdr.dim)
  }

  /** The states in which the file says all there is: no weights without records,
      and no records of dimension zero without weights. */
  predicate Recordable(d: Store) {
    && (d.payloads == [] ==> d.idf.None?)
    && (d.payloads != [] && d.hdr.dim == 0 ==> d.idf.Some?)
  }

  lemma IdfSizeFits(dim: u32)
    ensures Wrap64(Span(FLOAT_SIZE, dim)) == Span(FLOAT_SIZE, dim)
    ensures Span(FLOAT_SIZE, dim) == 0 <==> dim == 0
  {
    SpanIsProduct(FLOAT_SIZE, dim);
  }

  lemma FileParts(d: Store)
    ensures var f := FileOf(d);
            var body := VectorBytes(d.vectors) + (PayloadBytes(d.payloads) + IdfBytes(d.idf));
            && |f| == HEADER_SIZE + |body|
            && f[..HEADER_SIZE] == EncodeHeader(LaidOut(d)) && f[HEADER_SIZE..] == body
  {
    hide EncodeHeader, VectorBytes, PayloadBytes, IdfBytes, LaidOut;
    var vecs, pays, wts := VectorBytes(d.vectors), PayloadBytes(d.payloads), IdfBytes(d.idf);
    var e := EncodeHeader(LaidOut(d));
    assert FileOf(d) == e + (vecs + (pays + wts));
  }

  /** vdb_load of what vdb_write wrote. */
  lemma LoadOfFile(d: Store)
    requires InMemory(d)
    ensures Load(FileOf(d))
         == Some(if d.payloads == [] then Store(LaidOut(d), [], [], None)
                 else if d.idf.None? && d.hdr.dim == 0 then Store(LaidOut(d), d.vectors, d.payloads, Some([]))
                 else d.(hdr := LaidOut(d)))
  {
    hide EncodeHeader, DecodeHeader, FileOf;
    FileParts(d);
    HeaderRoundTrip(LaidOut(d));
    if d.payloads != [] {
      LoadOfBody(d, FileOf(d));
    }
  }

  lemma LoadOfBody(d: Store, f: seq<byte>)
    requires InMemory(d) && d.payloads != []
    requires |f| >= HEADER_SIZE && DecodeHeader(f[..HEADER_SIZE]) == Some(LaidOut(d))
    requires f[HEADER_SIZE..] == VectorBytes(d.vectors) + (PayloadBytes(d.payloads) + IdfBytes(d.idf))
    ensures Load(f)
         == Some(if d.idf.None? && d.hdr.dim == 0 then Store(LaidOut(d), d.vectors, d.payloads, Some([]))
                 else d.(hdr := LaidOut(d)))
  {
    hide DecodeHeader, VectorBytes, PayloadBytes, IdfBytes, Load, Rows, Short, Span, LaidOut;
    hide ReadVectors, ReadPayloads, ReadFloats;
    IdfSizeFits(d.hdr.dim);
    LaidOutFields(d);
    ReadVectorsBack(d.vectors, d.hdr.dim, PayloadBytes(d.payloads) + IdfBytes(d.idf));
    ReadPayloadsBack(d.payloads, IdfBytes(d.idf));
    LoadUnfolds(f, LaidOut(d), d.vectors, d.payloads, PayloadBytes(d.payloads) + IdfBytes(d.idf), IdfBytes(d.idf));
    ReadIdfBack(d.idf);
  }

  lemma LaidOutFields(d: Store)
    requires InMemory(d)
    ensures var h := LaidOut(d);
            && h.version == VERSION && h.dim == d.hdr.dim && h.count == |d.payloads|
            && h.idfSize == if d.idf.Some? then Wrap64(Span(FLOAT_SIZE, d.hdr.dim)) else 0
  {
    hide Span, Rows, Short, Wrap64;
  }

  lemma ReadIdfBack(idf: Option<seq<Float>>)
    ensures idf.Some? ==> ReadFloats(IdfBytes(idf), |idf.value|) == Some(Read(idf.value, []))
    ensures ReadFloats(IdfBytes(idf), 0).Some? && ReadFloats(IdfBytes(idf), 0).value.value == []
  {
    if idf.Some? {
      ReadFloatsBack(idf.value, []);
      assert FloatBytes(idf.value) + [] == FloatBytes(idf.value);
    }
  }

  lemma LoadUnfolds(f: seq<byte>, h: Header, vs: seq<seq<Float>>, ps: seq<Text>, rest: seq<byte>, last: seq<byte>)
    requires |f| >= HEADER_SIZE && DecodeHeader(f[..HEADER_SIZE]) == Some(h)
    requires h.version == VERSION && h.count > 0
    requires ReadVectors(f[HEADER_SIZE..], h.dim, h.count) == Some(Read(vs, rest))
    requires ReadPayloads(rest, h.count) == Some(Read(ps, last))
    ensures Load(f)
         == if h.idfSize != Span(FLOAT_SIZE, h.dim) then Some(Store(h, vs, ps, None))
            else match ReadFloats(last, h.dim)
                 case None => None
                 case Some(idf) => Some(Store(h, vs, ps, Some(idf.value)))
  {
    hide DecodeHeader, ReadVectors, ReadPayloads, ReadFloats, Span;
  }

  /** Writing and loading is the identity, up to the layout fields the write
      records, exactly for the recordable states. */
  lemma RoundTripIff(d: Store)
    requires InMemory(d)
    ensures Load(FileOf(d)) == Some(d.(hdr := LaidOut(d))) <==> Recordable(d)
  {
    LoadOfFile(d);
  }

  /** Weights kept without records are written but not loaded again, and the file
      loads just the same when they are cut off. */
  lemma WeightsWithoutRecordsAreLost(w: Float)
    ensures var d := Store(Header(VERSION, 1, 0, 0, 0, 0, 0, 0, 0, 0, 0, 0, 0, 0), [], [], Some([w]));
            && Load(FileOf(d)) == Some(Store(LaidOut(d), [], [], None))
            && HEADER_SIZE < |FileOf(d)| && Load(FileOf(d)[..HEADER_SIZE]) == Load(FileOf(d))
  {
    hide FileOf, Load, LaidOut;
    var d := Store(Header(VERSION, 1, 0, 0, 0, 0, 0, 0, 0, 0, 0, 0, 0, 0), [], [], Some([w]));
    LoadOfFile(d);
    HeaderAloneLoads(d);
  }

  /** Every strict prefix of a written file is rejected, if and only if the store
      does not keep weights of some dimension without having records. */
  lemma TruncationDetectedIff(d: Store)
    requires InMemory(d)
    ensures (forall n | 0 <= n < |FileOf(d)| :: Load(FileOf(d)[..n]).None?)
        <==> (d.payloads == [] && d.idf.Some? ==> d.hdr.dim == 0)
  {
    hide EncodeHeader, FileOf, Load, InMemory;
    FileParts(d);
    if d.payloads == [] && d.idf.Some? && d.hdr.dim > 0 {
      HeaderAloneLoads(d);
    } else {
      forall n | 0 <= n < |FileOf(d)| ensures Load(FileOf(d)[..n]).None? {
        PrefixRejected(d, n);
      }
    }
  }

  lemma PrefixRejected(d: Store, n: nat)
    requires InMemory(d) && n < |FileOf(d)|
    requires d.payloads == [] && d.idf.Some? ==> d.hdr.dim == 0
    ensures Load(FileOf(d)[..n]).None?
  {
    hide EncodeHeader, DecodeHeader, FileOf, LaidOut;
    FileParts(d);
    assert d.payloads == [] ==> |FileOf(d)| == HEADER_SIZE;
    if d.payloads != [] && n >= HEADER_SIZE {
      HeaderRoundTrip(LaidOut(d));
      var f := FileOf(d);
      assert f[..n][..HEADER_SIZE] == f[..HEADER_SIZE];
      assert f[..n][HEADER_SIZE..] == f[HEADER_SIZE..][..n - HEADER_SIZE];
      BodyCutShort(d, f[..n], n - HEADER_SIZE);
    }
  }

  /** The header of a store without records loads without what follows it. */
  lemma HeaderAloneLoads(d: Store)
    requires InMemory(d) && d.payloads == [] && d.idf.Some? && d.hdr.dim > 0
    ensures HEADER_SIZE < |FileOf(d)| && Load(FileOf(d)[..HEADER_SIZE]) == Some(Store(LaidOut(d), [], [], None))
  {
    hide EncodeHeader, DecodeHeader, FileOf;
    FileParts(d);
    IdfSizeFits(d.hdr.dim);
    HeaderRoundTrip(LaidOut(d));
    var f := FileOf(d)[..HEADER_SIZE];
    assert f[..HEADER_SIZE] == f;
  }

  lemma BodyCutShort(d: Store, f: seq<byte>, n: nat)
    requires InMemory(d) && d.payloads != []
    requires |f| == HEADER_SIZE + n && DecodeHeader(f[..HEADER_SIZE]) == Some(LaidOut(d))
    requires var body := VectorBytes(d.vectors) + (PayloadBytes(d.payloads) + IdfBytes(d.idf));
             n < |body| && f[HEADER_SIZE..] == body[..n]
    ensures Load(f).None?
  {
    hide DecodeHeader, PayloadBytes, ReadPayloads, ReadVectors, ReadFloats, VectorBytes, FloatBytes;
    var vecs, pays, wts := VectorBytes(d.vectors), PayloadBytes(d.payloads), IdfBytes(d.idf);
    var dim, count := d.hdr.dim, |d.payloads|;
    VectorBytesSize(d.vectors, dim);
    ReadVectorsNeeds(f[HEADER_SIZE..], dim, count);
    IdfSizeFits(dim);
    if n >= |vecs| {
      var m := n - |vecs|;
      var rest := f[HEADER_SIZE..][|vecs|..];
      assert rest == (pays + wts)[..m];
      if m < |pays| {
        assert rest == pays[..m];
        PayloadsCutShort(d.payloads, m);
      } else {
        assert rest == pays + wts[..m - |pays|];
        ReadPayloadsBack(d.payloads, wts[..m - |pays|]);
        ReadFloatsNeeds(wts[..m - |pays|], dim);
      }
    }
  }

  /** When the sizes fit 64 bits, the recorded regions lie back to back: vectors
      behind the header, payloads behind them, weights last, up to the file's end. */
  lemma RegionsTileFile(d: Store)
    requires InMemory(d) && |FileOf(d)| < 0x1_0000_0000_0000_0000
    ensures var h, f := LaidOut(d), FileOf(d);
            && h.vectorsOff == HEADER_SIZE && h.vectorsOff + h.vectorsSize == h.payloadOff
            && (if d.idf.Some? then h.payloadOff + h.payloadSize == h.idfOff && h.idfOff + h.idfSize == |f|
                else h.payloadOff + h.payloadSize == |f| && h.idfOff == h.idfSize == 0)
            && f[h.vectorsOff..h.payloadOff] == VectorBytes(d.vectors)
            && f[h.payloadOff..h.payloadOff + h.payloadSize] == PayloadBytes(d.payloads)
            && (d.idf.Some? ==> f[h.idfOff..h.idfOff + h.idfSize] == FloatBytes(d.idf.value))
            && h.count == |d.payloads| && h.idmapOff == h.idmapSize == 0
  {
    hide EncodeHeader, VectorBytes, PayloadBytes, FloatBytes, FileOf, Rows, Short, Span, Wrap64;
    VectorBytesSize(d.vectors, d.hdr.dim);
    IdfSizeFits(d.hdr.dim);
    FileParts(d);
    NoWrap(|VectorBytes(d.vectors)|);
    NoWrap(HEADER_SIZE + |VectorBytes(d.vectors)|);
    NoWrap(|PayloadBytes(d.payloads)|);
    NoWrap(HEADER_SIZE + |VectorBytes(d.vectors)| + |PayloadBytes(d.payloads)|);
    MiddleParts(FileOf(d), VectorBytes(d.vectors), PayloadBytes(d.payloads), IdfBytes(d.idf));
  }

  /** Rows one after another, and the components of each in order: four bytes apiece. */
  lemma {:induction false} VectorBytesAt(vs: seq<seq<Float>>, dim: nat, i: nat, j: nat)
    requires Rows(vs, dim) && i < |vs| && j < dim
    ensures var at := Span(Span(4, dim), i) + Span(4, j);
            at + 4 <= |VectorBytes(vs)| && VectorBytes(vs)[at..at + 4] == vs[i][j]
    decreases |vs|
  {
    hide VectorBytes;
    FloatBytesAt(vs[0], j);
    VectorBytesStep(vs);
    var head, tail := FloatBytes(vs[0]), VectorBytes(vs[1..]);
    if i == 0 {
      WindowLeft(head, tail, Span(4, j), Span(4, j) + 4);
    } else {
      VectorBytesAt(vs[1..], dim, i - 1, j);
      var at := Span(Span(4, dim), i - 1) + Span(4, j);
      WindowRight(head, tail, |head| + at, |head| + at + 4);
    }
  }

  lemma VectorBytesStep(vs: seq<seq<Float>>)
    requires vs != []
    ensures VectorBytes(vs) == FloatBytes(vs[0]) + VectorBytes(vs[1..])
  {
  }

  lemma {:induction false} FloatBytesAt(v: seq<Float>, j: nat)
    requires j < |v|
    ensures Span(4, j) + 4 <= |FloatBytes(v)| && FloatBytes(v)[Span(4, j)..Span(4, j) + 4] == v[j]
  {
    var init, last := v[..|v| - 1], v[|v| - 1];
    if j == |v| - 1 {
      WindowRight(FloatBytes(init), last, Span(4, j), Span(4, j) + 4);
    } else {
      FloatBytesAt(init, j);
      WindowLeft(FloatBytes(init), last, Span(4, j), Span(4, j) + 4);
    }
  }

  /** Payloads one after another, each as its length and its characters. */
  lemma {:induction false} PayloadBytesAre(ps: seq<Text>, p: Text)
    requires |p| < 0x1_0000_0000
    ensures PayloadBytes([]) == []
    ensures PayloadBytes(ps + [p]) == PayloadBytes(ps) + Be32(|p|) + p
    decreases |ps|
  {
    hide Be32;
    if ps == [] {
      assert ([] + [p])[1..] == [];
      assert Be32(|p|) + p + [] == Be32(|p|) + p;
    } else {
      PayloadBytesAre(ps[1..], p);
      assert (ps + [p])[1..] == ps[1..] + [p];
    }
  }

  lemma NoWrap(n: nat)
    requires n < 0x1_0000_0000_0000_0000
    ensures Wrap64(n) == n
  {
  }

  lemma MiddleParts(f: seq<byte>, vecs: seq<byte>, pays: seq<byte>, wts: seq<byte>)
    requires |f| >= HEADER_SIZE && f[HEADER_SIZE..] == vecs + (pays + wts)
    ensures f[HEADER_SIZE..HEADER_SIZE + |vecs|] == vecs
    ensures f[HEADER_SIZE + |vecs|..HEADER_SIZE + |vecs| + |pays|] == pays
    ensures f[HEADER_SIZE + |vecs| + |pays|..] == wts
  {
    assert f[HEADER_SIZE + |vecs| + |pays|..] == f[HEADER_SIZE..][|vecs| + |pays|..];
    assert f[HEADER_SIZE..HEADER_SIZE + |vecs|] == f[HEADER_SIZE..][..|vecs|];
    assert f[HEADER_SIZE + |vecs|..HEADER_SIZE + |vecs| + |pays|] == f[HEADER_SIZE..][|vecs|..|vecs| + |pays|];
  }
}
