/** The store in memory as the program keeps it: parallel arrays that grow by
    doubling, rebuilt and written by loops. */
module VdbMemory {
  import opened Basics
  import opened Bytes
  import opened VdbFormat
  import opened VdbCodec
  import opened VdbIndex

  class VdbData {
    var hdr: Header
    var vectors: array<seq<Float>>
    var payloads: array<Text>
    var idf: Option<seq<Float>>
    var count: nat

    /** Records copied by reallocation since the store was opened. */
    ghost var copied: nat

    ghost predicate Valid()
      reads this
    {
      && vectors.Length == payloads.Length && count <= vectors.Length
      && copied <= vectors.Length && (copied > 0 ==> vectors.Length <= 2 * count)
    }

    ghost function Contents(): Store
      requires Valid()
      reads this, vectors, payloads
    {
      Store(hdr, vectors[..count], payloads[..count], idf)
    }

    /** A loaded store: exactly as much room as records. */
    constructor (d: Store)
      requires |d.vectors| == |d.payloads|
      ensures Valid() && Contents() == d && copied == 0
      ensures fresh(vectors) && fresh(payloads)
    {
      hdr, idf, count, copied := d.hdr, d.idf, |d.payloads|, 0;
      vectors := new seq<Float>[|d.vectors|](i requires 0 <= i < |d.vectors| => d.vectors[i]);
      payloads := new Text[|d.payloads|](i requires 0 <= i < |d.payloads| => d.payloads[i]);
    }

    /** vdb_data_add: append one record, doubling the arrays when they are full. Over
        any number of additions fewer records are copied than twice the count. */
    method Add(vec: seq<Float>, text: Text)
      requires Valid() && (count == vectors.Length ==> count < 0x8000_0000)
      modifies this, vectors, payloads
      ensures Valid() && copied <= 2 * count
      ensures var d := old(Contents());
              Contents() == d.(vectors := d.vectors + [vec], payloads := d.payloads + [text],
                               hdr := d.hdr.(count := (|d.payloads| + 1) % 0x1_0000_0000))
      ensures count == old(count) + 1
      ensures vectors == old(vectors) || fresh(vectors)
      ensures payloads == old(payloads) || fresh(payloads)
    {
      ghost var d := Contents();
      if count == vectors.Length {
        Grow();
      }
      vectors[count] := vec;
      payloads[count] := text;
      count := count + 1;
      hdr := hdr.(count := count % 0x1_0000_0000);
      assert vectors[..count] == d.vectors + [vec];
      assert payloads[..count] == d.payloads + [text];
    }

    /** Both arrays reallocated at twice their size, the records copied over. */
    method Grow()
      requires Valid() && count == vectors.Length < 0x8000_0000
      modifies `vectors, `payloads, `copied
      ensures fresh(vectors) && fresh(payloads) && vectors.Length == payloads.Length > count
      ensures copied <= vectors.Length && (copied > 0 ==> vectors.Length <= 2 * (count + 1))
      ensures vectors[..count] == old(vectors[..count]) && payloads[..count] == old(payloads[..count])
    {
      var newcap := if vectors.Length == 0 then 16 else vectors.Length * 2;
      var nv := new seq<Float>[newcap](_ => []);
      var np := new Text[newcap](_ => []);
      for i := 0 to count
        invariant vectors == old(vectors) && payloads == old(payloads) && copied == old(copied)
        invariant nv[..i] == vectors[..i] && np[..i] == payloads[..i]
      {
        nv[i] := vectors[i];
        np[i] := payloads[i];
      }
      copied := copied + vectors.Length;
      vectors, payloads := nv, np;
    }

    /** How many records touch each bucket. */
    method CountDocs(e: Embedder) returns (df: array<nat>)
      requires Valid()
      ensures fresh(df) && df.Length == hdr.dim
      ensures forall j | 0 <= j < hdr.dim :: df[j] == DocFreq(e, payloads[..count], hdr.dim, hdr.hashSeed, j)
      ensures forall j | 0 <= j < hdr.dim ::
                df[j] == |set i | 0 <= i < count && !e.isZero(e.component(payloads[i], hdr.dim, hdr.hashSeed, None, j))|
    {
      var dim, seed := hdr.dim, hdr.hashSeed;
      df := new nat[dim](_ => 0);
      for i := 0 to count
        invariant forall j | 0 <= j < dim :: df[j] == DocFreq(e, payloads[..i], dim, seed, j)
      {
        assert payloads[..i + 1][..i] == payloads[..i];
        var tmp := Embed(e, payloads[i], dim, seed, None);
        for j := 0 to dim
          invariant forall k | 0 <= k < dim ::
            df[k] == DocFreq(e, payloads[..if k < j then i + 1 else i], dim, seed, k)
        {
          if !e.isZero(tmp[j]) {
            df[j] := df[j] + 1;
          }
        }
      }
      CountsAreSets(e, df);
    }

    lemma CountsAreSets(e: Embedder, df: array<nat>)
      requires Valid() && df.Length == hdr.dim
      requires forall j | 0 <= j < hdr.dim :: df[j] == DocFreq(e, payloads[..count], hdr.dim, hdr.hashSeed, j)
      ensures forall j | 0 <= j < hdr.dim ::
                df[j] == |set i | 0 <= i < count && !e.isZero(e.component(payloads[i], hdr.dim, hdr.hashSeed, None, j))|
    {
      hide DocFreq;
      forall j | 0 <= j < hdr.dim
        ensures df[j] == |set i | 0 <= i < count && !e.isZero(e.component(payloads[i], hdr.dim, hdr.hashSeed, None, j))|
      {
        DocFreqCounts(e, payloads[..count], hdr.dim, hdr.hashSeed, j);
        assert Touching(e, payloads[..count], hdr.dim, hdr.hashSeed, j)
            == set i | 0 <= i < count && !e.isZero(e.component(payloads[i], hdr.dim, hdr.hashSeed, None, j));
      }
    }

    /** What an indexed store holds, by components. */
    lemma IndexIsHere(e: Embedder, was: Store)
      requires Valid() && Contents() == Index(e, was) && was.payloads == payloads[..count] && was.hdr == hdr
      ensures count == 0 ==> idf == None
      ensures count > 0 ==> idf.Some? && |idf.value| == hdr.dim && forall j | 0 <= j < hdr.dim ::
                idf.value[j]
                == e.weight(count, |set i | 0 <= i < count
                                      && !e.isZero(e.component(payloads[i], hdr.dim, hdr.hashSeed, None, j))|)
      ensures count > 0 ==> forall i | 0 <= i < count ::
                && |vectors[i]| == hdr.dim
                && forall j | 0 <= j < hdr.dim ::
                     vectors[i][j] == e.component(payloads[i], hdr.dim, hdr.hashSeed, idf, j)
    {
      hide Index;
      IndexMeans(e, was);
      if count > 0 {
        forall i | 0 <= i < count ensures vectors[i] == Index(e, was).vectors[i] {
          assert Contents().vectors[i] == vectors[i];
        }
        forall j | 0 <= j < hdr.dim
          ensures Touching(e, was.payloads, hdr.dim, hdr.hashSeed, j)
               == set i | 0 <= i < count && !e.isZero(e.component(payloads[i], hdr.dim, hdr.hashSeed, None, j))
        {
        }
      }
    }

    /** vdb_build_index: weights from the document frequencies, then every row anew. */
    method BuildIndex(e: Embedder)
      requires Valid()
      modifies this, vectors
      ensures Valid() && Contents() == Index(e, old(Contents()))
      ensures vectors == old(vectors) && payloads == old(payloads) && count == old(count) && hdr == old(hdr)
      ensures count == 0 ==> idf == None
      ensures count > 0 ==> idf.Some? && |idf.value| == hdr.dim && forall j | 0 <= j < hdr.dim ::
                idf.value[j]
                == e.weight(count, |set i | 0 <= i < count
                                      && !e.isZero(e.component(payloads[i], hdr.dim, hdr.hashSeed, None, j))|)
      ensures count > 0 ==> forall i | 0 <= i < count ::
                && |vectors[i]| == hdr.dim
                && forall j | 0 <= j < hdr.dim ::
                     vectors[i][j] == e.component(payloads[i], hdr.dim, hdr.hashSeed, idf, j)
    {
      hide DocFreq;
      var dim, seed, n := hdr.dim, hdr.hashSeed, count;
      ghost var ps := payloads[..n];
      if n == 0 {
        idf := None;
        assert vectors[..0] == old(Contents()).vectors;
        IndexIsHere(e, old(Contents()));
        return;
      }
      var df := CountDocs(e);
      var w := seq<Float>(dim, j requires 0 <= j < dim reads df => e.weight(n, df[j]));
      assert w == Weights(e, ps, dim, seed);
      var i := 0;
      while i < n
        invariant 0 <= i <= n && Valid() && payloads[..n] == ps
        invariant forall k | 0 <= k < i :: vectors[k] == Embed(e, ps[k], dim, seed, Some(w))
        modifies vectors
      {
        vectors[i] := Embed(e, payloads[i], dim, seed, Some(w));
        i := i + 1;
      }
      idf := Some(w);
      assert vectors[..n] == EmbedAll(e, ps, dim, seed, Some(w));
      IndexIsHere(e, old(Contents()));
    }

    /** The size of the payload region: a length word and the characters of each. */
    method PayloadRegionSize() returns (size: nat)
      requires Valid()
      ensures size == |PayloadBytes(payloads[..count])|
    {
      ghost var ps := payloads[..count];
      size := 0;
      var i := 0;
      while i < count
        invariant 0 <= i <= count
        invariant size + |PayloadBytes(ps[i..])| == |PayloadBytes(ps)|
      {
        assert ps[i..][1..] == ps[i + 1..];
        size := size + 4 + |payloads[i]|;
        i := i + 1;
      }
    }

    method AppendPayloads(head: seq<byte>) returns (file: seq<byte>)
      requires Valid()
      ensures file == head + PayloadBytes(payloads[..count])
    {
      ghost var ps := payloads[..count];
      file := head;
      var i := 0;
      while i < count
        invariant 0 <= i <= count
        invariant file + PayloadBytes(ps[i..]) == head + PayloadBytes(ps)
      {
        NextPayload(file, ps, i);
        file := file + Be32(|payloads[i]| % 0x1_0000_0000) + payloads[i];
        i := i + 1;
      }
    }

    /** vdb_write: record the layout, then header, vectors, payloads and weights. */
    method Write() returns (file: seq<byte>)
      requires Valid()
      modifies `hdr
      ensures Valid()
      ensures file == FileOf(old(Contents())) && Contents() == Written(old(Contents()))
    {
      hide EncodeHeader, PayloadBytes, VectorBytes, FloatBytes, Span;
      ghost var d := Contents();
      var payloadSize := PayloadRegionSize();
      var vectorsSize := Span(Span(FLOAT_SIZE, hdr.dim), count);
      hdr := hdr.(count := count % 0x1_0000_0000,
                  vectorsOff := HEADER_SIZE, vectorsSize := Wrap64(vectorsSize),
                  payloadOff := Wrap64(HEADER_SIZE + vectorsSize), payloadSize := Wrap64(payloadSize),
                  idmapOff := 0, idmapSize := 0,
                  idfOff := if idf.Some? then Wrap64(HEADER_SIZE + vectorsSize + payloadSize) else 0,
                  idfSize := if idf.Some? then Wrap64(Span(FLOAT_SIZE, hdr.dim)) else 0);
      file := AppendPayloads(EncodeHeader(hdr) + VectorBytes(vectors[..count]));
      if idf.Some? {
        file := file + FloatBytes(idf.value);
      } else {
        assert file + [] == file;
      }
    }

    static lemma NextPayload(file: seq<byte>, ps: seq<Text>, i: nat)
      requires i < |ps|
      ensures file + PayloadBytes(ps[i..])
           == file + Be32(|ps[i]| % 0x1_0000_0000) + ps[i] + PayloadBytes(ps[i + 1..])
    {
      assert ps[i..][1..] == ps[i + 1..];
    }

    /** vdb_load: one pass over the file with a moving position. */
    static method ReadFile(file: seq<byte>) returns (r: Option<Store>)
      ensures r == Load(file)
    {
      if |file| < HEADER_SIZE {
        return None;
      }
      var h := DecodeHeader(file[..HEADER_SIZE]);
      if h.None? || h.value.version != VERSION {
        return None;
      }
      var hdr := h.value;
      if hdr.count == 0 {
        return Some(Store(hdr, [], [], None));
      }
      var vs := ReadVectors(file[HEADER_SIZE..], hdr.dim, hdr.count);
      if vs.None? {
        return None;
      }
      var ok, ps, rest := ReadAllPayloads(vs.value.rest, hdr.count);
      if !ok {
        return None;
      }
      r := Some(Store(hdr, vs.value.value, ps, None));
      if hdr.idfSize == Span(FLOAT_SIZE, hdr.dim) {
        var idf := ReadFloats(rest, hdr.dim);
        r := if idf.None? then None else Some(Store(hdr, vs.value.value, ps, Some(idf.value.value)));
      }
    }

    static method ReadAllPayloads(b: seq<byte>, n: nat) returns (ok: bool, ps: seq<Text>, rest: seq<byte>)
      ensures ok <==> ReadPayloads(b, n).Some?
      ensures ok ==> ReadPayloads(b, n) == Some(Read(ps, rest))
    {
      ok, ps, rest := true, [], b;
      PrependNone(ReadPayloads(b, n));
      var i := 0;
      while i < n && ok
        invariant 0 <= i <= n
        invariant ok ==> ReadPayloads(b, n) == Prepend(ps, ReadPayloads(rest, n - i))
        invariant !ok ==> ReadPayloads(b, n).None?
      {
        if |rest| < 4 || |rest| < 4 + FromBe32(rest[..4]) {
          ok := false;
        } else {
          var len := FromBe32(rest[..4]);
          var s := CString(rest[4..4 + len]);
          PrependOne(ps, s, ReadPayloads(rest[4 + len..], n - i - 1));
          ps := ps + [s];
          rest := rest[4 + len..];
        }
        i := i + 1;
      }
      assert ps + [] == ps;
    }

    static lemma PrependNone(r: Option<Read<seq<Text>>>)
      ensures Prepend([], r) == r
    {
      if r.Some? {
        assert [] + r.value.value == r.value.value;
      }
    }

    static function Prepend(ps: seq<Text>, r: Option<Read<seq<Text>>>): Option<Read<seq<Text>>> {
      match r
      case None => None
      case Some(x) => Some(Read(ps + x.value, x.rest))
    }

    static lemma PrependOne(ps: seq<Text>, s: Text, r: Option<Read<seq<Text>>>)
      ensures Prepend(ps, Prepend([s], r)) == Prepend(ps + [s], r)
    {
      if r.Some? {
        assert ps + ([s] + r.value.value) == ps + [s] + r.value.value;
      }
    }
  }
}
