/** Records, the derived index, and the three ways of ingesting text. */
module VdbIndex {
  import opened Basics
  import opened Bytes
  import opened VdbFormat
  import opened VdbCodec

  /** The float computations, as deterministic functions of their inputs: component
      `j` of a text's embedding (with or without weights), the test for zero, and
      the weight of a bucket from the number of texts and its document frequency. */
  datatype Embedder = Embedder(
    component: (Text, u32, u32, Option<seq<Float>>, nat) -> Float,
    isZero: Float -> bool,
    weight: (nat, nat) -> Float)

  function Embed(e: Embedder, t: Text, dim: u32, seed: u32, idf: Option<seq<Float>>): (v: seq<Float>)
    ensures |v| == dim
  {
    seq<Float>(dim, j requires 0 <= j < dim => e.component(t, dim, seed, idf, j))
  }

  /** How many of the texts touch bucket `j`. */
  function DocFreq(e: Embedder, ps: seq<Text>, dim: u32, seed: u32, j: nat): nat
    requires j < dim
  {
    if ps == [] then 0 else
    DocFreq(e, ps[..|ps| - 1], dim, seed, j)
    + (if e.isZero(Embed(e, ps[|ps| - 1], dim, seed, None)[j]) then 0 else 1)
  }

  function Weights(e: Embedder, ps: seq<Text>, dim: u32, seed: u32): (w: seq<Float>)
    ensures |w| == dim
  {
    seq<Float>(dim, j requires 0 <= j < dim => e.weight(|ps|, DocFreq(e, ps, dim, seed, j)))
  }

  function EmbedAll(e: Embedder, ps: seq<Text>, dim: u32, seed: u32, idf: Option<seq<Float>>): (vs: seq<seq<Float>>)
    ensures |vs| == |ps| && Rows(vs, dim)
  {
    seq(|ps|, i requires 0 <= i < |ps| => Embed(e, ps[i], dim, seed, idf))
  }

  /** vdb_build_index: weights and every row, recomputed from the payloads alone. */
  function Index(e: Embedder, d: Store): Store {
    if d.payloads == [] then d.(idf := None) else
    var w := Weights(e, d.payloads, d.hdr.dim, d.hdr.hashSeed);
    d.(idf := Some(w), vectors := EmbedAll(e, d.payloads, d.hdr.dim, d.hdr.hashSeed, Some(w)))
  }

  /** The records whose unweighted embedding is not zero in bucket `j`. */
  ghost function Touching(e: Embedder, ps: seq<Text>, dim: u32, seed: u32, j: nat): set<nat> {
    set i | 0 <= i < |ps| && !e.isZero(e.component(ps[i], dim, seed, None, j))
  }

  lemma {:induction false} DocFreqCounts(e: Embedder, ps: seq<Text>, dim: u32, seed: u32, j: nat)
    requires j < dim
    ensures DocFreq(e, ps, dim, seed, j) == |Touching(e, ps, dim, seed, j)|
    decreases |ps|
  {
    if ps == [] {
      assert Touching(e, ps, dim, seed, j) == {};
    } else {
      var n := |ps| - 1;
      DocFreqCounts(e, ps[..n], dim, seed, j);
      var fewer := Touching(e, ps[..n], dim, seed, j);
      assert Touching(e, ps, dim, seed, j)
          == if e.isZero(e.component(ps[n], dim, seed, None, j)) then fewer else fewer + {n};
    }
  }

  /** The index, by components: the weight of a bucket is that of the number of
      records and of how many touch it, and every row is its text's embedding with
      these weights. */
  lemma IndexMeans(e: Embedder, d: Store)
    ensures var u := Index(e, d);
            && u.hdr == d.hdr && u.payloads == d.payloads
            && (d.payloads == [] ==> u.idf == None && u.vectors == d.vectors)
            && (d.payloads != [] ==>
                  && u.idf.Some? && |u.idf.value| == d.hdr.dim && |u.vectors| == |d.payloads|
                  && (forall j | 0 <= j < d.hdr.dim ::
                        u.idf.value[j]
                        == e.weight(|d.payloads|, |Touching(e, d.payloads, d.hdr.dim, d.hdr.hashSeed, j)|))
                  && (forall i | 0 <= i < |d.payloads| :: |u.vectors[i]| == d.hdr.dim)
                  && (forall i, j | 0 <= i < |d.payloads| && 0 <= j < d.hdr.dim ::
                        u.vectors[i][j] == e.component(d.payloads[i], d.hdr.dim, d.hdr.hashSeed, u.idf, j)))
  {
    hide DocFreq;
    forall j | 0 <= j < d.hdr.dim
      ensures DocFreq(e, d.payloads, d.hdr.dim, d.hdr.hashSeed, j)
           == |Touching(e, d.payloads, d.hdr.dim, d.hdr.hashSeed, j)|
    {
      DocFreqCounts(e, d.payloads, d.hdr.dim, d.hdr.hashSeed, j);
    }
  }

  /** vdb_data_add with the plain embedding of the text. */
  function AddRecord(e: Embedder, d: Store, t: Text): Store {
    d.(vectors := d.vectors + [Embed(e, t, d.hdr.dim, d.hdr.hashSeed, None)],
       payloads := d.payloads + [t],
       hdr := d.hdr.(count := (|d.payloads| + 1) % 0x1_0000_0000))
  }

  function AddAll(e: Embedder, d: Store, ts: seq<Text>): Store
    decreases |ts|
  {
    if ts == [] then d else AddAll(e, AddRecord(e, d, ts[0]), ts[1..])
  }

  /** vdb_write's effect on the store in memory. */
  function Written(d: Store): Store {
    d.(hdr := LaidOut(d))
  }

  // ---------- the three ways in ----------

  /** `add`: load, add, rebuild, write; a store that does not load is left alone. */
  function CmdAdd(e: Embedder, file: seq<byte>, t: Text): seq<byte> {
    match Load(file)
    case None => file
    case Some(d) => FileOf(Index(e, AddRecord(e, d, t)))
  }

  function CmdAddEach(e: Embedder, file: seq<byte>, ts: seq<Text>): seq<byte>
    decreases |ts|
  {
    if ts == [] then file else CmdAddEach(e, CmdAdd(e, file, ts[0]), ts[1..])
  }

  /** `addfile`: load, add every paragraph, rebuild once, write; nothing is written
      when there are no paragraphs. */
  function CmdAddfile(e: Embedder, file: seq<byte>, ts: seq<Text>): seq<byte> {
    match Load(file)
    case None => file
    case Some(d) => if ts == [] then file else FileOf(Index(e, AddAll(e, d, ts)))
  }

  /** What matters of a REPL line: `add` with its argument, `save`, or neither. */
  datatype Line = Add(t: Text) | Save | Other

  datatype Session = Session(data: Store, file: seq<byte>, dirty: bool)

  function ReplLine(e: Embedder, s: Session, line: Line): Session {
    match line
    case Add(t) => if t == [] then s else Session(Index(e, AddRecord(e, s.data, t)), s.file, true)
    case Save => if s.dirty then Session(Written(s.data), FileOf(s.data), false) else s
    case Other => s
  }

  function ReplLines(e: Embedder, s: Session, lines: seq<Line>): Session
    decreases |lines|
  {
    if lines == [] then s else ReplLines(e, ReplLine(e, s, lines[0]), lines[1..])
  }

  /** A whole session, up to quit or end of input, which saves what is unsaved. */
  function Repl(e: Embedder, file: seq<byte>, lines: seq<Line>): seq<byte> {
    match Load(file)
    case None => file
    case Some(d) =>
      var s := ReplLines(e, Session(d, file, false), lines);
      if s.dirty then FileOf(s.data) else s.file
  }

  function Added(lines: seq<Line>): seq<Text> {
    if lines == [] then [] else
    (if lines[0].Add? && lines[0].t != [] then [lines[0].t] else []) + Added(lines[1..])
  }

  // ---------- what the file depends on ----------

  /** The header fields no operation changes. */
  ghost predicate SameKind(g: Header, h: Header) {
    g.version == h.version && g.dim == h.dim && g.hashSeed == h.hashSeed
    && g.metric == h.metric && g.indexType == h.indexType
  }

  /** The bytes of an indexed store are a function of its payloads and of those
      fields: how it came about leaves no trace. */
  lemma FileForgetsHistory(e: Embedder, c: Store, d: Store)
    requires SameKind(c.hdr, d.hdr) && c.payloads == d.payloads && c.payloads != []
    ensures FileOf(Index(e, c)) == FileOf(Index(e, d))
  {
    assert LaidOut(Index(e, c)) == LaidOut(Index(e, d));
  }

  lemma {:induction false} AddAllPayloads(e: Embedder, d: Store, ts: seq<Text>)
    ensures AddAll(e, d, ts).payloads == d.payloads + ts
    ensures SameKind(AddAll(e, d, ts).hdr, d.hdr)
    decreases |ts|
  {
    if ts == [] {
      assert d.payloads + ts == d.payloads;
    } else {
      AddAllPayloads(e, AddRecord(e, d, ts[0]), ts[1..]);
      assert d.payloads + [ts[0]] + ts[1..] == d.payloads + ts;
    }
  }

  // ---------- what loading yields ----------

  lemma {:induction false} ReadVectorsRows(b: seq<byte>, dim: nat, n: nat)
    ensures var r := ReadVectors(b, dim, n);
            r.Some? ==> |r.value.value| == n && Rows(r.value.value, dim)
    decreases n
  {
    if n > 0 && ReadFloats(b, dim).Some? {
      ReadVectorsRows(ReadFloats(b, dim).value.rest, dim, n - 1);
    }
  }

  lemma {:induction false} ReadPayloadsShort(b: seq<byte>, n: nat)
    ensures var r := ReadPayloads(b, n);
            r.Some? ==> |r.value.value| == n && Short(r.value.value)
    decreases n
  {
    if n > 0 && |b| >= 4 && |b| >= 4 + FromBe32(b[..4]) {
      ReadPayloadsShort(b[4 + FromBe32(b[..4])..], n - 1);
    }
  }

  /** Whatever loads is a proper store, weights only with records. */
  lemma LoadInMemory(file: seq<byte>)
    requires Load(file).Some?
    ensures InMemory(Load(file).value)
    ensures Load(file).value.payloads == [] ==> Load(file).value.idf.None?
  {
    hide DecodeHeader, ReadVectors, ReadPayloads;
    var hdr := DecodeHeader(file[..HEADER_SIZE]).value;
    if hdr.count > 0 {
      ReadVectorsRows(file[HEADER_SIZE..], hdr.dim, hdr.count);
      var vs := ReadVectors(file[HEADER_SIZE..], hdr.dim, hdr.count);
      ReadPayloadsShort(vs.value.rest, hdr.count);
    }
  }

  lemma AddRecordInMemory(e: Embedder, d: Store, t: Text)
    requires InMemory(d) && |d.payloads| + 1 < 0x1_0000_0000 && |t| < 0x1_0000_0000
    ensures InMemory(Index(e, AddRecord(e, d, t))) && Recordable(Index(e, AddRecord(e, d, t)))
    ensures Index(e, AddRecord(e, d, t)).payloads == d.payloads + [t]
    ensures SameKind(Index(e, AddRecord(e, d, t)).hdr, d.hdr)
  {
  }

  /** There is room for these texts: a 32-bit count and 32-bit lengths suffice. */
  ghost predicate Fits(d: Store, ts: seq<Text>) {
    |d.payloads| + |ts| < 0x1_0000_0000 && Short(ts)
  }

  // ---------- history independence ----------

  /** Adding one at a time through the file gives what adding all at once gives. */
  lemma {:induction false} AddEachIsAddfile(e: Embedder, file: seq<byte>, ts: seq<Text>)
    requires Load(file).Some? && Fits(Load(file).value, ts)
    ensures CmdAddEach(e, file, ts) == CmdAddfile(e, file, ts)
    decreases |ts|
  {
    hide Load, FileOf, Index, InMemory;
    if ts != [] {
      var d, t, more := Load(file).value, ts[0], ts[1..];
      LoadInMemory(file);
      AddRecordInMemory(e, d, t);
      var next := Index(e, AddRecord(e, d, t));
      RoundTripIff(next);
      assert Load(CmdAdd(e, file, t)) == Some(Written(next));
      AddEachIsAddfile(e, CmdAdd(e, file, t), more);
      AddAllPayloads(e, Written(next), more);
      AddAllPayloads(e, d, ts);
      assert d.payloads + [t] + more == d.payloads + ts;
      if more == [] {
        OneAdded(e, d, t, ts);
      } else {
        FileForgetsHistory(e, AddAll(e, Written(next), more), AddAll(e, d, ts));
      }
    }
  }

  /** What the batch leaves in the file: the old texts and then the new ones, indexed. */
  lemma AddedIsLoaded(e: Embedder, file: seq<byte>, ts: seq<Text>)
    requires Load(file).Some? && Fits(Load(file).value, ts) && ts != []
    ensures var d, u := Load(file).value, Load(CmdAddfile(e, file, ts));
            && u.Some? && u.value.payloads == d.payloads + ts && SameKind(u.value.hdr, d.hdr)
            && Indexed(e, u.value)
  {
    hide Load, FileOf, Index, InMemory, LaidOut;
    var d := Load(file).value;
    LoadInMemory(file);
    AddAllPayloads(e, d, ts);
    var all := AddAll(e, d, ts);
    AddAllInMemory(e, d, ts);
    IndexedInMemory(e, all);
    RoundTripIff(Index(e, all));
    WrittenIsSame(e, Index(e, all));
  }

  lemma {:induction false} AddAllInMemory(e: Embedder, d: Store, ts: seq<Text>)
    requires InMemory(d) && Fits(d, ts)
    ensures InMemory(AddAll(e, d, ts))
    decreases |ts|
  {
    if ts != [] {
      AddAllInMemory(e, AddRecord(e, d, ts[0]), ts[1..]);
    }
  }

  lemma IndexedInMemory(e: Embedder, d: Store)
    requires InMemory(d) && d.payloads != []
    ensures InMemory(Index(e, d)) && Recordable(Index(e, d)) && Indexed(e, Index(e, d))
    ensures Index(e, d).payloads == d.payloads && Index(e, d).hdr == d.hdr
  {
  }

  lemma OneAdded(e: Embedder, d: Store, t: Text, ts: seq<Text>)
    requires ts == [t]
    ensures AddAll(e, d, ts) == AddRecord(e, d, t)
  {
    assert ts[1..] == [];
  }

  /** The session invariant: what is in memory is a proper store, recordable when
      it has unsaved records, and when nothing is unsaved the file holds exactly it. */
  ghost predicate SessionOk(s: Session) {
    && InMemory(s.data)
    && (s.dirty ==> Recordable(s.data) && s.data.payloads != [])
    && (!s.dirty ==> Load(s.file) == Some(s.data))
  }

  /** Rows and weights are those of the payloads. */
  ghost predicate Indexed(e: Embedder, d: Store) {
    d.payloads != [] && Index(e, d) == d
  }

  /** The file is the one that writing this memory would give, or is about to be. */
  ghost predicate Settled(s: Session) {
    s.dirty || s.file == FileOf(s.data)
  }

  function AddedBy(line: Line): seq<Text> {
    if line.Add? && line.t != [] then [line.t] else []
  }

  lemma WrittenIsSame(e: Embedder, d: Store)
    requires InMemory(d)
    ensures InMemory(Written(d)) && FileOf(Written(d)) == FileOf(d) && SameKind(Written(d).hdr, d.hdr)
    ensures Indexed(e, d) ==> Indexed(e, Written(d))
  {
    assert LaidOut(Written(d)) == LaidOut(d);
  }

  lemma AddedIsIndexed(e: Embedder, d: Store, t: Text)
    ensures Indexed(e, Index(e, AddRecord(e, d, t)))
  {
  }

  /** Every line keeps the session invariant, and `not dirty` keeps meaning that the
      file and the memory agree. */
  lemma SessionStep(e: Embedder, s: Session, line: Line)
    requires SessionOk(s) && Fits(s.data, AddedBy(line))
    ensures var u := ReplLine(e, s, line);
            && SessionOk(u) && SameKind(u.data.hdr, s.data.hdr)
            && u.data.payloads == s.data.payloads + AddedBy(line)
            && (Indexed(e, s.data) || AddedBy(line) != [] ==> Indexed(e, u.data))
            && (Settled(s) || AddedBy(line) != [] ==> Settled(u))
  {
    hide Load, FileOf, Index, InMemory, Indexed;
    if line.Add? && line.t != [] {
      assert AddedBy(line)[0] == line.t;
      AddRecordInMemory(e, s.data, line.t);
      AddedIsIndexed(e, s.data, line.t);
    } else {
      assert s.data.payloads + [] == s.data.payloads;
      if line.Save? && s.dirty {
        RoundTripIff(s.data);
        WrittenIsSame(e, s.data);
      }
    }
  }

  lemma {:induction false} SessionLines(e: Embedder, s: Session, lines: seq<Line>)
    requires SessionOk(s) && Fits(s.data, Added(lines))
    ensures var u := ReplLines(e, s, lines);
            && SessionOk(u) && SameKind(u.data.hdr, s.data.hdr)
            && u.data.payloads == s.data.payloads + Added(lines)
            && (Indexed(e, s.data) || Added(lines) != [] ==> Indexed(e, u.data))
            && (Settled(s) || Added(lines) != [] ==> Settled(u))
    decreases |lines|
  {
    hide SessionOk, Indexed, Settled, ReplLine;
    if lines == [] {
      assert s.data.payloads + [] == s.data.payloads;
    } else {
      var line, more := lines[0], lines[1..];
      assert Added(lines) == AddedBy(line) + Added(more);
      FitsSplit(s.data, AddedBy(line), Added(more));
      SessionStep(e, s, line);
      SessionLines(e, ReplLine(e, s, line), more);
      assert s.data.payloads + AddedBy(line) + Added(more) == s.data.payloads + Added(lines);
    }
  }

  lemma FitsSplit(d: Store, a: seq<Text>, b: seq<Text>)
    requires Fits(d, a + b)
    ensures Fits(d, a) && forall c: Store | c.payloads == d.payloads + a :: Fits(c, b)
  {
    forall i | 0 <= i < |a| ensures |a[i]| < 0x1_0000_0000 {
      assert (a + b)[i] == a[i];
    }
    forall i | 0 <= i < |b| ensures |b[i]| < 0x1_0000_0000 {
      assert (a + b)[|a| + i] == b[i];
    }
  }

  /** A whole session, with saves wherever they come, leaves the file that adding
      the same texts in one batch leaves. */
  lemma ReplIsAddfile(e: Embedder, file: seq<byte>, lines: seq<Line>)
    requires Load(file).Some? && Fits(Load(file).value, Added(lines))
    ensures Repl(e, file, lines) == CmdAddfile(e, file, Added(lines))
  {
    hide Load, FileOf, InMemory, ReplLines, Index;
    var d, ts := Load(file).value, Added(lines);
    LoadInMemory(file);
    var s := Session(d, file, false);
    SessionLines(e, s, lines);
    var u := ReplLines(e, s, lines);
    if ts != [] {
      AddAllPayloads(e, d, ts);
      FileForgetsHistory(e, u.data, AddAll(e, d, ts));
    } else {
      NothingAdded(e, s, lines);
    }
  }

  /** With nothing added, nothing becomes dirty and nothing is written. */
  lemma {:induction false} NothingAdded(e: Embedder, s: Session, lines: seq<Line>)
    requires !s.dirty && Added(lines) == []
    ensures ReplLines(e, s, lines) == s
    decreases |lines|
  {
    if lines != [] {
      NothingAdded(e, ReplLine(e, s, lines[0]), lines[1..]);
    }
  }

  /** History independence: from one file, adding the texts one command at a time,
      in one REPL session, or in one batch leaves byte-identical files. */
  lemma HistoryIndependence(e: Embedder, file: seq<byte>, ts: seq<Text>, lines: seq<Line>)
    requires Load(file).Some? && Fits(Load(file).value, ts) && Added(lines) == ts
    ensures CmdAddEach(e, file, ts) == CmdAddfile(e, file, ts) == Repl(e, file, lines)
  {
    AddEachIsAddfile(e, file, ts);
    ReplIsAddfile(e, file, lines);
  }
}
