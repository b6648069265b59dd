/** The commands that change a store: each loads the file into an object, works on
    it in place and writes it back. */
module Commands {
  import opened Basics
  import opened Bytes
  import opened VdbFormat
  import opened VdbCodec
  import opened VdbIndex
  import opened VdbMemory
  import opened CommandLines
  import opened Ingest

  /** The 32-bit capacity can double for every one of these additions. */
  ghost predicate Room(file: seq<byte>, ts: seq<Text>) {
    Load(file).Some? ==> |Load(file).value.payloads| + |ts| <= 0x8000_0000
  }

  lemma {:induction false} AddAllAppends(e: Embedder, d: Store, ts: seq<Text>, t: Text)
    ensures AddAll(e, d, ts + [t]) == AddRecord(e, AddAll(e, d, ts), t)
    decreases |ts|
  {
    if ts == [] {
      assert ts + [t] == [t] && [t][1..] == [];
    } else {
      assert (ts + [t])[1..] == ts[1..] + [t];
      AddAllAppends(e, AddRecord(e, d, ts[0]), ts[1..], t);
    }
  }

  /** Embed a text without weights and append it: one step of every command. */
  method AddText(e: Embedder, data: VdbData, t: Text)
    requires data.Valid() && (data.count == data.vectors.Length ==> data.count < 0x8000_0000)
    modifies data, data.vectors, data.payloads
    ensures data.Valid() && data.Contents() == AddRecord(e, old(data.Contents()), t)
    ensures data.count == old(data.count) + 1 && data.hdr.dim == old(data.hdr.dim)
    ensures var row := data.vectors[old(data.count)];
            && data.payloads[old(data.count)] == t && |row| == data.hdr.dim
            && forall j | 0 <= j < |row| :: row[j] == e.component(t, old(data.hdr.dim), old(data.hdr.hashSeed), None, j)
    ensures data.vectors == old(data.vectors) || fresh(data.vectors)
    ensures data.payloads == old(data.payloads) || fresh(data.payloads)
  {
    var vec := Embed(e, t, data.hdr.dim, data.hdr.hashSeed, None);
    ghost var n := data.count;
    data.Add(vec, t);
    assert data.Contents().vectors[n] == vec && data.Contents().payloads[n] == t;
  }

  /** cmd_add. */
  method RunAdd(e: Embedder, file: seq<byte>, t: Text) returns (post: seq<byte>)
    requires Room(file, [t])
    ensures post == CmdAdd(e, file, t)
  {
    hide Load, FileOf, Index, AddRecord, InMemory;
    var d := VdbData.ReadFile(file);
    if d.None? {
      return file;
    }
    SameCounts(file);
    var data := new VdbData(d.value);
    AddText(e, data, t);
    data.BuildIndex(e);
    post := data.Write();
  }

  lemma SameCounts(file: seq<byte>)
    requires Load(file).Some?
    ensures |Load(file).value.vectors| == |Load(file).value.payloads|
  {
    LoadInMemory(file);
  }

  /** ingest_text: terminate, fold and add one paragraph after another, in place. */
  method IngestText(e: Embedder, buf: array<byte>, data: VdbData, ghost text: Text) returns (added: nat)
    requires Unread(buf, 0, text)
    requires data.Valid() && data.count + |Paragraphs(text)| <= 0x8000_0000
    modifies buf, data, data.vectors, data.payloads
    ensures data.Valid() && data.Contents() == AddAll(e, old(data.Contents()), Paragraphs(text))
    ensures added == |Paragraphs(text)|
    ensures data.vectors == old(data.vectors) || fresh(data.vectors)
    ensures data.payloads == old(data.payloads) || fresh(data.payloads)
  {
    hide Paragraphs, SkipBlanks, AddAll, AddRecord;
    ghost var d, paras: seq<Text> := data.Contents(), [];
    added := 0;
    var p := 0;
    assert text[0..] == text;
    AddNothing(e, d);
    while buf[p] != 0
      invariant Unread(buf, p, text)
      invariant Paragraphs(text) == paras + Paragraphs(text[p..])
      invariant added == |paras| && data.count == old(data.count) + added
      invariant data.Valid() && data.Contents() == AddAll(e, d, paras)
      invariant data.vectors == old(data.vectors) || fresh(data.vectors)
      invariant data.payloads == old(data.payloads) || fresh(data.payloads)
      decreases |text| - p
    {
      ghost var before, done := p, paras;
      p := SkipBlanksAt(buf, p, text);
      if buf[p] == 0 {
        NoParagraph(text, before);
        assert text[p..] == [];
        NothingLeft(text);
        break;
      }
      var t;
      t, p := TakeParagraph(buf, p, before, text);
      paras := paras + [t];
      assert done + ([t] + Paragraphs(text[p..])) == paras + Paragraphs(text[p..]);
      AddText(e, data, t);
      AddAllAppends(e, d, done, t);
      added := added + 1;
    }
    NothingLeft(text);
    assert text[|text|..] == [];
    assert paras + [] == paras;
  }

  lemma AddNothing(e: Embedder, d: Store)
    ensures AddAll(e, d, []) == d
  {
  }

  /** cmd_addfile, from the buffer that holds the text file and its terminator. */
  method RunAddfile(e: Embedder, file: seq<byte>, buf: array<byte>, ghost text: Text) returns (post: seq<byte>)
    requires Unread(buf, 0, text) && Room(file, Paragraphs(text))
    modifies buf
    ensures post == CmdAddfile(e, file, Paragraphs(text))
  {
    hide Load, FileOf, Index, AddAll, InMemory, Paragraphs;
    var d := VdbData.ReadFile(file);
    if d.None? {
      return file;
    }
    SameCounts(file);
    var data := new VdbData(d.value);
    var added := IngestText(e, buf, data, text);
    if added == 0 {
      return file;
    }
    data.BuildIndex(e);
    post := data.Write();
  }

  /** repl_run: the loop over the lines typed, up to `quit` or the end of the input,
      and the save on the way out. */
  method RunRepl(e: Embedder, file: seq<byte>, raws: seq<Text>) returns (post: seq<byte>)
    requires Room(file, Added(LinesOf(raws)))
    ensures post == Repl(e, file, LinesOf(raws))
  {
    hide Load, FileOf, Index, AddRecord, InMemory, ReplLines, Added, LinesOf, SkipGaps, WordOf, ArgumentOf;
    var d := VdbData.ReadFile(file);
    if d.None? {
      return file;
    }
    SameCounts(file);
    var data := new VdbData(d.value);
    post := file;
    var dirty, i := false, 0;
    ghost var start := Session(d.value, file, false);
    assert raws[0..] == raws;
    while i < |raws|
      invariant 0 <= i <= |raws| && data.Valid() && fresh(data) && fresh(data.vectors) && fresh(data.payloads)
      invariant data.count + |Added(LinesOf(raws[i..]))| <= 0x8000_0000
      invariant ReplLines(e, start, LinesOf(raws))
             == ReplLines(e, Session(data.Contents(), post, dirty), LinesOf(raws[i..]))
    {
      var word, arg := SplitLine(raws[i]);
      LinesStep(raws, i);
      if word == QUIT || word == EXIT {
        break;
      }
      ReplLinesStep(e, Session(data.Contents(), post, dirty), LinesOf(raws[i..]));
      AddedStep(LinesOf(raws[i..]));
      if word == ADD {
        if arg != [] {
          AddText(e, data, arg);
          data.BuildIndex(e);
          dirty := true;
        }
      } else if word == SAVE {
        if dirty {
          post := data.Write();
          dirty := false;
        }
      }
      i := i + 1;
    }
    NoLines(raws);
    ReplLinesEnd(e, Session(data.Contents(), post, dirty));
    if dirty {
      post := data.Write();
    }
  }

  lemma LinesStep(raws: seq<Text>, i: nat)
    requires i < |raws|
    ensures LinesOf(raws[i..]) == match LineOf(raws[i])
                                  case Some(line) => [line] + LinesOf(raws[i + 1..])
                                  case None => []
  {
    assert raws[i..][1..] == raws[i + 1..];
  }

  lemma NoLines(raws: seq<Text>)
    ensures LinesOf(raws[|raws|..]) == []
  {
  }

  lemma ReplLinesStep(e: Embedder, s: Session, lines: seq<Line>)
    ensures lines != [] ==> ReplLines(e, s, lines) == ReplLines(e, ReplLine(e, s, lines[0]), lines[1..])
  {
  }

  lemma ReplLinesEnd(e: Embedder, s: Session)
    ensures ReplLines(e, s, []) == s
  {
  }

  lemma AddedStep(lines: seq<Line>)
    ensures lines != [] ==> Added(lines) == AddedBy(lines[0]) + Added(lines[1..])
  {
  }
}
