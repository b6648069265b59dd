/** The lines of an interactive session: a command word, blanks, and an argument. */
module CommandLines {
  import opened Basics
  import opened Bytes
  import opened VdbFormat
  import opened VdbIndex
  import opened Ingest

  const ADD: Text := [0x61, 0x64, 0x64]
  const SAVE: Text := [0x73, 0x61, 0x76, 0x65]
  const QUIT: Text := [0x71, 0x75, 0x69, 0x74]
  const EXIT: Text := [0x65, 0x78, 0x69, 0x74]

  predicate IsGap(c: byte) {
    c == SPACE || c == TAB
  }

  function SkipGaps(s: Text): (r: Text)
    ensures r != [] ==> !IsGap(r[0])
  {
    if s != [] && IsGap(s[0]) then SkipGaps(s[1..]) else s
  }

  /** The length of the word that `s` begins with. */
  function WordLength(s: Text): (n: nat)
    ensures n <= |s| && (n < |s| ==> IsGap(s[n]))
    ensures forall i | 0 <= i < n :: !IsGap(s[i])
  {
    if s == [] || IsGap(s[0]) then 0 else 1 + WordLength(s[1..])
  }

  function WordOf(s: Text): Text { s[..WordLength(s)] }

  function ArgumentOf(s: Text): Text { SkipGaps(s[WordLength(s)..]) }

  /** What a line asks for; `quit` and `exit` ask for nothing. */
  function LineOf(raw: Text): Option<Line> {
    var cmd := SkipGaps(raw);
    var word := WordOf(cmd);
    if word == QUIT || word == EXIT then None
    else if word == ADD then Some(Add(ArgumentOf(cmd)))
    else if word == SAVE then Some(Save)
    else Some(Other)
  }

  /** The lines up to the first `quit` or the end of the input. */
  function LinesOf(raws: seq<Text>): seq<Line> {
    if raws == [] then [] else
    match LineOf(raws[0])
    case Some(line) => [line] + LinesOf(raws[1..])
    case None => []
  }

  /** The two pointer loops that split a line. */
  method SplitLine(raw: Text) returns (word: Text, arg: Text)
    ensures word == WordOf(SkipGaps(raw)) && arg == ArgumentOf(SkipGaps(raw))
  {
    hide SkipGaps, WordLength;
    var start := SkipGapsFrom(raw, 0);
    assert raw[0..] == raw;
    ghost var cmd: Text := raw[start..];
    var end := start;
    while end < |raw| && !IsGap(raw[end])
      invariant start <= end <= |raw|
      invariant WordLength(cmd) == end - start + WordLength(raw[end..])
    {
      WordStep(raw, end);
      end := end + 1;
    }
    WordStep(raw, end);
    word := raw[start..end];
    assert word == cmd[..end - start];
    var rest := SkipGapsFrom(raw, end);
    arg := raw[rest..];
    assert raw[end..] == cmd[end - start..];
  }

  lemma WordStep(s: Text, i: nat)
    requires i <= |s|
    ensures WordLength(s[i..]) == if i == |s| || IsGap(s[i]) then 0 else 1 + WordLength(s[i + 1..])
  {
    if i < |s| {
      assert s[i..][1..] == s[i + 1..];
    }
  }

  method SkipGapsFrom(raw: Text, i0: nat) returns (i: nat)
    requires i0 <= |raw|
    ensures i0 <= i <= |raw| && SkipGaps(raw[i0..]) == raw[i..]
  {
    i := i0;
    while i < |raw| && IsGap(raw[i])
      invariant i0 <= i <= |raw| && SkipGaps(raw[i0..]) == SkipGaps(raw[i..])
    {
      assert raw[i..][1..] == raw[i + 1..];
      i := i + 1;
    }
  }

  /** A line made of blanks, a word, a gap and an argument splits into that word and
      that argument. */
  lemma LineSplits(blanks: Text, word: Text, gap: Text, arg: Text)
    requires (forall i | 0 <= i < |blanks| :: IsGap(blanks[i])) && forall i | 0 <= i < |gap| :: IsGap(gap[i])
    requires (forall i | 0 <= i < |word| :: !IsGap(word[i])) && word != []
    requires (arg != [] ==> gap != [] && !IsGap(arg[0]))
    ensures var cmd := SkipGaps(blanks + word + gap + arg);
            WordOf(cmd) == word && ArgumentOf(cmd) == arg
  {
    hide SkipGaps, WordLength;
    var tail: Text := gap + arg;
    Joined(blanks, word, gap, arg);
    SkipsGaps(blanks, word + tail);
    MeasuresWord(word, tail);
    Parted(word, tail);
    SkipsGaps(gap, arg);
  }

  lemma Joined(a: seq<byte>, b: seq<byte>, c: seq<byte>, d: seq<byte>)
    ensures a + b + c + d == a + (b + (c + d))
  {
  }

  lemma Parted(a: seq<byte>, b: seq<byte>)
    ensures (a + b)[..|a|] == a && (a + b)[|a|..] == b
  {
  }

  lemma {:induction false} SkipsGaps(gap: Text, s: Text)
    requires (forall i | 0 <= i < |gap| :: IsGap(gap[i])) && (s != [] ==> !IsGap(s[0]))
    ensures SkipGaps(gap + s) == s
    decreases |gap|
  {
    if gap == [] {
      assert gap + s == s;
    } else {
      assert (gap + s)[1..] == gap[1..] + s;
      SkipsGaps(gap[1..], s);
    }
  }

  lemma {:induction false} MeasuresWord(word: Text, s: Text)
    requires (forall i | 0 <= i < |word| :: !IsGap(word[i])) && (s != [] ==> IsGap(s[0]))
    ensures WordLength(word + s) == |word|
    decreases |word|
  {
    if word == [] {
      assert word + s == s;
    } else {
      assert (word + s)[1..] == word[1..] + s;
      MeasuresWord(word[1..], s);
    }
  }

  /** Which word does what: `quit` and `exit` end the session, `add` adds its argument,
      `save` saves, and nothing else changes anything. */
  lemma WordsMean(blanks: Text, word: Text, gap: Text, arg: Text)
    requires (forall i | 0 <= i < |blanks| :: IsGap(blanks[i])) && forall i | 0 <= i < |gap| :: IsGap(gap[i])
    requires (forall i | 0 <= i < |word| :: !IsGap(word[i])) && word != []
    requires (arg != [] ==> gap != [] && !IsGap(arg[0]))
    ensures var line := LineOf(blanks + word + gap + arg);
            && (line.None? <==> Spells(word, "quit") || Spells(word, "exit"))
            && (Spells(word, "add") ==> line == Some(Add(arg)))
            && (Spells(word, "save") ==> line == Some(Save))
            && (line.Some? && !Spells(word, "add") && !Spells(word, "save") ==> line == Some(Other))
  {
    hide SkipGaps, WordOf, ArgumentOf;
    LineSplits(blanks, word, gap, arg);
    SpellsIs(word);
  }

  /** The characters of a word, one by one. */
  ghost predicate Spells(word: Text, s: string) {
    |word| == |s| && forall i | 0 <= i < |s| :: word[i] == s[i] as int
  }

  lemma SpellsIs(word: Text)
    ensures Spells(word, "quit") <==> word == QUIT
    ensures Spells(word, "exit") <==> word == EXIT
    ensures Spells(word, "add") <==> word == ADD
    ensures Spells(word, "save") <==> word == SAVE
  {
  }

  /** An empty line, or one of blanks only, changes nothing. */
  lemma EmptyLine(blanks: Text)
    requires forall i | 0 <= i < |blanks| :: blanks[i] == 0x20 || blanks[i] == 0x09
    ensures LineOf(blanks) == Some(Other)
  {
    SkipsGaps(blanks, []);
    assert blanks + [] == blanks;
  }
}
