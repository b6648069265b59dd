/** Tokens, and the paragraph splitter that must not lose any. */
module Ingest {
  import opened Basics
  import opened Bytes
  import opened VdbFormat

  const NEWLINE: byte := 0x0A
  const RETURN: byte := 0x0D
  const TAB: byte := 0x09
  const SPACE: byte := 0x20

  /** Longer tokens are cut to this many characters. */
  const TOKEN_MAX: nat := 127

  // ---------- tokens ----------

  predicate IsAlnum(c: byte) {
    0x30 <= c <= 0x39 || 0x41 <= c <= 0x5A || 0x61 <= c <= 0x7A
  }

  function Lower(c: byte): byte {
    if 0x41 <= c <= 0x5A then c + 0x20 else c
  }

  type Token = seq<byte>

  function Closed(cur: Token): seq<Token> {
    if cur == [] then [] else [cur]
  }

  function Grown(cur: Token, c: byte): Token {
    if |cur| < TOKEN_MAX then cur + [Lower(c)] else cur
  }

  /** The tokens of the rest of a text, when `cur` has been read of the first. */
  function Tokens(s: seq<byte>, cur: Token): seq<Token>
    decreases |s|
  {
    if s == [] then Closed(cur)
    else if IsAlnum(s[0]) then Tokens(s[1..], Grown(cur, s[0]))
    else Closed(cur) + Tokens(s[1..], [])
  }

  method Tokenize(text: Text) returns (tokens: seq<Token>)
    ensures tokens == Tokens(text, [])
  {
    tokens := [];
    var tok: Token, i := [], 0;
    while i < |text|
      invariant 0 <= i <= |text|
      invariant Tokens(text, []) == tokens + Tokens(text[i..], tok)
    {
      assert text[i..][1..] == text[i + 1..];
      var c := text[i];
      if IsAlnum(c) {
        if |tok| < TOKEN_MAX {
          tok := tok + [Lower(c)];
        }
      } else if |tok| > 0 {
        tokens := tokens + [tok];
        tok := [];
      }
      i := i + 1;
    }
    if |tok| > 0 {
      tokens := tokens + [tok];
    }
  }

  /** A delimiter separates: the tokens of both sides, one after the other. */
  lemma {:induction false} TokensSplit(a: seq<byte>, d: byte, b: seq<byte>, cur: Token)
    requires !IsAlnum(d)
    ensures Tokens(a + [d] + b, cur) == Tokens(a, cur) + Tokens(b, [])
    decreases |a|
  {
    if a == [] {
      assert (a + [d] + b)[1..] == b;
    } else {
      assert (a + [d] + b)[1..] == a[1..] + [d] + b;
      if IsAlnum(a[0]) {
        TokensSplit(a[1..], d, b, Grown(cur, a[0]));
      } else {
        TokensSplit(a[1..], d, b, []);
      }
    }
  }

  // ---------- paragraphs ----------

  predicate IsBlank(c: byte) {
    c == NEWLINE || c == RETURN || c == SPACE || c == TAB
  }

  /** What is left after leading blanks. */
  function SkipBlanks(s: Text): (r: Text)
    ensures |r| <= |s| && (r != [] ==> !IsBlank(r[0]))
  {
    if s != [] && IsBlank(s[0]) then SkipBlanks(s[1..]) else s
  }

  /** Whether what follows a newline makes it end the paragraph: nothing but
      spaces up to another newline or the end of the text. */
  predicate BlankLine(s: Text) {
    if s == [] || s[0] == NEWLINE then true
    else (s[0] == RETURN || s[0] == SPACE || s[0] == TAB) && BlankLine(s[1..])
  }

  /** The length of the paragraph a text begins with. */
  function ParaLength(s: Text): (n: nat)
    ensures n <= |s| && (n < |s| ==> s[n] == NEWLINE)
    ensures s != [] && s[0] != NEWLINE ==> n > 0
  {
    if s == [] || (s[0] == NEWLINE && BlankLine(s[1..])) then 0 else 1 + ParaLength(s[1..])
  }

  function FoldChar(c: byte): (r: byte)
    ensures r != NEWLINE && r != RETURN && (c != 0 ==> r != 0)
  {
    if c == NEWLINE || c == RETURN then SPACE else c
  }

  /** Line ends become spaces. */
  function Fold(s: Text): (r: Text)
    ensures |r| == |s|
    ensures forall i | 0 <= i < |s| :: r[i] == FoldChar(s[i])
  {
    if s == [] then [] else [FoldChar(s[0])] + Fold(s[1..])
  }

  function Paragraphs(s: Text): (ps: seq<Text>)
    decreases |s|
  {
    var t := SkipBlanks(s);
    if t == [] then [] else
    var n := ParaLength(t);
    [Fold(t[..n])] + Paragraphs(if n < |t| then t[n + 1..] else [])
  }

  /** The tokens of a list of texts, in order. */
  function TokensOfAll(ps: seq<Text>): seq<Token> {
    if ps == [] then [] else Tokens(ps[0], []) + TokensOfAll(ps[1..])
  }

  lemma {:induction false} SkipKeepsTokens(s: Text)
    ensures Tokens(SkipBlanks(s), []) == Tokens(s, [])
    decreases |s|
  {
    if s != [] && IsBlank(s[0]) {
      SkipKeepsTokens(s[1..]);
    }
  }

  lemma {:induction false} FoldKeepsTokens(s: Text, cur: Token)
    ensures Tokens(Fold(s), cur) == Tokens(s, cur)
    decreases |s|
  {
    if s != [] {
      assert Fold(s)[1..] == Fold(s[1..]);
      if IsAlnum(s[0]) {
        FoldKeepsTokens(s[1..], Grown(cur, s[0]));
      } else {
        FoldKeepsTokens(s[1..], []);
      }
    }
  }

  /** Splitting a text into paragraphs loses no token, adds none, and keeps their order. */
  lemma {:induction false} ParagraphsKeepTokens(s: Text)
    ensures TokensOfAll(Paragraphs(s)) == Tokens(s, [])
    decreases |s|
  {
    var t := SkipBlanks(s);
    SkipKeepsTokens(s);
    if t != [] {
      var n := ParaLength(t);
      var rest: Text := if n < |t| then t[n + 1..] else [];
      ParagraphsKeepTokens(rest);
      OneParagraph(t, n, rest);
      assert Paragraphs(s) == [Fold(t[..n])] + Paragraphs(rest);
    }
  }

  lemma OneParagraph(t: Text, n: nat, rest: Text)
    requires n <= |t| && (n < |t| ==> t[n] == NEWLINE) && rest == if n < |t| then t[n + 1..] else []
    ensures Tokens(Fold(t[..n]), []) + Tokens(rest, []) == Tokens(t, [])
  {
    FoldKeepsTokens(t[..n], []);
    if n < |t| {
      assert t == t[..n] + [NEWLINE] + rest;
      TokensSplit(t[..n], NEWLINE, rest, []);
    } else {
      assert t[..n] == t;
    }
  }

  /** Every paragraph is non-empty and a single line. */
  lemma {:induction false} ParagraphsAreLines(s: Text)
    ensures forall i | 0 <= i < |Paragraphs(s)| ::
              && Paragraphs(s)[i] != []
              && NEWLINE !in Paragraphs(s)[i] && RETURN !in Paragraphs(s)[i]
    decreases |s|
  {
    var t := SkipBlanks(s);
    if t != [] {
      var n := ParaLength(t);
      ParagraphsAreLines(if n < |t| then t[n + 1..] else []);
      assert NEWLINE !in Fold(t[..n]) && RETURN !in Fold(t[..n]);
    }
  }

  // ---------- where a paragraph ends ----------

  /** A blank line begins at `i`: a newline there, and after it nothing but spaces, tabs
      and returns up to another newline or the end of the text. */
  ghost predicate BlankLineFrom(s: Text, i: nat) {
    i < |s| && s[i] == 0x0A && OnlyGapAfter(s, i + 1)
  }

  ghost predicate OnlyGapAfter(s: Text, lo: nat) {
    exists j :: GapUpTo(s, lo, j)
  }

  ghost predicate GapUpTo(s: Text, lo: nat, hi: nat) {
    && lo <= hi <= |s| && (hi == |s| || s[hi] == 0x0A)
    && forall k | lo <= k < hi :: s[k] == 0x20 || s[k] == 0x09 || s[k] == 0x0D
  }

  /** `r` is `s` on a single line: every newline and every return a space. */
  ghost predicate OnOneLine(s: Text, r: Text) {
    |r| == |s| && forall i | 0 <= i < |s| :: r[i] == if s[i] == 0x0A || s[i] == 0x0D then 0x20 else s[i]
  }

  lemma {:induction false} BlankLineIs(s: Text, i: nat)
    requires i <= |s|
    ensures BlankLine(s[i..]) <==> OnlyGapAfter(s, i)
    decreases |s| - i
  {
    if i == |s| || s[i] == NEWLINE {
      assert GapUpTo(s, i, i);
    } else {
      assert s[i..][1..] == s[i + 1..];
      BlankLineIs(s, i + 1);
      if BlankLine(s[i..]) {
        var j :| GapUpTo(s, i + 1, j);
        assert GapUpTo(s, i, j);
      }
      if j :| GapUpTo(s, i, j) {
        assert GapUpTo(s, i + 1, j);
      }
    }
  }

  lemma BlankLineFromIs(s: Text, i: nat)
    requires i < |s| && s[i] == NEWLINE
    ensures BlankLineFrom(s, i) <==> BlankLine(s[i + 1..])
  {
    BlankLineIs(s, i + 1);
  }

  /** The paragraph ends where the first blank line begins, or with the text. */
  lemma {:induction false} ParaLengthIs(s: Text, i: nat, n: nat)
    requires i <= n <= |s| && (forall j | i <= j < n :: !BlankLineFrom(s, j)) && (n < |s| ==> BlankLineFrom(s, n))
    ensures ParaLength(s[i..]) == n - i
    decreases n - i
  {
    hide BlankLineFrom, BlankLine;
    if i < |s| {
      assert s[i..][0] == s[i] && s[i..][1..] == s[i + 1..];
      if s[i] == NEWLINE {
        BlankLineFromIs(s, i);
      }
      if i < n {
        ParaLengthIs(s, i + 1, n);
      } else {
        BeginsWithNewline(s, n);
      }
    }
  }

  lemma BeginsWithNewline(s: Text, i: nat)
    requires BlankLineFrom(s, i)
    ensures i < |s| && s[i] == NEWLINE
  {
  }

  /** Leading blanks belong to no paragraph, and an empty text has none. */
  lemma BlanksAreSkipped(b: byte, s: Text)
    requires b == 0x20 || b == 0x09 || b == 0x0A || b == 0x0D
    ensures Paragraphs([b] + s) == Paragraphs(s) && Paragraphs([]) == []
  {
    assert ([b] + s)[1..] == s;
  }

  /** A text that starts with a non-blank and has no blank line is one paragraph. */
  lemma OneParagraphOnly(s: Text)
    requires s != [] && s[0] != 0x20 && s[0] != 0x09 && s[0] != 0x0A && s[0] != 0x0D
    requires forall i | 0 <= i < |s| :: !BlankLineFrom(s, i)
    ensures |Paragraphs(s)| == 1 && OnOneLine(s, Paragraphs(s)[0])
  {
    ParaLengthIs(s, 0, |s|);
    assert s[0..] == s && s[..|s|] == s;
    assert Paragraphs([]) == [];
  }

  /** One with a blank line is the part before the first one, on one line, and then
      the paragraphs of what follows that newline. */
  lemma FirstParagraphThenRest(s: Text, n: nat)
    requires s != [] && s[0] != 0x20 && s[0] != 0x09 && s[0] != 0x0A && s[0] != 0x0D
    requires BlankLineFrom(s, n) && forall i | 0 <= i < n :: !BlankLineFrom(s, i)
    ensures var ps := Paragraphs(s);
            |ps| > 0 && OnOneLine(s[..n], ps[0]) && ps[1..] == Paragraphs(s[n + 1..])
  {
    ParaLengthIs(s, 0, n);
    assert s[0..] == s;
  }

  // ---------- what a token is ----------

  ghost predicate Alnum(c: byte) {
    '0' as int <= c <= '9' as int || 'A' as int <= c <= 'Z' as int || 'a' as int <= c <= 'z' as int
  }

  /** A run of letters and digits up to a delimiter is one token: its first 127
      characters, with capital letters made small. A delimiter alone makes none. */
  lemma TokenOfRun(run: seq<byte>, d: byte, rest: seq<byte>)
    requires (forall i | 0 <= i < |run| :: Alnum(run[i])) && !Alnum(d)
    ensures var ts := Tokens(run + [d] + rest, []);
            if run == [] then ts == Tokens(rest, [])
            else
              && ts != [] && ts[1..] == Tokens(rest, [])
              && |ts[0]| == Min(|run|, 127)
              && forall i | 0 <= i < |ts[0]| ::
                   ts[0][i] == if 'A' as int <= run[i] <= 'Z' as int then run[i] as int + 32 else run[i]
  {
    TokensSplit(run, d, rest, []);
    RunGathers(run, []);
  }

  /** The last run of a text counts, too. */
  lemma TokenAtEnd(run: seq<byte>)
    requires run != [] && forall i | 0 <= i < |run| :: Alnum(run[i])
    ensures var ts := Tokens(run, []);
            && |ts| == 1 && |ts[0]| == Min(|run|, 127)
            && forall i | 0 <= i < |ts[0]| ::
                 ts[0][i] == if 'A' as int <= run[i] <= 'Z' as int then run[i] as int + 32 else run[i]
  {
    RunGathers(run, []);
  }

  lemma {:induction false} RunGathers(run: seq<byte>, cur: Token)
    requires (forall i | 0 <= i < |run| :: Alnum(run[i])) && |cur| <= 127
    ensures var ts := Tokens(run, cur);
            if run == [] && cur == [] then ts == []
            else
              && |ts| == 1 && |ts[0]| == Min(|cur| + |run|, 127) && ts[0][..|cur|] == cur
              && forall i | |cur| <= i < |ts[0]| ::
                   ts[0][i] == var c := run[i - |cur|]; if 'A' as int <= c <= 'Z' as int then c as int + 32 else c
    decreases |run|
  {
    if run != [] {
      var next := Grown(cur, run[0]);
      RunGathers(run[1..], next);
      assert Tokens(run, cur) == Tokens(run[1..], next);
    }
  }

  // ---------- in place ----------

  /** From `p` on, the buffer still holds the text and its terminator. */
  ghost predicate Unread(buf: array<byte>, p: nat, text: Text)
    reads buf
  {
    p <= |text| < buf.Length && buf[|text|] == 0 && forall i | p <= i < |text| :: buf[i] == text[i]
  }

  method SkipBlanksAt(buf: array<byte>, p0: nat, ghost text: Text) returns (p: nat)
    requires Unread(buf, p0, text)
    ensures p0 <= p <= |text| && SkipBlanks(text[p0..]) == text[p..]
  {
    p := p0;
    while buf[p] == NEWLINE || buf[p] == RETURN || buf[p] == SPACE || buf[p] == TAB
      invariant p0 <= p <= |text| && SkipBlanks(text[p0..]) == SkipBlanks(text[p..])
      decreases |text| - p
    {
      assert text[p..][1..] == text[p + 1..];
      p := p + 1;
    }
  }

  method BlankLineAt(buf: array<byte>, p: nat, ghost text: Text) returns (b: bool)
    requires Unread(buf, p, text)
    ensures b == BlankLine(text[p..])
  {
    var look := p;
    while buf[look] == RETURN || buf[look] == SPACE || buf[look] == TAB
      invariant p <= look <= |text| && BlankLine(text[p..]) == BlankLine(text[look..])
      decreases |text| - look
    {
      assert text[look..][1..] == text[look + 1..];
      look := look + 1;
    }
    b := buf[look] == NEWLINE || buf[look] == 0;
  }

  method ParaEndAt(buf: array<byte>, p0: nat, ghost text: Text) returns (p: nat)
    requires Unread(buf, p0, text)
    ensures p0 <= p <= |text| && p == p0 + ParaLength(text[p0..])
  {
    p := p0;
    while buf[p] != 0
      invariant p0 <= p <= |text| && p0 + ParaLength(text[p0..]) == p + ParaLength(text[p..])
      decreases |text| - p
    {
      assert text[p..][1..] == text[p + 1..];
      if buf[p] == NEWLINE {
        var ends := BlankLineAt(buf, p + 1, text);
        if ends {
          break;
        }
      }
      p := p + 1;
    }
  }

  /** Fold the characters from `a` up to the terminator at `e`. */
  method FoldAt(buf: array<byte>, a: nat, e: nat)
    requires a <= e < buf.Length && buf[e] == 0 && forall i | a <= i < e :: buf[i] != 0
    modifies buf
    ensures forall i | a <= i < e :: buf[i] == FoldChar(old(buf[i]))
    ensures forall i | 0 <= i < buf.Length && !(a <= i < e) :: buf[i] == old(buf[i])
  {
    var q := a;
    while buf[q] != 0
      invariant a <= q <= e
      invariant forall i | a <= i < q :: buf[i] == FoldChar(old(buf[i]))
      invariant forall i | 0 <= i < buf.Length && !(a <= i < q) :: buf[i] == old(buf[i])
      decreases e - q
    {
      if buf[q] == NEWLINE || buf[q] == RETURN {
        buf[q] := SPACE;
      }
      q := q + 1;
    }
  }

  /** Terminate and fold the paragraph that starts at `para`: its text, and where
      the rest of the buffer begins. */
  method TakeParagraph(buf: array<byte>, para: nat, ghost before: nat, ghost text: Text) returns (t: Text, p: nat)
    requires Unread(buf, para, text) && before <= para < |text| && SkipBlanks(text[before..]) == text[para..]
    modifies buf
    ensures para < p <= |text| && Unread(buf, p, text)
    ensures Paragraphs(text[before..]) == [t] + Paragraphs(text[p..])
  {
    hide Paragraphs, Fold, SkipBlanks, ParaLength;
    var end := ParaEndAt(buf, para, text);
    NextParagraph(text, before, para, end - para);
    p := end;
    if buf[p] != 0 {
      buf[p] := 0;
      p := p + 1;
    }
    FoldAt(buf, para, end);
    FoldedSlice(text[para..][..end - para], buf[para..end]);
    t := buf[para..end];
  }

  lemma NothingLeft(text: Text)
    ensures Paragraphs(text[|text|..]) == [] && Paragraphs([]) == []
  {
  }

  lemma NoParagraph(text: Text, p: nat)
    requires p <= |text| && SkipBlanks(text[p..]) == []
    ensures Paragraphs(text[p..]) == []
  {
  }

  lemma FoldedSlice(s: Text, r: seq<byte>)
    requires |r| == |s| && forall i | 0 <= i < |s| :: r[i] == FoldChar(s[i])
    ensures r == Fold(s)
  {
  }

  lemma NextParagraph(text: Text, p: nat, para: nat, n: nat)
    requires p <= para < |text| && SkipBlanks(text[p..]) == text[para..]
    requires n == ParaLength(text[para..])
    ensures n > 0 && para + n <= |text|
    ensures var next := if para + n < |text| then para + n + 1 else para + n;
            Paragraphs(text[p..]) == [Fold(text[para..][..n])] + Paragraphs(text[next..])
  {
    var t := text[para..];
    if para + n < |text| {
      assert t[n + 1..] == text[para + n + 1..];
    } else {
      assert text[para + n..] == [];
    }
  }
}
