/** Machine integers, big-endian encodings and in-place byte writes.

    Both programs of the repository keep integers big-endian on disk: the file
    system through htonl/ntohl, the vector store through put_be/get_be. */
module Bytes {

  type byte = x: int | 0 <= x < 0x100
  type u16 = x: int | 0 <= x < 0x1_0000
  type u32 = x: int | 0 <= x < 0x1_0000_0000
  type u64 = x: int | 0 <= x < 0x1_0000_0000_0000_0000

  function Be16(v: u16): (b: seq<byte>)
    ensures |b| == 2
  {
    [v / 0x100, v % 0x100]
  }

  function FromBe16(b: seq<byte>): u16
    requires |b| == 2
  {
    (b[0] as int) * 0x100 + b[1]
  }

  function Be32(v: u32): (b: seq<byte>)
    ensures |b| == 4
  {
    Be16(v / 0x1_0000) + Be16(v % 0x1_0000)
  }

  function FromBe32(b: seq<byte>): u32
    requires |b| == 4
  {
    (FromBe16(b[..2]) as int) * 0x1_0000 + FromBe16(b[2..])
  }

  function Be64(v: u64): (b: seq<byte>)
    ensures |b| == 8
  {
    Be32(v / 0x1_0000_0000) + Be32(v % 0x1_0000_0000)
  }

  function FromBe64(b: seq<byte>): u64
    requires |b| == 8
  {
    (FromBe32(b[..4]) as int) * 0x1_0000_0000 + FromBe32(b[4..])
  }

  lemma Be16RoundTrip(v: u16)
    ensures FromBe16(Be16(v)) == v
  {
  }

  /** Reading back a written 32-bit word gives the word. */
  lemma Be32RoundTrip(v: u32)
    ensures FromBe32(Be32(v)) == v
  {
    assert Be32(v)[..2] == Be16(v / 0x1_0000);
    assert Be32(v)[2..] == Be16(v % 0x1_0000);
  }

  lemma Be64RoundTrip(v: u64)
    ensures FromBe64(Be64(v)) == v
  {
    Be32RoundTrip(v / 0x1_0000_0000);
    Be32RoundTrip(v % 0x1_0000_0000);
    assert Be64(v)[..4] == Be32(v / 0x1_0000_0000);
    assert Be64(v)[4..] == Be32(v % 0x1_0000_0000);
  }

  /** What a run of bytes is worth, highest byte first. */
  function Worth(b: seq<byte>): nat {
    if b == [] then 0 else Worth(b[..|b| - 1]) * 0x100 + b[|b| - 1] as int
  }

  lemma WorthOfTwo(b: seq<byte>)
    requires |b| == 2
    ensures Worth(b) == b[0] as int * 0x100 + b[1] as int
  {
    assert b[..1] == [b[0]] && [b[0]][..0] == [];
    assert Worth([]) == 0 && Worth([b[0]]) == b[0] as int;
  }

  lemma {:induction false} WorthOfHalves(a: seq<byte>, b: seq<byte>)
    requires |b| == 2 || |b| == 4
    ensures Worth(a + b) == Worth(a) * (if |b| == 2 then 0x1_0000 else 0x1_0000_0000) + Worth(b)
    decreases |b|
  {
    if |b| == 2 {
      assert (a + b)[..|a| + 1] == a + [b[0]] && (a + [b[0]])[..|a|] == a;
      WorthOfTwo(b);
    } else {
      assert a + b == (a + b[..2]) + b[2..] && b[..2] + b[2..] == b;
      WorthOfHalves(a, b[..2]);
      WorthOfHalves(a + b[..2], b[2..]);
      WorthOfHalves(b[..2], b[2..]);
    }
  }

  /** All the words are kept highest byte first. */
  lemma BigEndian(v16: u16, v32: u32, v64: u64)
    ensures Worth(Be16(v16)) == v16 && Worth(Be32(v32)) == v32 && Worth(Be64(v64)) == v64
  {
    var (h, l) := (v64 / 0x1_0000_0000, v64 % 0x1_0000_0000);
    WorthOfTwo(Be16(v16));
    WorthOfWord(v32);
    WorthOfWord(h);
    WorthOfWord(l);
    WorthOfHalves(Be32(h), Be32(l));
  }

  lemma WorthOfWord(v: u32)
    ensures Worth(Be32(v)) == v
  {
    var (h, l) := (v / 0x1_0000, v % 0x1_0000);
    WorthOfTwo(Be16(h));
    WorthOfTwo(Be16(l));
    WorthOfHalves(Be16(h), Be16(l));
  }

  lemma ReadsBigEndian(b: seq<byte>)
    ensures |b| == 2 ==> FromBe16(b) == Worth(b)
    ensures |b| == 4 ==> FromBe32(b) == Worth(b)
    ensures |b| == 8 ==> FromBe64(b) == Worth(b)
  {
    if |b| == 2 {
      WorthOfTwo(b);
    } else if |b| == 4 {
      ReadsWord(b);
    } else if |b| == 8 {
      assert b == b[..4] + b[4..];
      ReadsWord(b[..4]);
      ReadsWord(b[4..]);
      WorthOfHalves(b[..4], b[4..]);
    }
  }

  lemma ReadsWord(b: seq<byte>)
    requires |b| == 4
    ensures FromBe32(b) == Worth(b)
  {
    assert b == b[..2] + b[2..];
    WorthOfTwo(b[..2]);
    WorthOfTwo(b[2..]);
    WorthOfHalves(b[..2], b[2..]);
  }

  /** `n` zero bytes: what memset(p, 0, n) leaves behind. */
  function Zeros(n: nat): (z: seq<byte>)
    ensures |z| == n
    ensures forall i | 0 <= i < n :: z[i] == 0
  {
    seq(n, _ => 0)
  }

  /** `s` after `data` has been written over it at offset `off`. */
  function Splice<T>(s: seq<T>, off: nat, data: seq<T>): (r: seq<T>)
    requires off + |data| <= |s|
    ensures |r| == |s|
    ensures r[off..off + |data|] == data
    ensures forall i | 0 <= i < |s| && !(off <= i < off + |data|) :: r[i] == s[i]
  {
    s[..off] + data + s[off + |data|..]
  }

  /** A window that the write does not touch reads as before. */
  lemma SpliceElsewhere<T>(s: seq<T>, off: nat, data: seq<T>, lo: nat, hi: nat)
    requires off + |data| <= |s| && lo <= hi <= |s|
    requires hi <= off || off + |data| <= lo
    ensures Splice(s, off, data)[lo..hi] == s[lo..hi]
  {
  }

  /** A window around the write reads as the old window with the write inside it. */
  lemma SpliceWithin<T>(s: seq<T>, off: nat, data: seq<T>, lo: nat, hi: nat)
    requires lo <= off && off + |data| <= hi <= |s|
    ensures Splice(s, off, data)[lo..hi] == Splice(s[lo..hi], off - lo, data)
  {
  }

  /** The bytes before the first NUL. */
  function CString(b: seq<byte>): (n: seq<byte>)
    ensures |n| <= |b| && 0 !in n
  {
    if b == [] || b[0] == 0 then [] else [b[0]] + CString(b[1..])
  }

  /** A C string ends at the first zero byte, whatever follows. */
  lemma {:induction false} CStringStops(n: seq<byte>, rest: seq<byte>)
    requires 0 !in n
    ensures CString(n + [0] + rest) == n
  {
    if n == [] {
      assert (n + [0] + rest)[0] == 0;
    } else {
      assert (n + [0] + rest)[1..] == n[1..] + [0] + rest;
      CStringStops(n[1..], rest);
    }
  }

  lemma {:induction false} CStringOfPadded(n: seq<byte>, k: nat)
    requires 0 !in n
    ensures CString(n + Zeros(k)) == n
  {
    if n == [] {
      assert n + Zeros(k) == Zeros(k);
    } else {
      assert (n + Zeros(k))[1..] == n[1..] + Zeros(k);
      CStringOfPadded(n[1..], k);
    }
  }

  /** The bytes in `n` pieces of `bs` bytes: the product, written so that the
      solver only ever adds. */
  function Span(bs: nat, n: nat): nat {
    if n == 0 then 0 else Span(bs, n - 1) + bs
  }

  lemma {:induction false} SpanIsProduct(bs: nat, n: nat)
    ensures Span(bs, n) == n * bs
  {
    if n > 0 {
      SpanIsProduct(bs, n - 1);
      assert n * bs == (n - 1) * bs + bs;
    }
  }

  lemma {:induction false} SpanMono(bs: nat, a: nat, b: nat)
    requires a <= b
    ensures Span(bs, a) <= Span(bs, b)
  {
    if a < b {
      SpanMono(bs, a, b - 1);
    }
  }

  lemma {:induction false} SpanSum(bs: nat, a: nat, b: nat)
    ensures Span(bs, a + b) == Span(bs, a) + Span(bs, b)
  {
    if b > 0 {
      SpanSum(bs, a, b - 1);
    }
  }
}
