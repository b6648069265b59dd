/** Directory entries: 64-byte records and the lists of them a directory holds. */
module DirEntries {
  import opened Basics
  import opened Bytes

  const ENTRY_SIZE: nat := 64
  const NAME_FIELD: nat := 31

  const STATUS_IN_USE: byte := 1
  const STATUS_FILE: byte := 2
  const STATUS_DIR: byte := 4

  datatype FsTime = FsTime(year: u16, month: byte, day: byte, hour: byte, minute: byte, second: byte)

  /** A C string that fits the name field with its terminator. */
  type Name = n: seq<byte> | |n| < NAME_FIELD && 0 !in n

  datatype DirEntry = DirEntry(status: byte, start: u32, numBlocks: u32, size: u32,
                               ctime: FsTime, mtime: FsTime, name: Name)
  {
    // The tests (status & STATUS_X) != 0, for the flags 1, 2 and 4.
    predicate InUse() { status % 2 == 1 }
    predicate IsFile() { status / 2 % 2 == 1 }
    predicate IsDir() { status / 4 % 2 == 1 }
  }

  function EncodeTime(t: FsTime): (b: seq<byte>)
    ensures |b| == 7
  {
    Be16(t.year) + [t.month, t.day, t.hour, t.minute, t.second]
  }

  function ParseTime(b: seq<byte>): FsTime
    requires |b| == 7
  {
    FsTime(FromBe16(b[..2]), b[2], b[3], b[4], b[5], b[6])
  }

  function Encode(e: DirEntry): (b: seq<byte>)
    ensures |b| == ENTRY_SIZE
  {
    [e.status] + Be32(e.start) + Be32(e.numBlocks) + Be32(e.size)
    + EncodeTime(e.ctime) + EncodeTime(e.mtime)
    + (e.name + Zeros(NAME_FIELD - |e.name|)) + seq(6, _ => 0xFF)
  }

  function Parse(b: seq<byte>): DirEntry
    requires |b| == ENTRY_SIZE
  {
    DirEntry(b[0], FromBe32(b[1..5]), FromBe32(b[5..9]), FromBe32(b[9..13]),
             ParseTime(b[13..20]), ParseTime(b[20..27]), CString(b[27..57]))
  }

  /** Which byte of a record holds what, as the program writes it. */
  lemma EntryBytes(e: DirEntry)
    ensures var b := Encode(e);
            && b[0] == e.status && b[1..5] == Be32(e.start) && b[5..9] == Be32(e.numBlocks) && b[9..13] == Be32(e.size)
            && b[13..15] == Be16(e.ctime.year) && b[20..22] == Be16(e.mtime.year)
            && b[15..20] == [e.ctime.month, e.ctime.day, e.ctime.hour, e.ctime.minute, e.ctime.second]
            && b[22..27] == [e.mtime.month, e.mtime.day, e.mtime.hour, e.mtime.minute, e.mtime.second]
            && b[27..27 + |e.name|] == e.name
            && (forall i | 27 + |e.name| <= i < 58 :: b[i] == 0)
            && (forall i | 58 <= i < 64 :: b[i] == 0xFF)
  {
    hide Be16, Be32;
    var b := Encode(e);
    assert b[13..20] == EncodeTime(e.ctime) && b[20..27] == EncodeTime(e.mtime);
    assert b[13..15] == EncodeTime(e.ctime)[0..2] && b[15..20] == EncodeTime(e.ctime)[2..7];
    assert b[20..22] == EncodeTime(e.mtime)[0..2] && b[22..27] == EncodeTime(e.mtime)[2..7];
  }

  /** And as it reads them: of the name, what comes before the first zero. */
  lemma EntryFields(b: seq<byte>, n: nat)
    requires |b| == ENTRY_SIZE && n <= 30 && (n < 30 ==> b[27 + n] == 0) && forall i | 27 <= i < 27 + n :: b[i] != 0
    ensures var e := Parse(b);
            && e.status == b[0] && e.start == FromBe32(b[1..5]) && e.numBlocks == FromBe32(b[5..9])
            && e.size == FromBe32(b[9..13]) && e.name == b[27..27 + n]
            && e.ctime == FsTime(FromBe16(b[13..15]), b[15], b[16], b[17], b[18], b[19])
            && e.mtime == FsTime(FromBe16(b[20..22]), b[22], b[23], b[24], b[25], b[26])
            && e.InUse() == (b[0] % 2 == 1) && e.IsFile() == (b[0] / 2 % 2 == 1) && e.IsDir() == (b[0] / 4 % 2 == 1)
  {
    hide FromBe16, FromBe32, CString;
    assert b[13..20][..2] == b[13..15] && b[20..27][..2] == b[20..22];
    if n < 30 {
      assert b[27..57] == b[27..27 + n] + [0] + b[28 + n..57];
      CStringStops(b[27..27 + n], b[28 + n..57]);
    } else {
      CStringOfPadded(b[27..57], 0);
      assert b[27..57] + Zeros(0) == b[27..57];
    }
  }

  lemma TimeRoundTrip(t: FsTime)
    ensures ParseTime(EncodeTime(t)) == t
  {
    assert EncodeTime(t)[..2] == Be16(t.year);
  }

  /** Every entry the program can hold is read back unchanged. */
  lemma EntryRoundTrip(e: DirEntry)
    ensures Parse(Encode(e)) == e
  {
    var b := Encode(e);
    assert b[1..5] == Be32(e.start);
    assert b[5..9] == Be32(e.numBlocks);
    assert b[9..13] == Be32(e.size);
    assert b[13..20] == EncodeTime(e.ctime);
    assert b[20..27] == EncodeTime(e.mtime);
    assert b[27..57] == e.name + Zeros(30 - |e.name|);
    Be32RoundTrip(e.start);
    Be32RoundTrip(e.numBlocks);
    Be32RoundTrip(e.size);
    TimeRoundTrip(e.ctime);
    TimeRoundTrip(e.mtime);
    CStringOfPadded(e.name, 30 - |e.name|);
  }

  /** The entries of one directory block. */
  function BlockEntries(blk: seq<byte>): (es: seq<DirEntry>)
    ensures |es| == |blk| / ENTRY_SIZE
  {
    seq(|blk| / ENTRY_SIZE, s requires 0 <= s < |blk| / ENTRY_SIZE =>
      Parse(blk[s * ENTRY_SIZE..(s + 1) * ENTRY_SIZE]))
  }

  /** Writing an encoded entry over slot `s` of a block replaces that entry and no other. */
  lemma PatchedBlockEntries(blk: seq<byte>, s: nat, e: DirEntry)
    requires s < |blk| / ENTRY_SIZE
    ensures BlockEntries(Splice(blk, s * ENTRY_SIZE, Encode(e))) == BlockEntries(blk)[s := e]
  {
    EntryRoundTrip(e);
    var p := Splice(blk, s * ENTRY_SIZE, Encode(e));
    forall t | 0 <= t < |blk| / ENTRY_SIZE
      ensures BlockEntries(p)[t] == BlockEntries(blk)[s := e][t]
    {
      if t == s {
        assert p[s * ENTRY_SIZE..(s + 1) * ENTRY_SIZE] == Encode(e);
      } else {
        SpliceElsewhere(blk, s * ENTRY_SIZE, Encode(e), t * ENTRY_SIZE, (t + 1) * ENTRY_SIZE);
      }
    }
  }

  /** No entry of a zeroed block is in use. */
  lemma ZeroBlockEntries(n: nat)
    ensures forall s | 0 <= s < n / ENTRY_SIZE :: !BlockEntries(Zeros(n))[s].InUse()
  {
  }

  /** The first in-use entry with the given name. */
  function FindIn(es: seq<DirEntry>, name: Name): (r: Option<DirEntry>)
    ensures r.Some? ==> r.value in es && r.value.InUse() && r.value.name == name
  {
    if es == [] then None
    else if es[0].InUse() && es[0].name == name then Some(es[0])
    else FindIn(es[1..], name)
  }

  /** The position of the first unused entry, or the length when all are in use. */
  function FirstUnused(es: seq<DirEntry>): (k: nat)
    ensures k <= |es| && (k < |es| ==> !es[k].InUse())
    ensures forall i | 0 <= i < k :: es[i].InUse()
  {
    if es == [] || !es[0].InUse() then 0 else 1 + FirstUnused(es[1..])
  }

  /** A lookup finds the first entry in use with that name, and nothing if there is none. */
  lemma {:induction false} FindInIsFirst(es: seq<DirEntry>, name: Name)
    ensures FindIn(es, name).None? <==> forall i | 0 <= i < |es| :: !(es[i].InUse() && es[i].name == name)
    ensures forall i | 0 <= i < |es| && es[i].InUse() && es[i].name == name
               && (forall j | 0 <= j < i :: !(es[j].InUse() && es[j].name == name)) :: FindIn(es, name) == Some(es[i])
  {
    if es != [] {
      FindInIsFirst(es[1..], name);
      assert forall i | 0 < i < |es| :: es[i] == es[1..][i - 1];
    }
  }

  lemma {:induction false} FindInConcat(a: seq<DirEntry>, b: seq<DirEntry>, name: Name)
    ensures FindIn(a + b, name) == if FindIn(a, name).Some? then FindIn(a, name) else FindIn(b, name)
  {
    if a == [] {
      assert a + b == b;
    } else {
      assert (a + b)[1..] == a[1..] + b;
      FindInConcat(a[1..], b, name);
    }
  }

  lemma {:induction false} FindInUnused(es: seq<DirEntry>, name: Name)
    requires forall i | 0 <= i < |es| :: !es[i].InUse()
    ensures FindIn(es, name).None?
  {
    if es != [] {
      FindInUnused(es[1..], name);
    }
  }

  lemma {:induction false} FirstUnusedConcat(a: seq<DirEntry>, b: seq<DirEntry>)
    ensures FirstUnused(a + b) == if FirstUnused(a) < |a| then FirstUnused(a) else |a| + FirstUnused(b)
  {
    if a == [] {
      assert a + b == b;
    } else {
      assert (a + b)[1..] == a[1..] + b;
      FirstUnusedConcat(a[1..], b);
    }
  }

  /** Exactly what filling the first unused slot does to every lookup: the new
      entry answers for its own name unless an earlier entry already does, and
      no other answer changes. */
  lemma FindInAfterFill(es: seq<DirEntry>, k: nat, e: DirEntry, name: Name)
    requires k < |es| && !es[k].InUse() && e.InUse()
    ensures FindIn(es[k := e], name)
         == if name == e.name && FindIn(es[..k], name).None? then Some(e) else FindIn(es, name)
  {
    FindInConcat(es[..k], [e] + es[k + 1..], name);
    FindInConcat(es[..k], [es[k]] + es[k + 1..], name);
    assert es[k := e] == es[..k] + ([e] + es[k + 1..]);
    assert es == es[..k] + ([es[k]] + es[k + 1..]);
    FindInConcat([e], es[k + 1..], name);
    FindInConcat([es[k]], es[k + 1..], name);
  }
}
