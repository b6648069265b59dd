/** The programs themselves, step by step: an open image whose bytes change
    through block, table and entry writes, and an in-memory table kept equal to
    the one in the image. Every method is tied to the function of the volume that
    it computes. */
module Disks {
  import opened Basics
  import opened Bytes
  import opened FatChain
  import opened DirEntries
  import opened Volumes
  import opened Images
  import opened Layouts
  import opened Files
  import opened Operations
  import opened PutGet

  /** A directory lookup, one block at a time. */
  lemma FindStep(blocks: seq<seq<byte>>, c: seq<nat>, b: nat, name: Name)
    requires InTable(c, |blocks|) && b < |c|
    ensures var first := FindIn(BlockEntries(blocks[c[b]]), name);
            FindIn(Entries(blocks, c[b..]), name)
            == if first.Some? then first else FindIn(Entries(blocks, c[b + 1..]), name)
  {
    assert c[b..][1..] == c[b + 1..];
    FindInConcat(BlockEntries(blocks[c[b]]), Entries(blocks, c[b + 1..]), name);
  }

  lemma OnlyFreeBlock(sb: Superblock, v: Volume, f: seq<u32>)
    requires MetaTaken(sb, v) && f == FreeBlocks(v.fat, 0, 1) && |f| == 1
    ensures f[0] < |v.fat| && v.fat[f[0]] == FREE && !IsMeta(sb, f[0])
    ensures FreeBlocks(v.fat, 0, 1) == [f[0]]
  {
    assert v.fat[f[0]] == FREE;
  }

  lemma GetSlotCases(bs: nat, v: Volume, d: u32, c: seq<nat>)
    requires bs >= ENTRY_SIZE && c == ChainOf(v, d) && c != []
    ensures var free := FreeSlot(v.blocks, c);
            var f := FreeBlocks(v.fat, 0, 1);
            GetSlot(bs, v, d)
            == if free.Some? then Some((v, free.value))
               else if |f| == 1 then Some((Append(bs, v, c[|c| - 1], f[0]), Loc(f[0], 0)))
               else None
  {
  }

  lemma StoreOneEmpty(bs: nat, v: Volume, b: nat)
    requires b < |v.fat|
    ensures Store(bs, v, [b], []) == Vol(v.fat[b := EOF], v.blocks[b := Zeros(bs)])
  {
    var none: seq<byte> := [];
    var next := v.blocks[b := none[..0] + Zeros(bs - 0)];
    assert [b][1..] == [];
    assert none[..0] + Zeros(bs - 0) == Zeros(bs);
    assert Fill(bs, v.blocks, [b], none) == Fill(bs, next, [b][1..], none[0..]) == next;
    assert Link(v.fat, [b]) == Link(v.fat[b := EOF], [b][1..]);
  }

  lemma ResolveOrCreateStep(bs: nat, v: Volume, d: u32, comps: Path, clock: nat -> FsTime, i: nat)
    requires bs >= ENTRY_SIZE && i < |comps|
    ensures ResolveOrCreate(bs, v, d, comps[i..], clock, i)
         == match Lookup(v, d, comps[i])
            case Some(e) =>
              if e.IsDir() then ResolveOrCreate(bs, v, e.start, comps[i + 1..], clock, i + 1) else (v, None)
            case None =>
              var (w, s) := CreateDir(bs, v, d, comps[i], clock(i));
              if s.Some? then ResolveOrCreate(bs, w, s.value, comps[i + 1..], clock, i + 1) else (w, None)
  {
    assert comps[i..][1..] == comps[i + 1..];
  }

  lemma ResolveOrCreateDone(bs: nat, v: Volume, d: u32, clock: nat -> FsTime, i: nat)
    requires bs >= ENTRY_SIZE
    ensures ResolveOrCreate(bs, v, d, [], clock, i) == (v, Some(d))
  {
  }

  lemma ExtractStep(blocks: seq<seq<byte>>, c: seq<nat>, b: nat, size: nat, out: seq<byte>)
    requires InTable(c, |blocks|) && b < |c|
    ensures var chunk := Min(|blocks[c[b]]|, size);
            out + Extract(blocks, c[b..], size)
            == out + blocks[c[b]][..chunk] + Extract(blocks, c[b + 1..], size - chunk)
  {
    assert c[b..][1..] == c[b + 1..];
  }

  lemma FillStep(bs: nat, blocks: seq<seq<byte>>, c: seq<nat>, data: seq<byte>, k: nat, off: nat)
    requires InTable(c, |blocks|) && k < |c| && off <= |data|
    ensures var chunk := Min(bs, |data| - off);
            Fill(bs, blocks, c[k..], data[off..])
            == Fill(bs, blocks[c[k] := data[off..off + chunk] + Zeros(bs - chunk)], c[k + 1..], data[off + chunk..])
  {
    hide Zeros;
    var chunk := Min(bs, |data| - off);
    assert data[off..][..chunk] == data[off..off + chunk];
    assert data[off..][chunk..] == data[off + chunk..];
    assert c[k..][1..] == c[k + 1..];
  }

  lemma Regrouped(a: seq<nat>, x: nat, b: seq<nat>)
    ensures a + ([x] + b) == a + [x] + b
  {
  }

  lemma FillNone(bs: nat, blocks: seq<seq<byte>>, data: seq<byte>)
    ensures Fill(bs, blocks, [], data) == blocks
  {
  }

  lemma FreeStep(fat: seq<u32>, i: nat, need: nat)
    requires i <= |fat|
    ensures FreeBlocks(fat, i, need)
         == if i == |fat| || need == 0 then []
            else if fat[i] == FREE then [i] + FreeBlocks(fat, i + 1, need - 1)
            else FreeBlocks(fat, i + 1, need)
  {
  }

  lemma FindNone(blocks: seq<seq<byte>>, c: seq<nat>, name: Name)
    requires InTable(c, |blocks|)
    ensures FindIn(Entries(blocks, c[|c|..]), name) == None
  {
  }

  lemma ExtractNone(blocks: seq<seq<byte>>, c: seq<nat>, size: nat)
    requires InTable(c, |blocks|)
    ensures Extract(blocks, c[|c|..], size) == []
  {
  }

  /** A slot handed out for a directory never lies in a metadata block. */
  lemma SlotIsData(sb: Superblock, v: Volume, lay: Layout, d: u32)
    requires WellFormed(sb, v, lay) && IsDirectory(lay, d)
    ensures sb.blockSize >= ENTRY_SIZE
    ensures var r := GetSlot(sb.blockSize, v, d);
            r.Some? ==> r.value.1.block < |v.fat| && !IsMeta(sb, r.value.1.block)
  {
    BlockSizeOk(sb, v, lay);
    DirectoryChain(sb, v, lay, d);
    WalkIsWhole(sb, v, d, lay[d].chain);
    GetSlotCases(sb.blockSize, v, d, lay[d].chain);
    match FreeSlot(v.blocks, lay[d].chain)
    case Some(l) => FreeSlotSome(v.blocks, lay[d].chain, l, NewDir(d, FsTime(0, 0, 0, 0, 0, 0), []));
    case None =>
      if |FreeBlocks(v.fat, 0, 1)| == 1 {
        assert MetaTaken(sb, v);
        OnlyFreeBlock(sb, v, FreeBlocks(v.fat, 0, 1));
      }
  }

  lemma FreeSlotStep(blocks: seq<seq<byte>>, c: seq<nat>, b: nat)
    requires InTable(c, |blocks|) && b < |c|
    ensures var es := BlockEntries(blocks[c[b]]);
            FreeSlot(blocks, c[b..])
            == if FirstUnused(es) < |es| then Some(Loc(c[b], FirstUnused(es))) else FreeSlot(blocks, c[b + 1..])
  {
    assert c[b..][1..] == c[b + 1..];
  }

  class Disk {
    var img: seq<byte>
    const sb: Superblock
    const fat: array<u32>

    ghost predicate Open()
      reads this
    {
      && GeometryOk(sb, |img|)
      && ParseSuperblock(img) == Some(sb)
      && fat.Length == sb.blockCount
    }

    /** The volume stored in the image's bytes. */
    ghost function Stored(): (v: Volume)
      requires Open()
      reads this
      ensures |v.fat| == fat.Length
    {
      VolumeOf(sb, img)
    }

    /** The in-memory table is a faithful copy of the one in the image. */
    ghost predicate Coherent()
      reads this, fat
    {
      Open() && fat[..] == Stored().fat
    }

    constructor (bytes: seq<byte>, sb: Superblock, fat: array<u32>)
      requires GeometryOk(sb, |bytes|) && ParseSuperblock(bytes) == Some(sb)
      requires fat[..] == TableOf(sb, bytes)
      ensures Coherent() && img == bytes && this.sb == sb && this.fat == fat
    {
      img := bytes;
      this.sb := sb;
      this.fat := fat;
    }

    // ---------- blocks and table entries ----------

    method ReadBlock(b: u32) returns (buf: seq<byte>)
      requires Open() && b < sb.blockCount && !IsMeta(sb, b)
      ensures buf == Stored().blocks[b] && |buf| == sb.blockSize
    {
      BlockInside(sb, |img|, b);
      SpanIsProduct(sb.blockSize, b);
      var offset := b * sb.blockSize;
      buf := img[offset..offset + sb.blockSize];
    }

    method WriteBlock(b: u32, buf: seq<byte>)
      requires Open() && b < sb.blockCount && !IsMeta(sb, b) && |buf| == sb.blockSize
      modifies `img
      ensures Open()
      ensures Stored() == old(Stored()).(blocks := old(Stored()).blocks[b := buf])
    {
      BlockWriteEffect(sb, img, b, 0, buf);
      SpanIsProduct(sb.blockSize, b);
      var offset := b * sb.blockSize;
      img := Splice(img, offset, buf);
      assert Splice(old(Stored()).blocks[b], 0, buf) == buf;
    }

    method WriteFatEntry(b: u32, value: u32)
      requires Open() && b < sb.blockCount
      modifies `img
      ensures Open()
      ensures Stored() == old(Stored()).(fat := old(Stored()).fat[b := value])
    {
      TableWriteEffect(sb, img, b, value);
      SpanIsProduct(sb.blockSize, sb.fatStart);
      var offset := sb.fatStart * sb.blockSize + b * 4;
      img := Splice(img, offset, Be32(value));
    }

    method WriteDirEntry(l: Loc, e: DirEntry)
      requires Open() && l.block < sb.blockCount && !IsMeta(sb, l.block)
      requires HasSlot(Stored().blocks, l)
      modifies `img
      ensures Open()
      ensures Stored() == WriteEntry(old(Stored()), l, e)
    {
      BlockWriteEffect(sb, img, l.block, l.index * ENTRY_SIZE, Encode(e));
      SpanIsProduct(sb.blockSize, l.block);
      var offset := l.block * sb.blockSize + l.index * ENTRY_SIZE;
      img := Splice(img, offset, Encode(e));
    }

    // ---------- chains and allocation ----------

    /** Copies the chain into `out`, stopping after `cap` blocks. */
    method FollowChain(start: u32, cap: u32, out: array<u32>, ghost c: seq<nat>) returns (count: nat)
      requires IsChain(fat[..], start, c) && fat.Length <= EOF
      requires cap <= out.Length && out != fat
      modifies out
      ensures count == Min(|c|, cap) && out[..count] == c[..count]
    {
      var current := start;
      count := 0;
      while current != EOF && count < cap
        invariant count <= |c| && count <= cap
        invariant current == if count < |c| then c[count] else EOF
        invariant out[..count] == c[..count]
        invariant fat[..] == old(fat[..])
        decreases cap - count
      {
        out[count] := current;
        count := count + 1;
        current := fat[current];
      }
    }

    /** Collects the first `need` free blocks; fails when there are fewer. */
    method FindFreeBlocks(need: nat, out: array<u32>) returns (ok: bool)
      requires need <= out.Length && out != fat && fat.Length <= EOF
      modifies out
      ensures ok <==> |FreeBlocks(fat[..], 0, need)| == need
      ensures ok ==> out[..need] == FreeBlocks(fat[..], 0, need)
    {
      hide FreeBlocks;
      ghost var table, found: seq<nat> := fat[..], [];
      ghost var all := FreeBlocks(table, 0, need);
      var got, i := 0, 0;
      while i < fat.Length && got < need
        invariant got <= need && i <= fat.Length && fat[..] == table
        invariant |found| == got && out[..got] == found
        invariant all == found + FreeBlocks(table, i, need - got)
      {
        FreeStep(table, i, need - got);
        if fat[i] == FREE {
          ghost var rest := FreeBlocks(table, i + 1, need - got - 1);
          assert all == found + ([i] + rest);
          Regrouped(found, i, rest);
          out[got] := i;
          got := got + 1;
          found := found + [i];
          assert all == found + rest;
        }
        i := i + 1;
      }
      FreeStep(table, i, need - got);
      ok := got == need;
    }

    // ---------- directories ----------

    /** The chain that starts at `start`, as the program's capped walk sees it. */
    method ChainBlocks(start: u32, ghost c: seq<nat>) returns (blocks: seq<u32>)
      requires Coherent() && OwnChain(sb, Stored(), start, c)
      ensures blocks == c == ChainOf(Stored(), start)
      ensures forall i | 0 <= i < |blocks| :: blocks[i] < sb.blockCount && !IsMeta(sb, blocks[i])
    {
      var out := new u32[sb.blockCount];
      var count := FollowChain(start, sb.blockCount, out, c);
      WalkIsWhole(sb, Stored(), start, c);
      assert |c| <= sb.blockCount;
      blocks := out[..count];
    }

    /** The first entry in use with this name, block by block and slot by slot. */
    method DirFind(start: u32, name: Name, ghost c: seq<nat>) returns (found: Option<DirEntry>)
      requires Coherent() && OwnChain(sb, Stored(), start, c)
      ensures found == Lookup(Stored(), start, name)
    {
      hide OwnChain, ChainOf, Entries, FindIn, BlockEntries;
      ghost var v := Stored();
      var blocks := ChainBlocks(start, c);
      assert c[0..] == c;
      found := None;
      var b := 0;
      while b < |blocks| && found.None?
        invariant b <= |blocks|
        invariant FindIn(Entries(v.blocks, c), name)
               == if found.Some? then found else FindIn(Entries(v.blocks, c[b..]), name)
      {
        FindStep(v.blocks, c, b, name);
        var buf := ReadBlock(blocks[b]);
        found := FindInBlock(buf, name);
        b := b + 1;
      }
      FindNone(v.blocks, c, name);
    }

    static method FindInBlock(buf: seq<byte>, name: Name) returns (found: Option<DirEntry>)
      ensures found == FindIn(BlockEntries(buf), name)
    {
      var epb := |buf| / ENTRY_SIZE;
      found := None;
      var s := 0;
      while s < epb && found.None?
        invariant s <= epb
        invariant FindIn(BlockEntries(buf), name)
               == if found.Some? then found else FindIn(BlockEntries(buf)[s..], name)
      {
        var e := Parse(buf[s * ENTRY_SIZE..(s + 1) * ENTRY_SIZE]);
        assert BlockEntries(buf)[s] == e;
        if e.InUse() && e.name == name {
          found := Some(e);
        }
        s := s + 1;
      }
    }

    /** The first slot of the directory that no entry uses. */
    method DirFindFreeSlot(start: u32, ghost c: seq<nat>) returns (found: Option<Loc>)
      requires Coherent() && OwnChain(sb, Stored(), start, c)
      ensures found == FreeSlot(Stored().blocks, c)
      ensures c == ChainOf(Stored(), start)
    {
      ghost var v := Stored();
      var blocks := ChainBlocks(start, c);
      found := None;
      var b := 0;
      while b < |blocks| && found.None?
        invariant b <= |blocks|
        invariant FreeSlot(v.blocks, c) == if found.Some? then found else FreeSlot(v.blocks, c[b..])
      {
        FreeSlotStep(v.blocks, c, b);
        var buf := ReadBlock(blocks[b]);
        var s := FirstUnusedInBlock(buf);
        if s < |buf| / ENTRY_SIZE {
          found := Some(Loc(blocks[b], s));
        }
        b := b + 1;
      }
    }

    static method FirstUnusedInBlock(buf: seq<byte>) returns (s: nat)
      ensures s == FirstUnused(BlockEntries(buf))
    {
      var epb := |buf| / ENTRY_SIZE;
      s := 0;
      while s < epb && Parse(buf[s * ENTRY_SIZE..(s + 1) * ENTRY_SIZE]).InUse()
        invariant s <= epb
        invariant FirstUnused(BlockEntries(buf)) == s + FirstUnused(BlockEntries(buf)[s..])
      {
        assert BlockEntries(buf)[s].InUse();
        s := s + 1;
      }
    }

    /** The last block of a chain: an uncapped walk, which ends because the chain does. */
    method LastOfChain(start: u32, ghost c: seq<nat>) returns (last: u32)
      requires IsChain(fat[..], start, c) && fat.Length <= EOF
      ensures last == c[|c| - 1] < fat.Length
    {
      ghost var table := fat[..];
      ghost var i := 0;
      last := start;
      while fat[last] != EOF
        invariant i < |c| && last == c[i] && table == fat[..]
        invariant fat[last] == table[c[i]] == if i < |c| - 1 then c[i + 1] else EOF
        decreases |c| - i
      {
        last := fat[last];
        i := i + 1;
      }
    }

    /** Append block `b`, zeroed, to the chain: in memory first, then in the image. */
    method GrowDirectory(start: u32, b: u32, ghost c: seq<nat>)
      requires Coherent() && OwnChain(sb, Stored(), start, c)
      requires b < fat.Length && !IsMeta(sb, b)
      modifies `img, fat
      ensures Coherent()
      ensures c[|c| - 1] < fat.Length && Stored() == Append(sb.blockSize, old(Stored()), c[|c| - 1], b)
    {
      var last := LastOfChain(start, c);
      fat[last] := b;
      fat[b] := EOF;
      WriteFatEntry(last, b);
      WriteFatEntry(b, EOF);
      WriteBlock(b, Zeros(sb.blockSize));
    }

    /** An unused slot, after lengthening the directory if it is full. */
    method DirGetSlot(start: u32, ghost c: seq<nat>) returns (found: Option<Loc>)
      requires Coherent() && OwnChain(sb, Stored(), start, c) && MetaTaken(sb, Stored())
      modifies `img, fat
      ensures Coherent()
      ensures var r := GetSlot(sb.blockSize, old(Stored()), start);
              && found == (if r.None? then None else Some(r.value.1))
              && Stored() == (if r.None? then old(Stored()) else r.value.0)
    {
      ghost var v := Stored();
      assert c != [];
      hide FreeBlocks, IsChain, GetSlot, FreeSlot, ChainOf;
      found := DirFindFreeSlot(start, c);
      GetSlotCases(sb.blockSize, v, start, c);
      if found.None? {
        var newblk := new u32[1];
        var ok := FindFreeBlocks(1, newblk);
        assert Coherent();
        if ok {
          OnlyFreeBlock(sb, v, newblk[..1]);
          GrowDirectory(start, newblk[0], c);
          found := Some(Loc(newblk[0], 0));
        }
      }
    }

    /** Enter `e` in directory `d`. */
    method AddDirEntry(d: u32, e: DirEntry, ghost lay: Layout) returns (ok: bool)
      requires Coherent() && WellFormed(sb, Stored(), lay) && IsDirectory(lay, d)
      modifies `img, fat
      ensures Coherent()
      ensures (Stored(), ok) == AddEntry(sb.blockSize, old(Stored()), d, e)
    {
      ghost var v := Stored();
      DirectoryChain(sb, v, lay, d);
      SlotIsData(sb, v, lay, d);
      assert MetaTaken(sb, v);
      hide WellFormed, GetSlot, OwnChain, WriteEntry;
      var loc := DirGetSlot(d, lay[d].chain);
      if loc.Some? {
        WriteDirEntry(loc.value, e);
      }
      ok := loc.Some?;
    }

    // ---------- diskput ----------

    method MakeDir(parent: u32, name: Name, now: FsTime, ghost lay: Layout) returns (out: Option<u32>)
      requires Coherent() && WellFormed(sb, Stored(), lay) && IsDirectory(lay, parent)
      modifies `img, fat
      ensures Coherent()
      ensures (Stored(), out) == CreateDir(sb.blockSize, old(Stored()), parent, name, now)
    {
      ghost var v := Stored();
      var blk := new u32[1];
      var ok := FindFreeBlocks(1, blk);
      out := None;
      if ok {
        var b := blk[0];
        MetaIsTaken(sb, v, lay);
        OnlyFreeBlock(sb, v, blk[..1]);
        fat[b] := EOF;
        WriteBlock(b, Zeros(sb.blockSize));
        WriteFatEntry(b, EOF);
        StoreOneEmpty(sb.blockSize, v, b);
        FreshDirectory(sb, v, lay, b);
        ok := AddDirEntry(parent, NewDir(b, now, name), lay);
        if ok {
          out := Some(b);
        }
      }
    }

    /** Walk the path, creating what is missing. */
    method ResolveOrCreateDir(comps: Path, clock: nat -> FsTime, ghost lay: Layout)
      returns (out: Option<u32>, ghost newLay: Layout)
      requires Coherent() && WellFormed(sb, Stored(), lay)
      modifies `img, fat
      ensures Coherent() && WellFormed(sb, Stored(), newLay)
      ensures out.Some? ==> IsDirectory(newLay, out.value)
      ensures (Stored(), out) == ResolveOrCreate(sb.blockSize, old(Stored()), sb.rootStart, comps, clock, 0)
    {
      hide WellFormed, OwnChain, Extends, CreateDir, ResolveOrCreate, Lookup;
      ghost var v0 := Stored();
      BlockSizeOk(sb, v0, lay);
      RootIsDirectory(sb, v0, lay);
      newLay := lay;
      var current, ok, i := sb.rootStart, true, 0;
      while i < |comps| && ok
        invariant i <= |comps| && Coherent() && WellFormed(sb, Stored(), newLay)
        invariant ok ==> IsDirectory(newLay, current)
        invariant ResolveOrCreate(sb.blockSize, v0, sb.rootStart, comps, clock, 0)
               == if ok then ResolveOrCreate(sb.blockSize, Stored(), current, comps[i..], clock, i)
                  else (Stored(), None)
      {
        ghost var v := Stored();
        ResolveOrCreateStep(sb.blockSize, v, current, comps, clock, i);
        DirectoryChain(sb, v, newLay, current);
        var e := DirFind(current, comps[i], newLay[current].chain);
        if e.Some? {
          FoundIsRegistered(sb, v, newLay, current, comps[i]);
          if e.value.IsDir() {
            current := e.value.start;
          } else {
            ok := false;
          }
        } else {
          ghost var midLay := CreateDirKeeps(sb, v, newLay, current, comps[i], clock(i));
          var newdir := MakeDir(current, comps[i], clock(i), newLay);
          newLay := midLay;
          if newdir.Some? {
            current := newdir.value;
          } else {
            ok := false;
          }
        }
        i := i + 1;
      }
      if ok {
        assert comps[i..] == [];
        ResolveOrCreateDone(sb.blockSize, Stored(), current, clock, i);
      }
      out := if ok then Some(current) else None;
    }

    /** Link the blocks of `c` in order: each in memory, then in the image. */
    method LinkBlocks(c: seq<u32>, ghost v: Volume)
      requires Coherent() && Stored() == v && InTable(c, |v.fat|)
      modifies `img, fat
      ensures Coherent()
      ensures Stored() == v.(fat := Link(v.fat, c))
    {
      var k := 0;
      while k < |c|
        invariant k <= |c| && Coherent() && Stored().blocks == v.blocks
        invariant Link(v.fat, c) == Link(Stored().fat, c[k..])
      {
        var next := EOF;
        if k + 1 < |c| {
          next := c[k + 1];
        }
        fat[c[k]] := next;
        WriteFatEntry(c[k], next);
        assert c[k..][1..] == c[k + 1..];
        k := k + 1;
      }
    }

    /** Spread `data` over the blocks of `c`, padding each block with zeros. */
    method WriteBlocks(c: seq<u32>, data: seq<byte>, ghost v: Volume)
      requires Coherent() && Stored() == v
      requires forall i | 0 <= i < |c| :: c[i] < sb.blockCount && !IsMeta(sb, c[i])
      modifies `img
      ensures Coherent()
      ensures Stored() == v.(blocks := Fill(sb.blockSize, v.blocks, c, data))
    {
      hide Fill;
      var bs := sb.blockSize;
      var remaining: nat, off: nat, k := |data|, 0, 0;
      while k < |c|
        invariant k <= |c| && Coherent() && Stored().fat == v.fat
        invariant off + remaining == |data|
        invariant Fill(bs, v.blocks, c, data) == Fill(bs, Stored().blocks, c[k..], data[off..])
      {
        var chunk := Min(bs, remaining);
        FillStep(bs, Stored().blocks, c, data, k, off);
        WriteBlock(c[k], data[off..off + chunk] + Zeros(bs - chunk));
        off := off + chunk;
        remaining := remaining - chunk;
        k := k + 1;
      }
      FillNone(bs, Stored().blocks, data[off..]);
    }

    static method BlocksFor(size: u32, bs: u16) returns (need: u32)
      requires bs > 0
      ensures need == Need(bs, size) && need > 0 && Reserves(bs, size, need)
    {
      NeedReserves(bs, size);
      need := (size as int + bs - 1) % 0x1_0000_0000 / bs;
      if need == 0 {
        need := 1;
      }
    }

    /** Allocate, link and fill the file's blocks, then enter it in its directory. */
    method StoreFile(d: u32, name: Name, data: seq<byte>, size: u32, now: FsTime, ghost lay: Layout)
      returns (ok: bool)
      requires Coherent() && WellFormed(sb, Stored(), lay) && IsDirectory(lay, d) && size <= |data|
      modifies `img, fat
      ensures Coherent()
      ensures (Stored(), ok) == PutFile(sb.blockSize, old(Stored()), d, name, data, size, now)
    {
      hide WellFormed, OwnChain, AddEntry, FreeBlocks;
      ghost var v := Stored();
      BlockSizeOk(sb, v, lay);
      var bs := sb.blockSize;
      var need := BlocksFor(size, bs);
      var blocks := new u32[need];
      ok := FindFreeBlocks(need, blocks);
      if ok {
        var c := blocks[..need];
        MetaIsTaken(sb, v, lay);
        FreeIsNotMeta(sb, v, v, c);
        LinkBlocks(c, v);
        WriteBlocks(c, data[..size], Stored());
        StoreKeeps(sb, v, lay, c, data[..size]);
        ok := AddDirEntry(d, NewFile(c[0], need, size, now, name), lay);
      }
    }

    /** diskput, from the parsed destination path on. */
    method Put(path: Path, data: seq<byte>, clock: nat -> FsTime, ghost lay: Layout) returns (rc: bool)
      requires Coherent() && WellFormed(sb, Stored(), lay)
      modifies `img, fat
      ensures Coherent() && sb.blockSize >= ENTRY_SIZE
      ensures (Stored(), rc) == DiskPut(sb, old(Stored()), path, data, clock)
    {
      hide WellFormed, PutFile, ResolveOrCreate;
      rc := false;
      if path != [] {
        ghost var newLay;
        var dir;
        dir, newLay := ResolveOrCreateDir(Parent(path), clock, lay);
        if dir.Some? {
          rc := StoreFile(dir.value, Last(path), data, SizeOf(data), clock(|path|), newLay);
        }
      }
    }

    // ---------- diskget ----------

    method ResolveDir(comps: Path, ghost lay: Layout) returns (out: Option<u32>)
      requires Coherent() && WellFormed(sb, Stored(), lay)
      ensures out == Resolve(Stored(), sb.rootStart, comps)
      ensures out.Some? ==> IsDirectory(lay, out.value)
    {
      hide WellFormed, OwnChain, Lookup;
      ghost var v := Stored();
      RootIsDirectory(sb, v, lay);
      var current, ok, i := sb.rootStart, true, 0;
      while i < |comps| && ok
        invariant i <= |comps|
        invariant ok ==> IsDirectory(lay, current)
        invariant Resolve(v, sb.rootStart, comps) == if ok then Resolve(v, current, comps[i..]) else None
      {
        assert comps[i..][1..] == comps[i + 1..];
        DirectoryChain(sb, v, lay, current);
        var e := DirFind(current, comps[i], lay[current].chain);
        if e.Some? && e.value.IsDir() {
          FoundIsRegistered(sb, v, lay, current, comps[i]);
          current := e.value.start;
        } else {
          ok := false;
        }
        i := i + 1;
      }
      out := if ok then Some(current) else None;
    }

    /** Copy a chain out, block by block, until the recorded size is used up. */
    method ExtractFile(e: DirEntry, ghost c: seq<nat>) returns (out: seq<byte>)
      requires Coherent() && OwnChain(sb, Stored(), e.start, c)
      ensures out == FileBytes(Stored(), e.start, e.size)
    {
      hide Extract, OwnChain, ChainOf;
      ghost var v := Stored();
      var blocks := ChainBlocks(e.start, c);
      var remaining: nat, b := e.size, 0;
      out := [];
      assert c[0..] == c;
      while b < |blocks|
        invariant b <= |blocks|
        invariant Extract(v.blocks, c, e.size) == out + Extract(v.blocks, c[b..], remaining)
      {
        ExtractStep(v.blocks, c, b, remaining, out);
        var buf := ReadBlock(blocks[b]);
        var chunk := Min(|buf|, remaining);
        out := out + buf[..chunk];
        remaining := remaining - chunk;
        b := b + 1;
      }
      ExtractNone(v.blocks, c, remaining);
    }

    /** diskget, from the parsed source path on. */
    method Get(path: Path, ghost lay: Layout) returns (out: Option<seq<byte>>)
      requires Coherent() && WellFormed(sb, Stored(), lay)
      ensures out == DiskGet(sb, Stored(), path)
    {
      hide WellFormed, OwnChain, Resolve, Lookup, FileBytes;
      out := None;
      if path != [] {
        var dir := ResolveDir(Parent(path), lay);
        if dir.Some? {
          DirectoryChain(sb, Stored(), lay, dir.value);
          var e := DirFind(dir.value, Last(path), lay[dir.value].chain);
          if e.Some? && e.value.IsFile() {
            FoundIsRegistered(sb, Stored(), lay, dir.value, Last(path));
            DirectoryChain(sb, Stored(), lay, e.value.start);
            var bytes := ExtractFile(e.value, lay[e.value.start].chain);
            out := Some(bytes);
          }
        }
      }
    }
  }
}
