/** Creating directories and putting files: what each operation keeps, and
    exactly what it changes. */
module Files {
  import opened Basics
  import opened Bytes
  import opened FatChain
  import opened DirEntries
  import opened Volumes
  import opened Images
  import opened Layouts

  // ---------- entering one entry ----------

  /** A listing after `e` has taken its first unused slot, or the first slot of a
      zeroed block added at its end. */
  function Enter(bs: nat, es: seq<DirEntry>, e: DirEntry): seq<DirEntry>
    requires bs >= ENTRY_SIZE
  {
    var k := FirstUnused(es);
    if k < |es| then es[k := e] else (es + BlockEntries(Zeros(bs)))[|es| := e]
  }

  /** The entries that a lookup passes before it reaches the slot a new entry will get. */
  function BeforeFree(es: seq<DirEntry>): seq<DirEntry> {
    es[..FirstUnused(es)]
  }

  lemma FindInAfterEnter(bs: nat, es: seq<DirEntry>, e: DirEntry, name: Name)
    requires bs >= ENTRY_SIZE && e.InUse()
    ensures FindIn(Enter(bs, es, e), name)
         == if name == e.name && FindIn(BeforeFree(es), name).None? then Some(e) else FindIn(es, name)
  {
    var k := FirstUnused(es);
    if k < |es| {
      FindInAfterFill(es, k, e, name);
    } else {
      var more := BlockEntries(Zeros(bs));
      ZeroBlockEntries(bs);
      assert !more[0].InUse() && (es + more)[|es|] == more[0];
      FindInAfterFill(es + more, |es|, e, name);
      assert (es + more)[..|es|] == es == es[..k];
      FindInConcat(es, more, name);
      FindInUnused(more, name);
    }
  }

  /** The entries in use come first: there are no holes among them. */
  ghost predicate CompactList(es: seq<DirEntry>) {
    forall i, j | 0 <= i < j < |es| && es[j].InUse() :: es[i].InUse()
  }

  /** No directory has a hole. */
  ghost predicate Compact(v: Volume, lay: Layout) {
    forall d {:trigger DirectoryOf(v, d)} | IsDirectory(lay, d) :: CompactList(DirectoryOf(v, d))
  }

  lemma EnterKeepsCompact(bs: nat, es: seq<DirEntry>, e: DirEntry)
    requires bs >= ENTRY_SIZE && CompactList(es)
    ensures CompactList(Enter(bs, es, e))
  {
    ZeroBlockEntries(bs);
    var k := FirstUnused(es);
    var more := BlockEntries(Zeros(bs));
    var all := if k < |es| then es else es + more;
    forall j | k <= j < |all| ensures !all[j].InUse() {
      if j >= |es| {
        assert all[j] == more[j - |es|];
      }
    }
  }

  lemma IntactKeepsCompact(v: Volume, w: Volume, lay: Layout)
    requires Compact(v, lay) && forall s | s in lay :: Intact(v, w, s)
    ensures Compact(w, lay)
  {
    forall d | IsDirectory(lay, d) ensures CompactList(DirectoryOf(w, d)) {
      assert Intact(v, w, d);
    }
  }

  lemma GainsKeepsCompact(sb: Superblock, v: Volume, w: Volume, lay: Layout, newLay: Layout, d: u32, e: DirEntry)
    requires sb.blockSize >= ENTRY_SIZE && IsDirectory(lay, d)
    requires Gains(sb, v, w, lay, d, e) && KeepsKinds(lay, newLay) && newLay.Keys == lay.Keys + {e.start}
    requires e.start in newLay && newLay[e.start].isDir == e.IsDir()
    requires e.IsDir() ==> NoneInUse(DirectoryOf(v, e.start))
    ensures Compact(v, lay) ==> Compact(w, newLay)
  {
    if Compact(v, lay) {
      forall p | IsDirectory(newLay, p) ensures CompactList(DirectoryOf(w, p)) {
        if p == e.start {
          assert Intact(v, w, p);
        } else {
          assert p in lay && CompactList(DirectoryOf(v, p));
          EnterKeepsCompact(sb.blockSize, DirectoryOf(v, d), e);
          assert p != d ==> Intact(v, w, p);
        }
      }
    }
  }

  /** Every registered chain stays registered, with its kind. */
  ghost predicate KeepsKinds(lay: Layout, newLay: Layout) {
    forall s | s in lay :: s in newLay && newLay[s].isDir == lay[s].isDir
  }

  /** Directory `d` of `v` has become directory `d` of `w` by gaining `e`; every
      other registered chain, and the one `e` refers to, is intact. */
  ghost predicate Gains(sb: Superblock, v: Volume, w: Volume, lay: Layout, d: u32, e: DirEntry)
    requires sb.blockSize >= ENTRY_SIZE
  {
    && DirectoryOf(w, d) == Enter(sb.blockSize, DirectoryOf(v, d), e)
    && (forall s | s in lay && s != d :: Intact(v, w, s))
    && Intact(v, w, e.start)
  }

  /** The chain of `e` is registered, and no other chain is new. */
  ghost predicate Registers(lay: Layout, newLay: Layout, e: DirEntry, c: seq<nat>) {
    && newLay.Keys == lay.Keys + {e.start}
    && newLay[e.start].isDir == e.IsDir() && newLay[e.start].chain == c
  }

  /** Entering a detached chain keeps the volume well formed. It fails only when
      the directory is full and no block is free, and then changes nothing. */
  lemma AddEntryKeeps(sb: Superblock, v: Volume, lay: Layout, d: u32, e: DirEntry, c: seq<nat>)
    returns (newLay: Layout)
    requires WellFormed(sb, v, lay) && IsDirectory(lay, d) && Detached(sb, v, lay, c)
    requires e.InUse() && e.start == c[0] && (e.IsDir() ==> NoneInUse(DirectoryOf(v, e.start)))
    ensures var (w, ok) := AddEntry(sb.blockSize, v, d, e);
            && WellFormed(sb, w, newLay) && KeepsKinds(lay, newLay)
            && (ok <==> FirstUnused(DirectoryOf(v, d)) < |DirectoryOf(v, d)| || FREE in v.fat)
            && (!ok ==> w == v && newLay == lay)
            && (ok ==> e.start !in lay && Registers(lay, newLay, e, c))
            && (ok ==> Gains(sb, v, w, lay, d, e))
            && (Compact(v, lay) ==> Compact(w, newLay))
  {
    ChainIsNew(sb, v, lay, c, e.start);
    OneFreeBlock(v.fat);
    assert FreeSlot(v.blocks, ChainOf(v, d)).None? <==> FirstUnused(DirectoryOf(v, d)) == |DirectoryOf(v, d)| by {
      FreeSlotNone(v.blocks, ChainOf(v, d));
    }
    hide Compact, Gains, WellFormed;
    match FreeSlot(v.blocks, ChainOf(v, d)) {
      case Some(l) =>
        newLay := FillOnly(sb, v, lay, d, e, c, l);
        GainsKeepsCompact(sb, v, WriteEntry(v, l, e), lay, newLay, d, e);
      case None =>
        var f := FreeBlocks(v.fat, 0, 1);
        if |f| == 1 {
          newLay := GrowAndFill(sb, v, lay, d, e, c, f[0]);
          GainsKeepsCompact(sb, v, AddEntry(sb.blockSize, v, d, e).0, lay, newLay, d, e);
        } else {
          newLay := lay;
        }
    }
  }

  lemma FillOnly(sb: Superblock, v: Volume, lay: Layout, d: u32, e: DirEntry, c: seq<nat>, l: Loc)
    returns (newLay: Layout)
    requires WellFormed(sb, v, lay) && IsDirectory(lay, d) && Detached(sb, v, lay, c)
    requires e.InUse() && e.start == c[0] && (e.IsDir() ==> NoneInUse(DirectoryOf(v, e.start)))
    requires FreeSlot(v.blocks, ChainOf(v, d)) == Some(l)
    ensures AddEntry(sb.blockSize, v, d, e) == (WriteEntry(v, l, e), true)
    ensures WellFormed(sb, WriteEntry(v, l, e), newLay)
    ensures Gains(sb, v, WriteEntry(v, l, e), lay, d, e)
    ensures KeepsKinds(lay, newLay) && Registers(lay, newLay, e, c)
  {
    ChainIsNew(sb, v, lay, c, e.start);
    FillSlotKeeps(sb, v, WriteEntry(v, l, e), lay, d, l, e, c);
    newLay := WithChild(lay, d, FirstUnused(DirectoryOf(v, d)), e, c);
  }

  lemma ChainIsNew(sb: Superblock, v: Volume, lay: Layout, c: seq<nat>, s: u32)
    requires WellFormed(sb, v, lay) && Detached(sb, v, lay, c) && s == c[0]
    ensures s !in lay
  {
    ChildIsNew(sb, v, lay, c, s);
  }

  lemma DirectoryChain(sb: Superblock, v: Volume, lay: Layout, d: u32)
    requires WellFormed(sb, v, lay) && d in lay
    ensures ChainOf(v, d) == lay[d].chain && lay[d].chain != [] && OwnChain(sb, v, d, lay[d].chain)
  {
    assert OwnChain(sb, v, d, lay[d].chain);
    WalkIsWhole(sb, v, d, lay[d].chain);
  }

  lemma OneFreeBlock(fat: seq<u32>)
    ensures |FreeBlocks(fat, 0, 1)| == 1 <==> FREE in fat
  {
    FreeBlocksComplete(fat, 0, 1);
    assert fat[0..] == fat;
  }

  lemma GrowAndFill(sb: Superblock, v: Volume, lay: Layout, d: u32, e: DirEntry, c: seq<nat>, b: nat)
    returns (newLay: Layout)
    requires WellFormed(sb, v, lay) && IsDirectory(lay, d) && Detached(sb, v, lay, c)
    requires e.InUse() && e.start == c[0] && (e.IsDir() ==> NoneInUse(DirectoryOf(v, e.start)))
    requires FreeSlot(v.blocks, ChainOf(v, d)).None?
    requires FreeBlocks(v.fat, 0, 1) == [b]
    ensures AddEntry(sb.blockSize, v, d, e).1
    ensures WellFormed(sb, AddEntry(sb.blockSize, v, d, e).0, newLay)
    ensures Gains(sb, v, AddEntry(sb.blockSize, v, d, e).0, lay, d, e)
    ensures KeepsKinds(lay, newLay) && Registers(lay, newLay, e, c)
  {
    hide WellFormed, Intact, FirstUnused, FreeSlot, ChainOf, Entries, BlockEntries, KeepsKinds;
    var u := Grow(sb, v, lay, d, c, b);
    ChainIsNew(sb, v, lay, c, e.start);
    var midLay := Longer(lay, d, b);
    newLay := FillOnly(sb, u, midLay, d, e, c, Loc(b, 0));
    KindsThroughLonger(lay, d, b, newLay);
    GrownListing(sb.blockSize, DirectoryOf(v, d), e);
    IntactTwice(v, u, WriteEntry(u, Loc(b, 0), e), lay, d, e.start);
  }

  lemma KindsThroughLonger(lay: Layout, d: u32, b: nat, newLay: Layout)
    requires d in lay && KeepsKinds(Longer(lay, d, b), newLay)
    ensures KeepsKinds(lay, newLay)
  {
    forall s | s in lay ensures s in newLay && newLay[s].isDir == lay[s].isDir {
      assert s in Longer(lay, d, b);
    }
  }

  /** The first half of entering into a full directory: it gains one zeroed block. */
  lemma Grow(sb: Superblock, v: Volume, lay: Layout, d: u32, c: seq<nat>, b: nat)
    returns (u: Volume)
    requires WellFormed(sb, v, lay) && IsDirectory(lay, d) && Detached(sb, v, lay, c)
    requires FreeSlot(v.blocks, ChainOf(v, d)).None?
    requires FreeBlocks(v.fat, 0, 1) == [b]
    ensures GetSlot(sb.blockSize, v, d) == Some((u, Loc(b, 0)))
    ensures WellFormed(sb, u, Longer(lay, d, b)) && Detached(sb, u, Longer(lay, d, b), c)
    ensures FirstUnused(DirectoryOf(v, d)) == |DirectoryOf(v, d)|
    ensures DirectoryOf(u, d) == DirectoryOf(v, d) + BlockEntries(Zeros(sb.blockSize))
    ensures FreeSlot(u.blocks, ChainOf(u, d)) == Some(Loc(b, 0))
    ensures forall s | s in lay && s != d :: Intact(v, u, s)
    ensures Intact(v, u, c[0])
  {
    DirectoryChain(sb, v, lay, d);
    assert [b][0] == b && v.fat[b] == FREE && !IsMeta(sb, b);
    var a := lay[d].chain;
    FreeIsOffChain(sb, v, d, a, b);
    FreeSlotNone(v.blocks, a);
    u := Append(sb.blockSize, v, a[|a| - 1], b);
    AppendKeeps(sb, v, u, lay, d, b, c);
    NewSlotIsFree(sb, v, u, Longer(lay, d, b), d, a, b);
  }

  lemma NewSlotIsFree(sb: Superblock, v: Volume, u: Volume, midLay: Layout, d: u32, a: seq<nat>, b: nat)
    requires WellFormed(sb, u, midLay) && d in midLay && midLay[d].chain == a + [b]
    requires Appended(sb, v, u, a, b) && sb.blockSize >= ENTRY_SIZE
    requires InTable(a, |v.fat|) && b !in a && FreeSlot(v.blocks, a).None?
    ensures FreeSlot(u.blocks, ChainOf(u, d)) == Some(Loc(b, 0))
  {
    DirectoryChain(sb, u, midLay, d);
    FreeSlotSameBlocks(v.blocks, u.blocks, a);
    FreeSlotConcat(u.blocks, a, b);
    ZeroBlockEntries(sb.blockSize);
    assert u.blocks[b] == Zeros(sb.blockSize);
  }

  lemma {:induction false} FreeSlotSameBlocks(p: seq<seq<byte>>, q: seq<seq<byte>>, c: seq<nat>)
    requires |p| == |q| && InTable(c, |p|)
    requires forall i | 0 <= i < |c| :: p[c[i]] == q[c[i]]
    ensures FreeSlot(p, c) == FreeSlot(q, c)
    decreases |c|
  {
    if c != [] {
      forall i | 0 <= i < |c| - 1 ensures p[c[1..][i]] == q[c[1..][i]] {
        assert c[1..][i] == c[i + 1];
      }
      FreeSlotSameBlocks(p, q, c[1..]);
    }
  }

  lemma GrownListing(bs: nat, es: seq<DirEntry>, e: DirEntry)
    requires bs >= ENTRY_SIZE && FirstUnused(es) == |es|
    ensures var more := es + BlockEntries(Zeros(bs));
            FirstUnused(more) == |es| && more[|es| := e] == Enter(bs, es, e)
  {
    ZeroBlockEntries(bs);
    FirstUnusedConcat(es, BlockEntries(Zeros(bs)));
  }

  lemma IntactTwice(v: Volume, u: Volume, w: Volume, lay: Layout, d: u32, s: u32)
    requires forall t | t in lay && t != d :: Intact(v, u, t)
    requires forall t | t in lay && t != d :: Intact(u, w, t)
    requires Intact(v, u, s) && Intact(u, w, s)
    ensures forall t | t in lay && t != d :: Intact(v, w, t)
    ensures Intact(v, w, s)
  {
    forall t | t in lay && t != d ensures Intact(v, w, t) {
      assert Intact(v, u, t) && Intact(u, w, t);
    }
  }
}
