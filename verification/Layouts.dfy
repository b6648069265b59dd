/** Global well-formedness of a volume, and its preservation by every update.

    A layout names the start block of every chain that the directory tree
    refers to. The volume is well formed for it when the chains are complete,
    pairwise disjoint and off the metadata blocks, and when the entries in use
    and the chains match one to one, forming a tree under the root. */
module Layouts {
  import opened Basics
  import opened Bytes
  import opened FatChain
  import opened DirEntries
  import opened Volumes
  import opened Images

  datatype Node = Node(chain: seq<nat>, isDir: bool, dir: u32, slot: nat, depth: nat)

  type Layout = map<u32, Node>

  ghost predicate Sized(sb: Superblock, v: Volume) {
    && |v.fat| == sb.blockCount && sb.blockSize >= ENTRY_SIZE
    && forall b | 0 <= b < |v.blocks| && !IsMeta(sb, b) :: |v.blocks[b]| == sb.blockSize
  }

  ghost predicate MetaTaken(sb: Superblock, v: Volume) {
    forall b | 0 <= b < |v.fat| && IsMeta(sb, b) :: v.fat[b] != FREE
  }

  ghost predicate OwnChain(sb: Superblock, v: Volume, s: int, c: seq<nat>) {
    IsChain(v.fat, s, c) && forall i | 0 <= i < |c| :: !IsMeta(sb, c[i])
  }

  ghost predicate Disjoint(a: seq<nat>, b: seq<nat>) {
    forall x | x in a :: x !in b
  }

  ghost predicate ChainsOk(sb: Superblock, v: Volume, lay: Layout) {
    forall s {:trigger OwnChain(sb, v, s, lay[s].chain)} | s in lay :: OwnChain(sb, v, s, lay[s].chain)
  }

  ghost predicate ChainsApart(lay: Layout) {
    forall s, t {:trigger Disjoint(lay[s].chain, lay[t].chain)} | s in lay && t in lay && s != t ::
      Disjoint(lay[s].chain, lay[t].chain)
  }

  ghost predicate IsDirectory(lay: Layout, d: u32) {
    d in lay && lay[d].isDir
  }

  /** The chain an entry refers to is the one registered for that very slot. */
  ghost predicate Owned(lay: Layout, d: u32, i: nat, e: DirEntry)
    requires d in lay
  {
    e.start in lay && lay[e.start] == Node(lay[e.start].chain, e.IsDir(), d, i, lay[d].depth + 1)
  }

  ghost predicate AllOwned(lay: Layout, d: u32, es: seq<DirEntry>)
    requires d in lay
  {
    forall i {:trigger Owned(lay, d, i, es[i])} | 0 <= i < |es| && es[i].InUse() :: Owned(lay, d, i, es[i])
  }

  ghost predicate EntriesOwned(v: Volume, lay: Layout) {
    forall d {:trigger AllOwned(lay, d, DirectoryOf(v, d))} | d in lay && lay[d].isDir ::
      AllOwned(lay, d, DirectoryOf(v, d))
  }

  ghost predicate Entered(v: Volume, lay: Layout, s: u32)
    requires s in lay
  {
    var n := lay[s];
    && IsDirectory(lay, n.dir)
    && n.slot < |DirectoryOf(v, n.dir)|
    && DirectoryOf(v, n.dir)[n.slot].InUse()
    && DirectoryOf(v, n.dir)[n.slot].start == s
  }

  ghost predicate AllEntered(v: Volume, lay: Layout, root: u32) {
    forall s {:trigger Entered(v, lay, s)} | s in lay && s != root :: Entered(v, lay, s)
  }

  ghost predicate WellFormed(sb: Superblock, v: Volume, lay: Layout) {
    && Sized(sb, v) && MetaTaken(sb, v)
    && IsDirectory(lay, sb.rootStart) && lay[sb.rootStart].depth == 0
    && ChainsOk(sb, v, lay) && ChainsApart(lay)
    && EntriesOwned(v, lay) && AllEntered(v, lay, sb.rootStart)
  }

  lemma MetaIsTaken(sb: Superblock, v: Volume, lay: Layout)
    requires WellFormed(sb, v, lay)
    ensures MetaTaken(sb, v)
  {
  }

  /** Chain `s` lists the same entries and yields the same bytes in both volumes. */
  ghost predicate Intact(v: Volume, w: Volume, s: u32) {
    && DirectoryOf(w, s) == DirectoryOf(v, s)
    && forall size: nat :: FileBytes(w, s, size) == FileBytes(v, s, size)
  }

  /** A complete chain that no registered chain meets. */
  ghost predicate Detached(sb: Superblock, v: Volume, lay: Layout, c: seq<nat>) {
    |c| > 0 && OwnChain(sb, v, c[0], c) && forall s | s in lay :: Disjoint(c, lay[s].chain)
  }

  ghost predicate AllFree(v: Volume, c: seq<nat>) {
    forall i | 0 <= i < |c| :: c[i] < |v.fat| && v.fat[c[i]] == FREE
  }

  ghost predicate NoneInUse(es: seq<DirEntry>) {
    forall i | 0 <= i < |es| :: !es[i].InUse()
  }

  // ---------- chains ----------

  /** The program's capped walk returns every registered chain in full. */
  lemma WalkIsWhole(sb: Superblock, v: Volume, s: u32, c: seq<nat>)
    requires OwnChain(sb, v, s, c)
    ensures ChainOf(v, s) == c && Distinct(c)
  {
    FollowIsWhole(v.fat, s, c);
    ChainIsAcyclic(v.fat, s, c);
  }

  /** A chain whose table entries and blocks are untouched keeps its contents. */
  lemma Untouched(sb: Superblock, v: Volume, w: Volume, s: u32, c: seq<nat>)
    requires |v.fat| == |w.fat| && OwnChain(sb, v, s, c)
    requires forall x | x in c :: w.fat[x] == v.fat[x] && w.blocks[x] == v.blocks[x]
    ensures OwnChain(sb, w, s, c) && Intact(v, w, s)
  {
    assert IsChain(w.fat, s, c);
    WalkIsWhole(sb, v, s, c);
    WalkIsWhole(sb, w, s, c);
    SameBlocksSameEntries(v.blocks, w.blocks, c);
    forall size: nat ensures FileBytes(w, s, size) == FileBytes(v, s, size) {
      SameBlocksSameBytes(v.blocks, w.blocks, c, size);
    }
  }

  /** No chain passes through a free block: its table entries are links or EOF. */
  lemma FreeIsOffChain(sb: Superblock, v: Volume, s: u32, c: seq<nat>, b: nat)
    requires OwnChain(sb, v, s, c) && b < |v.fat| && v.fat[b] == FREE
    ensures b !in c
  {
    forall i | 0 <= i < |c| ensures v.fat[c[i]] != FREE {
      if i < |c| - 1 {
        assert v.fat[c[i]] == c[i + 1] && !IsMeta(sb, c[i + 1]);
      }
    }
  }

  lemma IntactKeepsWellFormed(sb: Superblock, v: Volume, w: Volume, lay: Layout)
    requires WellFormed(sb, v, lay)
    requires Sized(sb, w) && MetaTaken(sb, w) && ChainsOk(sb, w, lay)
    requires forall s | s in lay :: Intact(v, w, s)
    ensures WellFormed(sb, w, lay)
  {
    forall d | d in lay && lay[d].isDir ensures AllOwned(lay, d, DirectoryOf(w, d)) {
      assert AllOwned(lay, d, DirectoryOf(v, d)) && Intact(v, w, d);
    }
    forall s | s in lay && s != sb.rootStart ensures Entered(w, lay, s) {
      assert Entered(v, lay, s) && Intact(v, w, lay[s].dir);
    }
  }

  /** Table and blocks agree except at the blocks of `c`. */
  ghost predicate SameOutside(v: Volume, w: Volume, c: seq<nat>) {
    && |w.fat| == |v.fat|
    && forall x | 0 <= x < |v.fat| && x !in c :: w.fat[x] == v.fat[x] && w.blocks[x] == v.blocks[x]
  }

  lemma ElsewhereIntact(sb: Superblock, v: Volume, w: Volume, s: u32, a: seq<nat>, c: seq<nat>)
    requires OwnChain(sb, v, s, a) && SameOutside(v, w, c) && Disjoint(a, c)
    ensures OwnChain(sb, w, s, a) && Intact(v, w, s)
  {
    Untouched(sb, v, w, s, a);
  }

  // ---------- storing into free blocks ----------

  /** Linking and filling free blocks disturbs nothing and makes them one detached chain. */
  lemma StoreKeeps(sb: Superblock, v: Volume, lay: Layout, c: seq<nat>, data: seq<byte>)
    requires WellFormed(sb, v, lay)
    requires |c| > 0 && Distinct(c) && AllFree(v, c)
    ensures var w := Store(sb.blockSize, v, c, data);
            && WellFormed(sb, w, lay) && Detached(sb, w, lay, c)
            && forall s | s in lay :: Intact(v, w, s)
  {
    LinkIsChain(v.fat, c);
    StoreElsewhere(sb, v, c, data);
    FillSizes(sb.blockSize, v.blocks, c, data);
    FreshChainKeeps(sb, v, Store(sb.blockSize, v, c, data), lay, c);
  }

  lemma StoreElsewhere(sb: Superblock, v: Volume, c: seq<nat>, data: seq<byte>)
    requires AllFree(v, c)
    ensures SameOutside(v, Store(sb.blockSize, v, c, data), c)
  {
    var w := Store(sb.blockSize, v, c, data);
    forall x | 0 <= x < |v.fat| && x !in c ensures w.fat[x] == v.fat[x] && w.blocks[x] == v.blocks[x] {
      LinkElsewhere(v.fat, c, x);
      FillElsewhere(sb.blockSize, v.blocks, c, data, x);
    }
  }

  lemma FreshChainKeeps(sb: Superblock, v: Volume, w: Volume, lay: Layout, c: seq<nat>)
    requires WellFormed(sb, v, lay)
    requires |c| > 0 && AllFree(v, c) && SameOutside(v, w, c)
    requires Sized(sb, w) && IsChain(w.fat, c[0], c)
    ensures WellFormed(sb, w, lay) && Detached(sb, w, lay, c)
    ensures forall s | s in lay :: Intact(v, w, s)
  {
    forall s | s in lay ensures OwnChain(sb, w, s, lay[s].chain) && Intact(v, w, s) && Disjoint(c, lay[s].chain) {
      assert OwnChain(sb, v, s, lay[s].chain);
      FreeChainApart(sb, v, s, lay[s].chain, c);
      ElsewhereIntact(sb, v, w, s, lay[s].chain, c);
    }
    FreeIsNotMeta(sb, v, w, c);
    IntactKeepsWellFormed(sb, v, w, lay);
  }

  lemma FreeChainApart(sb: Superblock, v: Volume, s: u32, a: seq<nat>, c: seq<nat>)
    requires OwnChain(sb, v, s, a) && AllFree(v, c)
    ensures Disjoint(a, c) && Disjoint(c, a)
  {
    forall x | x in c ensures x !in a {
      FreeIsOffChain(sb, v, s, a, x);
    }
  }

  lemma FreeIsNotMeta(sb: Superblock, v: Volume, w: Volume, c: seq<nat>)
    requires MetaTaken(sb, v) && AllFree(v, c) && SameOutside(v, w, c)
    ensures MetaTaken(sb, w) && forall i | 0 <= i < |c| :: !IsMeta(sb, c[i])
  {
    forall b | 0 <= b < |v.fat| && IsMeta(sb, b) ensures w.fat[b] != FREE {
      assert v.fat[b] != FREE;
      assert b !in c;
    }
  }

  // ---------- lengthening a directory ----------

  ghost function Longer(lay: Layout, d: u32, b: nat): Layout
    requires d in lay
  {
    lay[d := lay[d].(chain := lay[d].chain + [b])]
  }

  /** `w` is `v` after free block `b` has been zeroed and appended to chain `a`. */
  ghost predicate Appended(sb: Superblock, v: Volume, w: Volume, a: seq<nat>, b: nat) {
    && a != [] && a[|a| - 1] < |v.fat| && b < |v.fat| && v.fat[b] == FREE && !IsMeta(sb, b)
    && w == Append(sb.blockSize, v, a[|a| - 1], b)
  }

  /** Appending a zeroed block to a directory keeps the volume well formed, adds
      only unused entries to that directory, and leaves everything else alone. */
  lemma AppendKeeps(sb: Superblock, v: Volume, w: Volume, lay: Layout, d: u32, b: nat, c: seq<nat>)
    requires WellFormed(sb, v, lay) && IsDirectory(lay, d) && Detached(sb, v, lay, c)
    requires Appended(sb, v, w, lay[d].chain, b)
    ensures WellFormed(sb, w, Longer(lay, d, b)) && Detached(sb, w, Longer(lay, d, b), c)
    ensures DirectoryOf(w, d) == DirectoryOf(v, d) + BlockEntries(Zeros(sb.blockSize))
    ensures forall s | s in lay && s != d :: Intact(v, w, s)
    ensures Intact(v, w, c[0])
  {
    assert OwnChain(sb, v, d, lay[d].chain);
    AppendTarget(sb, v, w, d, lay[d].chain, b);
    AppendOthers(sb, v, w, lay, d, b, c);
    AppendApart(sb, v, lay, d, b, c);
    AppendMarks(sb, v, w, lay[d].chain, b);
    ZeroBlockEntries(sb.blockSize);
    LongerKeeps(sb, v, w, lay, d, b, BlockEntries(Zeros(sb.blockSize)));
  }

  lemma LongerKeeps(sb: Superblock, v: Volume, w: Volume, lay: Layout, d: u32, b: nat, more: seq<DirEntry>)
    requires WellFormed(sb, v, lay) && IsDirectory(lay, d)
    requires Sized(sb, w) && MetaTaken(sb, w)
    requires OwnChain(sb, w, d, lay[d].chain + [b]) && ChainsApart(Longer(lay, d, b))
    requires DirectoryOf(w, d) == DirectoryOf(v, d) + more && NoneInUse(more)
    requires forall s | s in lay && s != d :: OwnChain(sb, w, s, lay[s].chain) && Intact(v, w, s)
    ensures WellFormed(sb, w, Longer(lay, d, b))
  {
    LongerEntriesOwned(v, w, lay, d, b, more);
    LongerAllEntered(v, w, lay, d, b, more, sb.rootStart);
    LongerChainsOk(sb, w, lay, d, b);
  }

  lemma LongerChainsOk(sb: Superblock, w: Volume, lay: Layout, d: u32, b: nat)
    requires d in lay && OwnChain(sb, w, d, lay[d].chain + [b])
    requires forall s | s in lay && s != d :: OwnChain(sb, w, s, lay[s].chain)
    ensures ChainsOk(sb, w, Longer(lay, d, b))
  {
  }

  lemma LongerEntriesOwned(v: Volume, w: Volume, lay: Layout, d: u32, b: nat, more: seq<DirEntry>)
    requires EntriesOwned(v, lay) && IsDirectory(lay, d)
    requires DirectoryOf(w, d) == DirectoryOf(v, d) + more && NoneInUse(more)
    requires forall s | s in lay && s != d :: Intact(v, w, s)
    ensures EntriesOwned(w, Longer(lay, d, b))
  {
    var newLay := Longer(lay, d, b);
    forall p | p in newLay && newLay[p].isDir ensures AllOwned(newLay, p, DirectoryOf(w, p)) {
      LongerOwned(v, w, lay, d, b, p, more);
    }
  }

  lemma LongerAllEntered(v: Volume, w: Volume, lay: Layout, d: u32, b: nat, more: seq<DirEntry>, root: u32)
    requires AllEntered(v, lay, root) && IsDirectory(lay, d)
    requires DirectoryOf(w, d) == DirectoryOf(v, d) + more
    requires forall s | s in lay && s != d :: Intact(v, w, s)
    ensures AllEntered(w, Longer(lay, d, b), root)
  {
    var newLay := Longer(lay, d, b);
    forall s | s in newLay && s != root ensures Entered(w, newLay, s) {
      assert Entered(v, lay, s);
      LongerEntered(v, w, lay, d, b, s, more);
    }
  }

  lemma AppendTarget(sb: Superblock, v: Volume, w: Volume, d: u32, a: seq<nat>, b: nat)
    requires OwnChain(sb, v, d, a) && Appended(sb, v, w, a, b)
    ensures OwnChain(sb, w, d, a + [b])
    ensures DirectoryOf(w, d) == DirectoryOf(v, d) + BlockEntries(Zeros(sb.blockSize))
  {
    FreeIsOffChain(sb, v, d, a, b);
    WalkIsWhole(sb, v, d, a);
    assert IsChain(w.fat, d, a + [b]);
    WalkIsWhole(sb, w, d, a + [b]);
    EntriesConcat(w.blocks, a, [b]);
    SameBlocksSameEntries(v.blocks, w.blocks, a);
    assert [b][1..] == [] && Entries(w.blocks, [b]) == BlockEntries(w.blocks[b]);
  }

  lemma AppendMarks(sb: Superblock, v: Volume, w: Volume, a: seq<nat>, b: nat)
    requires Sized(sb, v) && MetaTaken(sb, v) && Appended(sb, v, w, a, b)
    ensures Sized(sb, w) && MetaTaken(sb, w)
  {
  }

  lemma AppendOthers(sb: Superblock, v: Volume, w: Volume, lay: Layout, d: u32, b: nat, c: seq<nat>)
    requires ChainsOk(sb, v, lay) && ChainsApart(lay) && IsDirectory(lay, d) && Detached(sb, v, lay, c)
    requires Appended(sb, v, w, lay[d].chain, b)
    ensures forall s | s in lay && s != d :: OwnChain(sb, w, s, lay[s].chain) && Intact(v, w, s)
    ensures OwnChain(sb, w, c[0], c) && Intact(v, w, c[0])
  {
    var last := lay[d].chain[|lay[d].chain| - 1];
    assert last in lay[d].chain;
    assert SameOutside(v, w, [last, b]);
    forall s | s in lay && s != d ensures OwnChain(sb, w, s, lay[s].chain) && Intact(v, w, s) {
      assert OwnChain(sb, v, s, lay[s].chain) && Disjoint(lay[d].chain, lay[s].chain);
      FreeIsOffChain(sb, v, s, lay[s].chain, b);
      ElsewhereIntact(sb, v, w, s, lay[s].chain, [last, b]);
    }
    assert Disjoint(c, lay[d].chain);
    FreeIsOffChain(sb, v, c[0], c, b);
    ElsewhereIntact(sb, v, w, c[0], c, [last, b]);
  }

  lemma AppendApart(sb: Superblock, v: Volume, lay: Layout, d: u32, b: nat, c: seq<nat>)
    requires ChainsOk(sb, v, lay) && ChainsApart(lay) && IsDirectory(lay, d) && Detached(sb, v, lay, c)
    requires b < |v.fat| && v.fat[b] == FREE
    ensures ChainsApart(Longer(lay, d, b))
    ensures forall s | s in lay :: Disjoint(c, Longer(lay, d, b)[s].chain)
  {
    var newLay := Longer(lay, d, b);
    forall s | s in lay ensures b !in lay[s].chain {
      FreeIsOffChain(sb, v, s, lay[s].chain, b);
    }
    FreeIsOffChain(sb, v, c[0], c, b);
    forall s, t | s in newLay && t in newLay && s != t ensures Disjoint(newLay[s].chain, newLay[t].chain) {
      assert Disjoint(lay[s].chain, lay[t].chain);
    }
    forall s | s in lay ensures Disjoint(c, newLay[s].chain) {
      assert Disjoint(c, lay[s].chain);
    }
  }

  lemma LongerOwned(v: Volume, w: Volume, lay: Layout, d: u32, b: nat, p: u32, more: seq<DirEntry>)
    requires EntriesOwned(v, lay) && IsDirectory(lay, d) && IsDirectory(lay, p)
    requires DirectoryOf(w, d) == DirectoryOf(v, d) + more && NoneInUse(more)
    requires p != d ==> Intact(v, w, p)
    ensures AllOwned(Longer(lay, d, b), p, DirectoryOf(w, p))
  {
    assert AllOwned(lay, p, DirectoryOf(v, p));
    var newLay := Longer(lay, d, b);
    assert forall i | |DirectoryOf(v, p)| <= i < |DirectoryOf(w, p)| :: !DirectoryOf(w, p)[i].InUse();
    forall i | 0 <= i < |DirectoryOf(w, p)| && DirectoryOf(w, p)[i].InUse()
      ensures Owned(newLay, p, i, DirectoryOf(w, p)[i])
    {
      assert DirectoryOf(w, p)[i] == DirectoryOf(v, p)[i];
      assert Owned(lay, p, i, DirectoryOf(v, p)[i]);
    }
  }

  lemma LongerEntered(v: Volume, w: Volume, lay: Layout, d: u32, b: nat, s: u32, more: seq<DirEntry>)
    requires s in lay && Entered(v, lay, s) && IsDirectory(lay, d)
    requires DirectoryOf(w, d) == DirectoryOf(v, d) + more
    requires forall t | t in lay && t != d :: Intact(v, w, t)
    ensures Entered(w, Longer(lay, d, b), s)
  {
    if lay[s].dir != d {
      assert Intact(v, w, lay[s].dir);
    }
  }

  // ---------- filling a slot ----------

  /** The slot search fails exactly when every entry of the listing is in use. */
  lemma {:induction false} FreeSlotNone(blocks: seq<seq<byte>>, c: seq<nat>)
    requires InTable(c, |blocks|)
    ensures FreeSlot(blocks, c).None? <==> FirstUnused(Entries(blocks, c)) == |Entries(blocks, c)|
    decreases |c|
  {
    if c != [] {
      FirstUnusedConcat(BlockEntries(blocks[c[0]]), Entries(blocks, c[1..]));
      FreeSlotNone(blocks, c[1..]);
    }
  }

  function Patched(blocks: seq<seq<byte>>, l: Loc, e: DirEntry): (r: seq<seq<byte>>)
    requires HasSlot(blocks, l)
    ensures |r| == |blocks|
  {
    blocks[l.block := Splice(blocks[l.block], l.index * ENTRY_SIZE, Encode(e))]
  }

  /** It finds the first unused entry, and a write there replaces exactly that entry. */
  lemma {:induction false} FreeSlotSome(blocks: seq<seq<byte>>, c: seq<nat>, l: Loc, e: DirEntry)
    requires InTable(c, |blocks|) && Distinct(c) && FreeSlot(blocks, c) == Some(l)
    ensures var es := Entries(blocks, c);
            && l.block in c && FirstUnused(es) < |es|
            && Entries(Patched(blocks, l, e), c) == es[FirstUnused(es) := e]
    decreases |c|
  {
    if FirstUnused(BlockEntries(blocks[c[0]])) < |BlockEntries(blocks[c[0]])| {
      FilledHere(blocks, c, l, e);
    } else {
      FreeSlotSome(blocks, c[1..], l, e);
      FilledLater(blocks, c, l, e);
    }
  }

  lemma FilledHere(blocks: seq<seq<byte>>, c: seq<nat>, l: Loc, e: DirEntry)
    requires InTable(c, |blocks|) && Distinct(c) && c != [] && HasSlot(blocks, l)
    requires var first := BlockEntries(blocks[c[0]]);
             FirstUnused(first) < |first| && l == Loc(c[0], FirstUnused(first))
    ensures var es := Entries(blocks, c);
            FirstUnused(es) < |es| && Entries(Patched(blocks, l, e), c) == es[FirstUnused(es) := e]
  {
    hide Encode, BlockEntries, FirstUnused;
    var first, rest := BlockEntries(blocks[c[0]]), Entries(blocks, c[1..]);
    FirstUnusedConcat(first, rest);
    PatchedBlockEntries(blocks[c[0]], l.index, e);
    SameBlocksSameEntries(blocks, Patched(blocks, l, e), c[1..]);
    UpdateConcat(first, rest, l.index, e);
  }

  lemma FilledLater(blocks: seq<seq<byte>>, c: seq<nat>, l: Loc, e: DirEntry)
    requires InTable(c, |blocks|) && Distinct(c) && c != [] && HasSlot(blocks, l)
    requires FirstUnused(BlockEntries(blocks[c[0]])) == |BlockEntries(blocks[c[0]])|
    requires l.block in c[1..]
    requires var rest := Entries(blocks, c[1..]);
             FirstUnused(rest) < |rest| && Entries(Patched(blocks, l, e), c[1..]) == rest[FirstUnused(rest) := e]
    ensures var es := Entries(blocks, c);
            FirstUnused(es) < |es| && Entries(Patched(blocks, l, e), c) == es[FirstUnused(es) := e]
  {
    hide Encode, BlockEntries, FirstUnused;
    var first, rest := BlockEntries(blocks[c[0]]), Entries(blocks, c[1..]);
    FirstUnusedConcat(first, rest);
    assert Patched(blocks, l, e)[c[0]] == blocks[c[0]];
    UpdateConcat(first, rest, |first| + FirstUnused(rest), e);
  }

  lemma UpdateConcat(a: seq<DirEntry>, b: seq<DirEntry>, k: nat, e: DirEntry)
    requires k < |a| + |b|
    ensures (a + b)[k := e] == if k < |a| then a[k := e] + b else a + b[k - |a| := e]
  {
  }

  lemma {:induction false} FreeSlotConcat(blocks: seq<seq<byte>>, a: seq<nat>, b: nat)
    requires InTable(a, |blocks|) && b < |blocks| && FreeSlot(blocks, a).None?
    ensures FreeSlot(blocks, a + [b]) == FreeSlot(blocks, [b])
    decreases |a|
  {
    if a == [] {
      assert a + [b] == [b];
    } else {
      assert (a + [b])[1..] == a[1..] + [b];
      FreeSlotConcat(blocks, a[1..], b);
    }
  }

  ghost function WithChild(lay: Layout, d: u32, k: nat, e: DirEntry, c: seq<nat>): Layout
    requires d in lay
  {
    lay[e.start := Node(c, e.IsDir(), d, k, lay[d].depth + 1)]
  }

  /** Entering a detached chain in a free slot registers it and changes one listing in one place. */
  lemma FillSlotKeeps(sb: Superblock, v: Volume, w: Volume, lay: Layout, d: u32, l: Loc, e: DirEntry, c: seq<nat>)
    requires WellFormed(sb, v, lay) && IsDirectory(lay, d) && Detached(sb, v, lay, c)
    requires FreeSlot(v.blocks, ChainOf(v, d)) == Some(l) && w == WriteEntry(v, l, e)
    requires e.InUse() && e.start == c[0] && (e.IsDir() ==> NoneInUse(DirectoryOf(v, e.start)))
    ensures var es := DirectoryOf(v, d);
            && FirstUnused(es) < |es|
            && DirectoryOf(w, d) == es[FirstUnused(es) := e]
            && WellFormed(sb, w, WithChild(lay, d, FirstUnused(es), e, c))
    ensures forall s | s in lay && s != d :: Intact(v, w, s)
    ensures Intact(v, w, e.start)
  {
    assert OwnChain(sb, v, d, lay[d].chain);
    FillTarget(sb, v, w, d, lay[d].chain, l, e);
    assert SameOutside(v, w, lay[d].chain);
    forall s | s in lay ensures OwnChain(sb, w, s, lay[s].chain) && (s != d ==> Intact(v, w, s)) {
      if s != d {
        assert OwnChain(sb, v, s, lay[s].chain) && Disjoint(lay[s].chain, lay[d].chain);
        ElsewhereIntact(sb, v, w, s, lay[s].chain, lay[d].chain);
      }
    }
    assert Disjoint(c, lay[d].chain);
    ElsewhereIntact(sb, v, w, c[0], c, lay[d].chain);
    WithChildKeeps(sb, v, w, lay, d, FirstUnused(DirectoryOf(v, d)), e, c);
  }

  lemma FillTarget(sb: Superblock, v: Volume, w: Volume, d: u32, a: seq<nat>, l: Loc, e: DirEntry)
    requires Sized(sb, v) && MetaTaken(sb, v) && OwnChain(sb, v, d, a)
    requires FreeSlot(v.blocks, ChainOf(v, d)) == Some(l) && w == WriteEntry(v, l, e)
    ensures l.block in a && Sized(sb, w) && MetaTaken(sb, w) && OwnChain(sb, w, d, a)
    ensures var es := DirectoryOf(v, d);
            FirstUnused(es) < |es| && DirectoryOf(w, d) == es[FirstUnused(es) := e]
  {
    WalkIsWhole(sb, v, d, a);
    WalkIsWhole(sb, w, d, a);
    FreeSlotSome(v.blocks, a, l, e);
  }

  lemma WithChildKeeps(sb: Superblock, v: Volume, w: Volume, lay: Layout, d: u32, k: nat, e: DirEntry, c: seq<nat>)
    requires WellFormed(sb, v, lay) && IsDirectory(lay, d)
    requires Sized(sb, w) && MetaTaken(sb, w) && ChainsOk(sb, w, lay) && Detached(sb, w, lay, c)
    requires e.InUse() && e.start == c[0] && (e.IsDir() ==> NoneInUse(DirectoryOf(w, e.start)))
    requires k < |DirectoryOf(v, d)| && !DirectoryOf(v, d)[k].InUse()
    requires DirectoryOf(w, d) == DirectoryOf(v, d)[k := e]
    requires forall s | s in lay && s != d :: Intact(v, w, s)
    ensures WellFormed(sb, w, WithChild(lay, d, k, e, c))
  {
    ChildIsNew(sb, w, lay, c, e.start);
    ChildApart(lay, d, k, e, c);
    ChildEntriesOwned(v, w, lay, d, k, e, c);
    ChildAllEntered(v, w, lay, d, k, e, c, sb.rootStart);
  }

  lemma ChildEntriesOwned(v: Volume, w: Volume, lay: Layout, d: u32, k: nat, e: DirEntry, c: seq<nat>)
    requires EntriesOwned(v, lay) && IsDirectory(lay, d) && e.start !in lay
    requires e.IsDir() ==> NoneInUse(DirectoryOf(w, e.start))
    requires k < |DirectoryOf(v, d)| && DirectoryOf(w, d) == DirectoryOf(v, d)[k := e]
    requires forall s | s in lay && s != d :: Intact(v, w, s)
    ensures EntriesOwned(w, WithChild(lay, d, k, e, c))
  {
    var newLay := WithChild(lay, d, k, e, c);
    forall p | p in newLay && newLay[p].isDir ensures AllOwned(newLay, p, DirectoryOf(w, p)) {
      if p in lay {
        assert AllOwned(lay, p, DirectoryOf(v, p));
        ChildOwned(v, w, lay, d, k, e, c, p);
      }
    }
  }

  lemma ChildAllEntered(v: Volume, w: Volume, lay: Layout, d: u32, k: nat, e: DirEntry, c: seq<nat>, root: u32)
    requires AllEntered(v, lay, root) && IsDirectory(lay, d) && e.start !in lay && e.InUse()
    requires k < |DirectoryOf(v, d)| && !DirectoryOf(v, d)[k].InUse()
    requires DirectoryOf(w, d) == DirectoryOf(v, d)[k := e]
    requires forall s | s in lay && s != d :: Intact(v, w, s)
    ensures AllEntered(w, WithChild(lay, d, k, e, c), root)
  {
    var newLay := WithChild(lay, d, k, e, c);
    forall s | s in newLay && s != root ensures Entered(w, newLay, s) {
      if s in lay {
        assert Entered(v, lay, s);
      }
      ChildEntered(v, w, lay, d, k, e, c, s);
    }
  }

  lemma ChildIsNew(sb: Superblock, w: Volume, lay: Layout, c: seq<nat>, s: u32)
    requires ChainsOk(sb, w, lay) && Detached(sb, w, lay, c) && s == c[0]
    ensures s !in lay
  {
    assert c[0] in c;
    forall t | t in lay ensures t != s {
      assert OwnChain(sb, w, t, lay[t].chain) && Disjoint(c, lay[t].chain);
      assert lay[t].chain[0] in lay[t].chain;
    }
  }

  lemma ChildApart(lay: Layout, d: u32, k: nat, e: DirEntry, c: seq<nat>)
    requires ChainsApart(lay) && d in lay && forall s | s in lay :: Disjoint(c, lay[s].chain)
    ensures ChainsApart(WithChild(lay, d, k, e, c))
  {
    var newLay := WithChild(lay, d, k, e, c);
    forall s, t | s in newLay && t in newLay && s != t ensures Disjoint(newLay[s].chain, newLay[t].chain) {
      if s != e.start && t != e.start {
        assert Disjoint(lay[s].chain, lay[t].chain);
      }
    }
  }

  lemma ChildEntered(v: Volume, w: Volume, lay: Layout, d: u32, k: nat, e: DirEntry, c: seq<nat>, s: u32)
    requires IsDirectory(lay, d) && e.start !in lay && e.InUse()
    requires k < |DirectoryOf(v, d)| && !DirectoryOf(v, d)[k].InUse()
    requires DirectoryOf(w, d) == DirectoryOf(v, d)[k := e]
    requires forall t | t in lay && t != d :: Intact(v, w, t)
    requires s == e.start || (s in lay && Entered(v, lay, s))
    ensures Entered(w, WithChild(lay, d, k, e, c), s)
  {
    if s in lay && lay[s].dir != d {
      assert Intact(v, w, lay[s].dir);
    }
  }

  lemma ChildOwned(v: Volume, w: Volume, lay: Layout, d: u32, k: nat, e: DirEntry, c: seq<nat>, p: u32)
    requires IsDirectory(lay, d) && IsDirectory(lay, p) && e.start !in lay
    requires AllOwned(lay, p, DirectoryOf(v, p))
    requires k < |DirectoryOf(v, d)| && DirectoryOf(w, d) == DirectoryOf(v, d)[k := e]
    requires p != d ==> Intact(v, w, p)
    ensures AllOwned(WithChild(lay, d, k, e, c), p, DirectoryOf(w, p))
  {
    forall i | 0 <= i < |DirectoryOf(w, p)| && DirectoryOf(w, p)[i].InUse()
      ensures Owned(WithChild(lay, d, k, e, c), p, i, DirectoryOf(w, p)[i])
    {
      if p != d || i != k {
        assert DirectoryOf(w, p)[i] == DirectoryOf(v, p)[i];
        assert Owned(lay, p, i, DirectoryOf(v, p)[i]);
      }
    }
  }
}
