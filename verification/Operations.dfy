/** The three operations that change a volume - create a directory, walk a path
    creating what is missing, put a file - preserve well-formedness on every
    outcome, and keep or exactly determine every lookup. */
module Operations {
  import opened Basics
  import opened Bytes
  import opened FatChain
  import opened DirEntries
  import opened Volumes
  import opened Images
  import opened Layouts
  import opened Files

  /** Everything found in `v` is found in `w`: directories stay directories, every
      successful lookup has the same answer, every file has the same bytes. */
  ghost predicate Extends(v: Volume, lay: Layout, w: Volume, newLay: Layout) {
    && KeepsKinds(lay, newLay)
    && (forall s | s in lay && !lay[s].isDir :: Intact(v, w, s))
    && (forall d: u32, name: Name | IsDirectory(lay, d) && Lookup(v, d, name).Some? ::
          Lookup(w, d, name) == Lookup(v, d, name))
  }

  lemma ExtendsTransitive(u: Volume, oldLay: Layout, v: Volume, lay: Layout, w: Volume, newLay: Layout)
    requires Extends(u, oldLay, v, lay) && Extends(v, lay, w, newLay)
    ensures Extends(u, oldLay, w, newLay)
  {
    forall s | s in oldLay && !oldLay[s].isDir ensures Intact(u, w, s) {
      assert Intact(u, v, s) && Intact(v, w, s);
    }
    forall d: u32, name: Name | IsDirectory(oldLay, d) && Lookup(u, d, name).Some?
      ensures Lookup(w, d, name) == Lookup(u, d, name)
    {
      assert Lookup(v, d, name) == Lookup(u, d, name);
    }
  }

  lemma ExtendsItself(v: Volume, lay: Layout)
    ensures Extends(v, lay, v, lay)
  {
  }

  /** What a lookup returns is registered under the directory it was found in. */
  lemma FoundIsRegistered(sb: Superblock, v: Volume, lay: Layout, d: u32, name: Name)
    requires WellFormed(sb, v, lay) && IsDirectory(lay, d) && Lookup(v, d, name).Some?
    ensures var e := Lookup(v, d, name).value;
            e.start in lay && lay[e.start].isDir == e.IsDir() && e.start != d && lay[e.start].dir == d
  {
    var e := Lookup(v, d, name).value;
    var es := DirectoryOf(v, d);
    assert AllOwned(lay, d, es);
    var i :| 0 <= i < |es| && es[i] == e;
    assert Owned(lay, d, i, es[i]);
  }

  lemma BlockSizeOk(sb: Superblock, v: Volume, lay: Layout)
    requires WellFormed(sb, v, lay)
    ensures sb.blockSize >= ENTRY_SIZE
  {
  }

  lemma PrefixMisses(es: seq<DirEntry>, name: Name)
    ensures FindIn(es, name).None? ==> FindIn(BeforeFree(es), name).None?
    ensures FindIn(BeforeFree(es), name).Some? ==> FindIn(es, name) == FindIn(BeforeFree(es), name)
  {
    var k := FirstUnused(es);
    assert es == es[..k] + es[k..];
    FindInConcat(es[..k], es[k..], name);
  }

  // ---------- creating a directory ----------

  lemma FreshDirectory(sb: Superblock, v: Volume, lay: Layout, b: nat)
    requires WellFormed(sb, v, lay) && FreeBlocks(v.fat, 0, 1) == [b]
    ensures var u := Store(sb.blockSize, v, [b], []);
            && WellFormed(sb, u, lay) && Detached(sb, u, lay, [b])
            && (forall s | s in lay :: Intact(v, u, s))
            && NoneInUse(DirectoryOf(u, b))
  {
    hide WellFormed;
    var u := Store(sb.blockSize, v, [b], []);
    assert [b][0] == b && v.fat[b] == FREE;
    StoreKeeps(sb, v, lay, [b], []);
    WalkIsWhole(sb, u, b, [b]);
    FreshBlockIsEmpty(sb.blockSize, v.blocks, b);
    assert u.blocks == Fill(sb.blockSize, v.blocks, [b], []);
    assert DirectoryOf(u, b) == Entries(u.blocks, [b]);
  }

  /** A created directory is found under its name, holds nothing, and everything
      found before is still found; failure loses nothing either. */
  lemma CreateDirKeeps(sb: Superblock, v: Volume, lay: Layout, parent: u32, name: Name, now: FsTime)
    returns (newLay: Layout)
    requires WellFormed(sb, v, lay) && IsDirectory(lay, parent) && Lookup(v, parent, name).None?
    ensures var (w, r) := CreateDir(sb.blockSize, v, parent, name, now);
            && WellFormed(sb, w, newLay) && Extends(v, lay, w, newLay) && IsDirectory(newLay, parent)
            && (r.Some? ==>
                  && IsDirectory(newLay, r.value) && NoneInUse(DirectoryOf(w, r.value))
                  && Lookup(w, parent, name) == Some(NewDir(r.value, now, name)))
            && (Compact(v, lay) ==> Compact(w, newLay))
  {
    hide WellFormed, Extends, Gains, Intact, Compact;
    BlockSizeOk(sb, v, lay);
    ExtendsItself(v, lay);
    var f := FreeBlocks(v.fat, 0, 1);
    if |f| < 1 {
      newLay := lay;
    } else {
      var b := f[0];
      assert f == [b];
      FreshDirectory(sb, v, lay, b);
      var u := Store(sb.blockSize, v, [b], []);
      if Compact(v, lay) {
        IntactKeepsCompact(v, u, lay);
      }
      newLay := AddEntryKeeps(sb, u, lay, parent, NewDir(b, now, name), [b]);
      NewDirExtends(sb, v, u, lay, newLay, parent, NewDir(b, now, name));
    }
  }

  /** The entry of a directory just made: in use, a directory and no file, one block,
      no size, one time of creation and change; its one block is the first free one. */
  lemma CreatedEntry(sb: Superblock, v: Volume, lay: Layout, parent: u32, name: Name, now: FsTime)
    requires WellFormed(sb, v, lay) && IsDirectory(lay, parent) && Lookup(v, parent, name).None?
    ensures sb.blockSize >= ENTRY_SIZE
    ensures var (w, r) := CreateDir(sb.blockSize, v, parent, name, now);
            r.Some? ==> Lookup(w, parent, name) == Some(DirEntry(5, r.value, 1, 0, now, now, name))
                        && FreeBlocks(v.fat, 0, 1) == [r.value]
  {
    hide WellFormed, Extends, Compact, AddEntry, FreeBlocks, Lookup;
    BlockSizeOk(sb, v, lay);
    var _ := CreateDirKeeps(sb, v, lay, parent, name, now);
  }

  lemma NewDirExtends(sb: Superblock, v: Volume, u: Volume, lay: Layout, newLay: Layout, parent: u32, e: DirEntry)
    requires sb.blockSize >= ENTRY_SIZE && IsDirectory(lay, parent) && KeepsKinds(lay, newLay) && e.InUse()
    requires Lookup(v, parent, e.name).None?
    requires forall s | s in lay :: Intact(v, u, s)
    requires var (w, ok) := AddEntry(sb.blockSize, u, parent, e);
             if ok then Gains(sb, u, w, lay, parent, e) else w == u
    ensures var (w, ok) := AddEntry(sb.blockSize, u, parent, e);
            && Extends(v, lay, w, newLay)
            && (ok ==> Lookup(w, parent, e.name) == Some(e))
            && (ok ==> DirectoryOf(w, e.start) == DirectoryOf(u, e.start))
  {
    var (w, ok) := AddEntry(sb.blockSize, u, parent, e);
    assert Intact(v, u, parent);
    if ok {
      forall s | s in lay && s != parent ensures Intact(v, w, s) {
        assert Intact(v, u, s) && Intact(u, w, s);
      }
      PrefixMisses(DirectoryOf(v, parent), e.name);
      forall nm: Name ensures Lookup(w, parent, nm) == if nm == e.name then Some(e) else Lookup(v, parent, nm) {
        FindInAfterEnter(sb.blockSize, DirectoryOf(u, parent), e, nm);
      }
    }
  }

  // ---------- walking a path ----------

  lemma {:induction false} ResolveExtends(sb: Superblock, v: Volume, lay: Layout, w: Volume, newLay: Layout,
                                          d: u32, comps: seq<Name>)
    requires WellFormed(sb, v, lay) && IsDirectory(lay, d) && Extends(v, lay, w, newLay)
    requires Resolve(v, d, comps).Some?
    ensures Resolve(w, d, comps) == Resolve(v, d, comps)
    ensures IsDirectory(lay, Resolve(v, d, comps).value)
    decreases |comps|
  {
    if comps != [] {
      FoundIsRegistered(sb, v, lay, d, comps[0]);
      ResolveExtends(sb, v, lay, w, newLay, Lookup(v, d, comps[0]).value.start, comps[1..]);
    }
  }

  /** A path that already leads to a directory is walked without changing anything. */
  lemma {:induction false} ResolvedIsNotCreated(bs: nat, v: Volume, d: u32, comps: seq<Name>,
                                                clock: nat -> FsTime, i: nat)
    requires bs >= ENTRY_SIZE && Resolve(v, d, comps).Some?
    ensures ResolveOrCreate(bs, v, d, comps, clock, i) == (v, Resolve(v, d, comps))
    decreases |comps|
  {
    if comps != [] {
      ResolvedIsNotCreated(bs, v, Lookup(v, d, comps[0]).value.start, comps[1..], clock, i + 1);
    }
  }

  /** Path creation is seen by lookup: when the walk succeeds, resolving the same
      path on the resulting volume gives the same directory, which is empty if
      anything had to be created. On every outcome the volume stays well formed
      and everything found before is still found. */
  lemma {:induction false} ResolveOrCreateKeeps(sb: Superblock, v: Volume, lay: Layout, d: u32, comps: seq<Name>,
                                                clock: nat -> FsTime, i: nat)
    returns (newLay: Layout)
    requires WellFormed(sb, v, lay) && IsDirectory(lay, d)
    ensures var (w, r) := ResolveOrCreate(sb.blockSize, v, d, comps, clock, i);
            && WellFormed(sb, w, newLay) && Extends(v, lay, w, newLay)
            && (r.Some? ==>
                  && IsDirectory(newLay, r.value) && Resolve(w, d, comps) == r
                  && (Resolve(v, d, comps).None? ==> NoneInUse(DirectoryOf(w, r.value))))
            && (Compact(v, lay) ==> Compact(w, newLay))
    decreases |comps|
  {
    hide WellFormed, Extends, Resolve, NoneInUse, Compact;
    BlockSizeOk(sb, v, lay);
    ExtendsItself(v, lay);
    if comps == [] {
      EmptyPath(v, d);
      newLay := lay;
    } else if Lookup(v, d, comps[0]).Some? {
      FoundIsRegistered(sb, v, lay, d, comps[0]);
      var e := Lookup(v, d, comps[0]).value;
      if e.IsDir() {
        newLay := ResolveOrCreateKeeps(sb, v, lay, e.start, comps[1..], clock, i + 1);
        var (w, r) := ResolveOrCreate(sb.blockSize, v, e.start, comps[1..], clock, i + 1);
        OneStep(v, d, comps, e);
        StillFound(v, lay, w, newLay, d, comps[0]);
        OneStep(w, d, comps, e);
      } else {
        newLay := lay;
      }
    } else {
      var (u, s) := CreateDir(sb.blockSize, v, d, comps[0], clock(i));
      var midLay := CreateDirKeeps(sb, v, lay, d, comps[0], clock(i));
      if s.Some? {
        newLay := ResolveOrCreateKeeps(sb, u, midLay, s.value, comps[1..], clock, i + 1);
        var (w, r) := ResolveOrCreate(sb.blockSize, u, s.value, comps[1..], clock, i + 1);
        ExtendsTransitive(v, lay, u, midLay, w, newLay);
        StillFound(u, midLay, w, newLay, d, comps[0]);
        OneStep(w, d, comps, NewDir(s.value, clock(i), comps[0]));
        EmptyResolvesNothing(u, s.value, comps[1..]);
        if comps[1..] == [] {
          assert w == u && r == s;
        }
      } else {
        newLay := midLay;
      }
    }
  }

  lemma EmptyPath(v: Volume, d: u32)
    ensures Resolve(v, d, []) == Some(d)
  {
  }

  lemma OneStep(v: Volume, d: u32, comps: seq<Name>, e: DirEntry)
    requires comps != [] && Lookup(v, d, comps[0]) == Some(e) && e.IsDir()
    ensures Resolve(v, d, comps) == Resolve(v, e.start, comps[1..])
  {
  }

  lemma StillFound(u: Volume, midLay: Layout, w: Volume, newLay: Layout, d: u32, name: Name)
    requires Extends(u, midLay, w, newLay) && IsDirectory(midLay, d) && Lookup(u, d, name).Some?
    ensures Lookup(w, d, name) == Lookup(u, d, name)
  {
  }

  lemma EmptyResolvesNothing(v: Volume, d: u32, comps: seq<Name>)
    requires NoneInUse(DirectoryOf(v, d))
    ensures comps != [] ==> Resolve(v, d, comps).None?
    ensures comps == [] ==> Resolve(v, d, comps) == Some(d)
  {
    if comps != [] {
      FindInUnused(DirectoryOf(v, d), comps[0]);
    }
  }

  // ---------- putting a file ----------

  /** An entry of this name sits before the slot that the next entry will take. */
  predicate HasTwinBeforeFree(v: Volume, d: u32, name: Name) {
    FindIn(BeforeFree(DirectoryOf(v, d)), name).Some?
  }

  /** What the file's blocks can hold of its data. */
  function Kept(bs: nat, size: u32): (n: nat)
    requires bs > 0
    ensures n <= size
  {
    Min(size, Span(bs, Need(bs, size)))
  }

  /** `w` is `v` with one more file in directory `d`: its own name finds it unless
      a twin comes first, no other lookup changes, its chain holds its data, and
      no other registered chain is disturbed. */
  ghost predicate HoldsFile(sb: Superblock, v: Volume, lay: Layout, w: Volume,
                            d: u32, e: DirEntry, data: seq<byte>)
    requires sb.blockSize > 0 && e.size <= |data|
  {
    && (forall p: u32, nm: Name | IsDirectory(lay, p) ::
          Lookup(w, p, nm)
          == if p == d && nm == e.name && !HasTwinBeforeFree(v, d, nm) then Some(e) else Lookup(v, p, nm))
    && FileBytes(w, e.start, e.size) == data[..Kept(sb.blockSize, e.size)]
    && (forall s | s in lay && s != d :: Intact(v, w, s))
    && e.start !in lay
  }

  lemma PutFileKeeps(sb: Superblock, v: Volume, lay: Layout, d: u32, name: Name,
                     data: seq<byte>, size: u32, now: FsTime)
    returns (newLay: Layout)
    requires WellFormed(sb, v, lay) && IsDirectory(lay, d) && size <= |data|
    ensures var (w, ok) := PutFile(sb.blockSize, v, d, name, data, size, now);
            && WellFormed(sb, w, newLay) && KeepsKinds(lay, newLay)
            && (!ok ==> Extends(v, lay, w, newLay))
            && (Compact(v, lay) ==> Compact(w, newLay))
            && (ok ==> var need := Need(sb.blockSize, size);
                       var f := FreeBlocks(v.fat, 0, need);
                       && |f| == need && ChainOf(w, f[0]) == f
                       && HoldsFile(sb, v, lay, w, d, NewFile(f[0], need, size, now, name), data))
  {
    hide WellFormed, Gains, Intact, HoldsFile, Extends, Compact, KeepsKinds, AddEntry, Link, FreeSlot;
    BlockSizeOk(sb, v, lay);
    ExtendsItself(v, lay);
    var bs := sb.blockSize;
    var need := Need(bs, size);
    var f := FreeBlocks(v.fat, 0, need);
    if |f| < need {
      newLay := lay;
    } else {
      var e := NewFile(f[0], need, size, now, name);
      var u := Store(bs, v, f, data[..size]);
      StoreKeeps(sb, v, lay, f, data[..size]);
      if Compact(v, lay) {
        IntactKeepsCompact(v, u, lay);
      }
      newLay := AddEntryKeeps(sb, u, lay, d, e, f);
      StoredBytes(sb, v, u, lay, f, data[..size]);
      NewFileHeld(sb, v, u, lay, d, e, data);
      if e.start in newLay {
        DirectoryChain(sb, AddEntry(bs, u, d, e).0, newLay, e.start);
      }
    }
  }

  lemma StoredBytes(sb: Superblock, v: Volume, u: Volume, lay: Layout, f: seq<nat>, data: seq<byte>)
    requires AllFree(v, f) && Distinct(f) && u == Store(sb.blockSize, v, f, data)
    requires Detached(sb, u, lay, f)
    ensures FileBytes(u, f[0], |data|) == data[..Min(|data|, Span(sb.blockSize, |f|))]
  {
    WalkIsWhole(sb, u, f[0], f);
    ExtractAfterFill(sb.blockSize, v.blocks, f, data);
  }

  lemma IntactThrough(v: Volume, u: Volume, w: Volume, lay: Layout, d: u32)
    requires forall s | s in lay :: Intact(v, u, s)
    requires forall s | s in lay && s != d :: Intact(u, w, s)
    ensures forall s | s in lay && s != d :: Intact(v, w, s)
  {
    forall s | s in lay && s != d ensures Intact(v, w, s) {
      assert Intact(v, u, s) && Intact(u, w, s);
    }
  }

  lemma IntactExtends(v: Volume, u: Volume, lay: Layout, newLay: Layout)
    requires forall s | s in lay :: Intact(v, u, s)
    requires KeepsKinds(lay, newLay)
    ensures Extends(v, lay, u, newLay)
  {
  }

  lemma LookupAfterAdd(sb: Superblock, v: Volume, u: Volume, w: Volume, lay: Layout, d: u32, e: DirEntry,
                       p: u32, nm: Name)
    requires sb.blockSize >= ENTRY_SIZE && IsDirectory(lay, d) && IsDirectory(lay, p) && e.InUse()
    requires Intact(v, u, p) && Intact(v, u, d) && Gains(sb, u, w, lay, d, e)
    ensures Lookup(w, p, nm)
         == if p == d && nm == e.name && !HasTwinBeforeFree(v, d, nm) then Some(e) else Lookup(v, p, nm)
  {
    hide DirectoryOf, FileBytes, Enter, FindIn;
    if p == d {
      FindInAfterEnter(sb.blockSize, DirectoryOf(u, d), e, nm);
    } else {
      assert Intact(u, w, p);
    }
  }

  lemma GainedIsHeld(sb: Superblock, v: Volume, u: Volume, w: Volume, lay: Layout, d: u32, e: DirEntry, data: seq<byte>)
    requires sb.blockSize >= ENTRY_SIZE && IsDirectory(lay, d) && e.InUse() && e.size <= |data|
    requires forall s | s in lay :: Intact(v, u, s)
    requires FileBytes(u, e.start, e.size) == data[..e.size][..Kept(sb.blockSize, e.size)]
    requires e.start !in lay && Gains(sb, u, w, lay, d, e)
    ensures HoldsFile(sb, v, lay, w, d, e, data)
  {
    hide DirectoryOf, Lookup, FileBytes, Kept, HasTwinBeforeFree, Enter;
    forall p: u32, nm: Name | IsDirectory(lay, p)
      ensures Lookup(w, p, nm)
           == if p == d && nm == e.name && !HasTwinBeforeFree(v, d, nm) then Some(e) else Lookup(v, p, nm)
    {
      LookupAfterAdd(sb, v, u, w, lay, d, e, p, nm);
    }
    IntactThrough(v, u, w, lay, d);
    assert data[..e.size][..Kept(sb.blockSize, e.size)] == data[..Kept(sb.blockSize, e.size)];
    assert Intact(u, w, e.start);
  }

  lemma NewFileHeld(sb: Superblock, v: Volume, u: Volume, lay: Layout, d: u32, e: DirEntry, data: seq<byte>)
    requires sb.blockSize >= ENTRY_SIZE && IsDirectory(lay, d) && e.InUse() && e.size <= |data|
    requires forall s | s in lay :: Intact(v, u, s)
    requires FileBytes(u, e.start, e.size) == data[..e.size][..Kept(sb.blockSize, e.size)]
    requires var (w, ok) := AddEntry(sb.blockSize, u, d, e);
             if ok then e.start !in lay && Gains(sb, u, w, lay, d, e) else w == u
    ensures var (w, ok) := AddEntry(sb.blockSize, u, d, e);
            if ok then HoldsFile(sb, v, lay, w, d, e, data)
            else forall newLay: Layout :: KeepsKinds(lay, newLay) ==> Extends(v, lay, w, newLay)
  {
    hide AddEntry, HoldsFile, Extends, KeepsKinds, Gains, Intact, FileBytes, Kept;
    var (w, ok) := AddEntry(sb.blockSize, u, d, e);
    if ok {
      GainedIsHeld(sb, v, u, w, lay, d, e, data);
    } else {
      forall newLay: Layout | KeepsKinds(lay, newLay) ensures Extends(v, lay, w, newLay) {
        IntactExtends(v, u, lay, newLay);
      }
    }
  }
}
