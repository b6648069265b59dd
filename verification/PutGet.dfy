/** Whole runs of diskput and diskget on a well-formed volume: the round trip,
    the frame, and the block accounts. */
module PutGet {
  import opened Basics
  import opened Bytes
  import opened FatChain
  import opened DirEntries
  import opened Volumes
  import opened Images
  import opened Layouts
  import opened Files
  import opened Operations
  import opened Accounts

  type Path = seq<Name>

  function Parent(p: Path): Path
    requires p != []
  {
    p[..|p| - 1]
  }

  function Last(p: Path): Name
    requires p != []
  {
    p[|p| - 1]
  }

  /** The size the program records: the host file's length cast to 32 bits. */
  function SizeOf(data: seq<byte>): (n: u32)
    ensures n <= |data|
  {
    |data| % 0x1_0000_0000
  }

  /** diskput: make the parent directories, then put the file. */
  function DiskPut(sb: Superblock, v: Volume, path: Path, data: seq<byte>, clock: nat -> FsTime)
    : (r: (Volume, bool))
    requires sb.blockSize >= ENTRY_SIZE
    ensures |r.0.fat| == |v.fat|
  {
    if path == [] then (v, false) else
    var (u, d) := ResolveOrCreate(sb.blockSize, v, sb.rootStart, Parent(path), clock, 0);
    if d.None? then (u, false)
    else PutFile(sb.blockSize, u, d.value, Last(path), data, SizeOf(data), clock(|path|))
  }

  /** The entry a path names. */
  function PathEntry(sb: Superblock, v: Volume, path: Path): Option<DirEntry> {
    if path == [] then None else
    match Resolve(v, sb.rootStart, Parent(path))
    case Some(d) => Lookup(v, d, Last(path))
    case None => None
  }

  /** diskget: the bytes of the file a path names. */
  function DiskGet(sb: Superblock, v: Volume, path: Path): Option<seq<byte>> {
    match PathEntry(sb, v, path)
    case Some(e) => if e.IsFile() then Some(FileBytes(v, e.start, e.size)) else None
    case None => None
  }

  /** `dirs` leads along all components but the last, which is the name of `e` there. */
  ghost predicate WalkToEntry(sb: Superblock, v: Volume, path: Path, dirs: seq<u32>, e: DirEntry)
    requires path != []
  {
    var n := |path| - 1;
    Walk(v, sb.rootStart, path[..n], dirs) && Listed(v, dirs[n], e) && e.name == path[n]
  }

  lemma PathIsWalk(sb: Superblock, v: Volume, path: Path, e: DirEntry)
    requires path != []
    ensures PathEntry(sb, v, path) == Some(e) <==> exists dirs :: WalkToEntry(sb, v, path, dirs, e)
  {
    hide Resolve, Lookup, Leads, Listed;
    var n := |path| - 1;
    if PathEntry(sb, v, path) == Some(e) {
      var d := Resolve(v, sb.rootStart, path[..n]).value;
      var dirs := ResolvedWalk(v, sb.rootStart, path[..n], d);
      LookupIsListed(v, d, path[n], e);
      assert WalkToEntry(sb, v, path, dirs, e);
    }
    if dirs :| WalkToEntry(sb, v, path, dirs, e) {
      WalkResolves(v, sb.rootStart, path[..n], dirs);
      LookupIsListed(v, dirs[n], path[n], e);
    }
  }

  /** diskget returns the bytes of what the path names, if that is a file. */
  lemma GetIsOfFile(sb: Superblock, v: Volume, path: Path, out: seq<byte>)
    ensures DiskGet(sb, v, path) == Some(out)
       <==> exists e :: PathEntry(sb, v, path) == Some(e) && e.status / 2 % 2 == 1
                        && out == FileBytes(v, e.start, e.size)
  {
  }

  /** Before the put: the target directory exists and an entry of the target's
      name sits before its first unused slot. diskput never looks for one. */
  predicate TwinFirst(sb: Superblock, v: Volume, path: Path)
    requires path != []
  {
    var d := Resolve(v, sb.rootStart, Parent(path));
    d.Some? && HasTwinBeforeFree(v, d.value, Last(path))
  }

  /** Before the put: the target's name is taken, but only by an entry behind the
      first unused slot, where the new entry is going to hide it. */
  predicate TwinHidden(sb: Superblock, v: Volume, path: Path)
    requires path != []
  {
    PathEntry(sb, v, path).Some? && !TwinFirst(sb, v, path)
  }

  // ---------- the state after the parents exist ----------

  /** Creating the parents keeps everything; a freshly created parent is empty. */
  lemma ParentsReady(sb: Superblock, v: Volume, lay: Layout, path: Path, clock: nat -> FsTime)
    returns (midLay: Layout)
    requires WellFormed(sb, v, lay) && path != []
    ensures sb.blockSize >= ENTRY_SIZE
    ensures var (u, d) := ResolveOrCreate(sb.blockSize, v, sb.rootStart, Parent(path), clock, 0);
            && WellFormed(sb, u, midLay) && Extends(v, lay, u, midLay)
            && (Compact(v, lay) ==> Compact(u, midLay))
            && (d.Some? ==> IsDirectory(midLay, d.value) && Resolve(u, sb.rootStart, Parent(path)) == d)
            && (d.Some? ==> HasTwinBeforeFree(u, d.value, Last(path)) == TwinFirst(sb, v, path))
            && (d.Some? ==> Lookup(u, d.value, Last(path)) == PathEntry(sb, v, path))
            && (TwinFirst(sb, v, path) ==> u == v)
  {
    BlockSizeOk(sb, v, lay);
    assert IsDirectory(lay, sb.rootStart);
    midLay := ParentsKeep(sb, v, lay, path, clock);
    var (u, d) := ResolveOrCreate(sb.blockSize, v, sb.rootStart, Parent(path), clock, 0);
    if Resolve(v, sb.rootStart, Parent(path)).Some? {
      ResolvedIsNotCreated(sb.blockSize, v, sb.rootStart, Parent(path), clock, 0);
    } else if d.Some? {
      EmptyHasNoTwin(u, d.value, Last(path));
    }
  }

  lemma ParentsKeep(sb: Superblock, v: Volume, lay: Layout, path: Path, clock: nat -> FsTime)
    returns (midLay: Layout)
    requires WellFormed(sb, v, lay) && IsDirectory(lay, sb.rootStart) && path != [] && sb.blockSize >= ENTRY_SIZE
    ensures var (u, d) := ResolveOrCreate(sb.blockSize, v, sb.rootStart, Parent(path), clock, 0);
            && WellFormed(sb, u, midLay) && Extends(v, lay, u, midLay)
            && (Compact(v, lay) ==> Compact(u, midLay))
            && (d.Some? ==> IsDirectory(midLay, d.value) && Resolve(u, sb.rootStart, Parent(path)) == d)
            && (d.Some? && Resolve(v, sb.rootStart, Parent(path)).None? ==> NoneInUse(DirectoryOf(u, d.value)))
  {
    hide WellFormed, Extends, NoneInUse, Resolve, Compact;
    midLay := ResolveOrCreateKeeps(sb, v, lay, sb.rootStart, Parent(path), clock, 0);
  }

  lemma EmptyHasNoTwin(v: Volume, d: u32, name: Name)
    requires NoneInUse(DirectoryOf(v, d))
    ensures !HasTwinBeforeFree(v, d, name)
  {
    FindInUnused(BeforeFree(DirectoryOf(v, d)), name);
  }

  // ---------- well-formedness ----------

  /** Whatever diskput returns, the volume it leaves is well formed, no registered
      chain has been dropped or has changed its kind, and no directory has got a hole. */
  lemma PutKeepsWellFormed(sb: Superblock, v: Volume, lay: Layout, path: Path, data: seq<byte>, clock: nat -> FsTime)
    returns (newLay: Layout)
    requires WellFormed(sb, v, lay)
    ensures sb.blockSize >= ENTRY_SIZE
    ensures WellFormed(sb, DiskPut(sb, v, path, data, clock).0, newLay)
    ensures KeepsKinds(lay, newLay) && (Compact(v, lay) ==> Compact(DiskPut(sb, v, path, data, clock).0, newLay))
  {
    hide WellFormed, Compact;
    BlockSizeOk(sb, v, lay);
    if path == [] {
      newLay := lay;
    } else {
      var (u, d) := ResolveOrCreate(sb.blockSize, v, sb.rootStart, Parent(path), clock, 0);
      var midLay := ParentsReady(sb, v, lay, path, clock);
      if d.Some? {
        newLay := PutAfterParents(sb, u, midLay, d.value, path, data, clock);
      } else {
        newLay := midLay;
      }
    }
  }

  lemma PutAfterParents(sb: Superblock, u: Volume, midLay: Layout, d: u32, path: Path, data: seq<byte>,
                         clock: nat -> FsTime)
    returns (newLay: Layout)
    requires WellFormed(sb, u, midLay) && IsDirectory(midLay, d) && path != [] && sb.blockSize >= ENTRY_SIZE
    ensures var (w, ok) := PutFile(sb.blockSize, u, d, Last(path), data, SizeOf(data), clock(|path|));
            && WellFormed(sb, w, newLay) && KeepsKinds(midLay, newLay)
            && (Compact(u, midLay) ==> Compact(w, newLay))
            && (!ok ==> Extends(u, midLay, w, newLay))
  {
    hide WellFormed, Extends, HoldsFile, Compact;
    newLay := PutFileKeeps(sb, u, midLay, d, Last(path), data, SizeOf(data), clock(|path|));
  }

  // ---------- the round trip ----------

  /** Following a path deepens by one at every component: directories form a tree. */
  lemma {:induction false} DepthGrows(sb: Superblock, v: Volume, lay: Layout, p: u32, comps: Path)
    requires WellFormed(sb, v, lay) && IsDirectory(lay, p) && Resolve(v, p, comps).Some?
    ensures var d := Resolve(v, p, comps).value;
            IsDirectory(lay, d) && lay[d].depth == lay[p].depth + |comps|
    decreases |comps|
  {
    if comps != [] {
      var e := Lookup(v, p, comps[0]).value;
      FoundIsRegistered(sb, v, lay, p, comps[0]);
      FoundIsDeeper(sb, v, lay, p, comps[0]);
      DepthGrows(sb, v, lay, e.start, comps[1..]);
    }
  }

  lemma FoundIsDeeper(sb: Superblock, v: Volume, lay: Layout, d: u32, name: Name)
    requires WellFormed(sb, v, lay) && IsDirectory(lay, d) && Lookup(v, d, name).Some?
    ensures var e := Lookup(v, d, name).value;
            e.start in lay && lay[e.start].depth == lay[d].depth + 1
  {
    var e := Lookup(v, d, name).value;
    var es := DirectoryOf(v, d);
    assert AllOwned(lay, d, es);
    var i :| 0 <= i < |es| && es[i] == e;
    assert Owned(lay, d, i, es[i]);
  }

  /** The way to directory `d` never looks into `d`, so adding to `d` cannot block it. */
  lemma {:induction false} WayStaysOpen(sb: Superblock, u: Volume, midLay: Layout, w: Volume, d: u32, e: DirEntry,
                                        data: seq<byte>, p: u32, comps: Path)
    requires WellFormed(sb, u, midLay) && IsDirectory(midLay, p) && sb.blockSize > 0 && e.size <= |data|
    requires HoldsFile(sb, u, midLay, w, d, e, data) && Resolve(u, p, comps) == Some(d)
    ensures Resolve(w, p, comps) == Some(d)
    decreases |comps|
  {
    if comps != [] {
      DepthGrows(sb, u, midLay, p, comps);
      assert p != d;
      FoundIsRegistered(sb, u, midLay, p, comps[0]);
      assert Lookup(w, p, comps[0]) == Lookup(u, p, comps[0]);
      WayStaysOpen(sb, u, midLay, w, d, e, data, Lookup(u, p, comps[0]).value.start, comps[1..]);
    }
  }

  /** What diskget returns after a successful diskput, for every path, size and
      volume: the part of the data its blocks can hold - unless an entry of that
      name comes first, and then what diskget returned before. */
  lemma GetAfterPut(sb: Superblock, v: Volume, lay: Layout, path: Path, data: seq<byte>, clock: nat -> FsTime)
    requires WellFormed(sb, v, lay) && path != []
    ensures sb.blockSize >= ENTRY_SIZE
    ensures var (w, ok) := DiskPut(sb, v, path, data, clock);
            ok ==> (DiskGet(sb, w, path)
                    == if TwinFirst(sb, v, path) then DiskGet(sb, v, path)
                       else Some(data[..Kept(sb.blockSize, SizeOf(data))]))
  {
    hide WellFormed, Extends, HoldsFile, TwinFirst, HasTwinBeforeFree;
    BlockSizeOk(sb, v, lay);
    var (u, d) := ResolveOrCreate(sb.blockSize, v, sb.rootStart, Parent(path), clock, 0);
    var midLay := ParentsReady(sb, v, lay, path, clock);
    if d.Some? {
      GetAfterPutFile(sb, u, midLay, d.value, path, data, clock(|path|));
    }
  }

  lemma GetAfterPutFile(sb: Superblock, u: Volume, midLay: Layout, d: u32, path: Path, data: seq<byte>, now: FsTime)
    requires WellFormed(sb, u, midLay) && IsDirectory(midLay, d) && path != [] && sb.blockSize >= ENTRY_SIZE
    requires Resolve(u, sb.rootStart, Parent(path)) == Some(d)
    ensures var (w, ok) := PutFile(sb.blockSize, u, d, Last(path), data, SizeOf(data), now);
            ok ==> (DiskGet(sb, w, path)
                    == if HasTwinBeforeFree(u, d, Last(path)) then DiskGet(sb, u, path)
                       else Some(data[..Kept(sb.blockSize, SizeOf(data))]))
  {
    hide WellFormed, HoldsFile, HasTwinBeforeFree;
    var (w, ok) := PutFile(sb.blockSize, u, d, Last(path), data, SizeOf(data), now);
    var newLay := PutFileKeeps(sb, u, midLay, d, Last(path), data, SizeOf(data), now);
    if ok {
      var need := Need(sb.blockSize, SizeOf(data));
      var f := FreeBlocks(u.fat, 0, need);
      var e := NewFile(f[0], need, SizeOf(data), now, Last(path));
      RootIsDirectory(sb, u, midLay);
      WayStaysOpen(sb, u, midLay, w, d, e, data, sb.rootStart, Parent(path));
      GetThroughEntry(sb, u, midLay, w, d, e, path, data);
    }
  }

  lemma RootIsDirectory(sb: Superblock, v: Volume, lay: Layout)
    requires WellFormed(sb, v, lay)
    ensures IsDirectory(lay, sb.rootStart)
  {
  }

  lemma GetThroughEntry(sb: Superblock, u: Volume, midLay: Layout, w: Volume, d: u32, e: DirEntry,
                        path: Path, data: seq<byte>)
    requires WellFormed(sb, u, midLay) && IsDirectory(midLay, d) && path != [] && sb.blockSize > 0
    requires e.size <= |data| && e.name == Last(path) && e.IsFile()
    requires HoldsFile(sb, u, midLay, w, d, e, data)
    requires Resolve(u, sb.rootStart, Parent(path)) == Resolve(w, sb.rootStart, Parent(path)) == Some(d)
    ensures DiskGet(sb, w, path) == if HasTwinBeforeFree(u, d, Last(path)) then DiskGet(sb, u, path)
                                    else Some(data[..Kept(sb.blockSize, e.size)])
  {
    hide WellFormed, HasTwinBeforeFree, Kept;
    if HasTwinBeforeFree(u, d, Last(path)) {
      TwinIsFound(u, d, Last(path));
      FoundIsRegistered(sb, u, midLay, d, Last(path));
      var t := Lookup(u, d, Last(path)).value;
      assert Intact(u, w, t.start);
    }
  }

  lemma TwinIsFound(v: Volume, d: u32, name: Name)
    ensures HasTwinBeforeFree(v, d, name) ==> Lookup(v, d, name).Some?
  {
    PrefixMisses(DirectoryOf(v, d), name);
  }

  /** The blocks hold all of the data exactly when rounding its length up to
      whole blocks does not overflow 32 bits. */
  lemma KeepsAllIff(bs: u16, data: seq<byte>)
    requires bs >= ENTRY_SIZE
    ensures data[..Kept(bs, SizeOf(data))] == data <==> |data| + bs - 1 < 0x1_0000_0000
  {
    var size := SizeOf(data);
    SpanIsProduct(bs, Need(bs, size));
    if |data| + bs - 1 < 0x1_0000_0000 {
      RoundedUp(bs, |data|);
    } else if |data| < 0x1_0000_0000 {
      WrapsToOneBlock(bs, size);
    }
    assert Kept(bs, size) == |data| <==> |data| + bs - 1 < 0x1_0000_0000;
  }

  lemma RoundedUp(bs: nat, size: u32)
    requires bs > 0 && size + bs - 1 < 0x1_0000_0000
    ensures size <= Need(bs, size) * bs
  {
    var n := (size + bs - 1) / bs;
    assert n * bs + (size + bs - 1) % bs == size + bs - 1;
  }

  /** A file of almost 4 GiB wraps the block count around: it is given one block. */
  lemma WrapsToOneBlock(bs: u16, size: u32)
    requires bs > 0 && size + bs - 1 >= 0x1_0000_0000
    ensures Need(bs, size) == 1
  {
    var x := size as int + bs - 1 - 0x1_0000_0000;
    assert (size as int + bs - 1) % 0x1_0000_0000 == x;
    assert 0 <= x < bs && x / bs == 0;
  }

  /** Put then get is the identity exactly when no entry of that name comes first
      and the length does not wrap around - or the entry that comes first already
      held these bytes. */
  lemma PutThenGetIff(sb: Superblock, v: Volume, lay: Layout, path: Path, data: seq<byte>, clock: nat -> FsTime)
    requires WellFormed(sb, v, lay) && path != []
    ensures sb.blockSize >= ENTRY_SIZE
    ensures var (w, ok) := DiskPut(sb, v, path, data, clock);
            ok ==> (DiskGet(sb, w, path) == Some(data)
                    <==> if TwinFirst(sb, v, path) then DiskGet(sb, v, path) == Some(data)
                         else |data| + sb.blockSize - 1 < 0x1_0000_0000)
  {
    hide WellFormed, TwinFirst, Kept, DiskGet, DiskPut;
    GetAfterPut(sb, v, lay, path, data, clock);
    KeepsAllIff(sb.blockSize, data);
  }

  // ---------- the frame ----------

  /** Every path that named something still names the same entry, and every such
      file has the same bytes. */
  ghost predicate Preserved(sb: Superblock, v: Volume, w: Volume) {
    forall p: Path | PathEntry(sb, v, p).Some? ::
      && PathEntry(sb, w, p) == PathEntry(sb, v, p)
      && var e := PathEntry(sb, v, p).value;
         !e.IsDir() ==> forall size: nat :: FileBytes(w, e.start, size) == FileBytes(v, e.start, size)
  }

  lemma ExtendsPreserves(sb: Superblock, v: Volume, lay: Layout, w: Volume, newLay: Layout)
    requires WellFormed(sb, v, lay) && Extends(v, lay, w, newLay)
    ensures Preserved(sb, v, w)
  {
    forall p: Path | PathEntry(sb, v, p).Some?
      ensures PathEntry(sb, w, p) == PathEntry(sb, v, p)
      ensures var e := PathEntry(sb, v, p).value;
              !e.IsDir() ==> Intact(v, w, e.start)
    {
      ResolveExtends(sb, v, lay, w, newLay, sb.rootStart, Parent(p));
      FoundIsRegistered(sb, v, lay, Resolve(v, sb.rootStart, Parent(p)).value, Last(p));
    }
  }

  /** diskput, on success and on failure, leaves every earlier path and file as
      they were, except when the name is taken only behind the first unused slot
      and the file's blocks are free: then the earlier entry is no longer found. */
  lemma PutPreservesIff(sb: Superblock, v: Volume, lay: Layout, path: Path, data: seq<byte>, clock: nat -> FsTime,
                        need: nat)
    requires WellFormed(sb, v, lay) && path != [] && Reserves(sb.blockSize, SizeOf(data), need)
    ensures sb.blockSize >= ENTRY_SIZE
    ensures Preserved(sb, v, DiskPut(sb, v, path, data, clock).0)
         <==> !(TwinHidden(sb, v, path) && Tally(v, FREE) >= need)
  {
    hide WellFormed, DiskPut, TwinHidden, Preserved, Reserves;
    PutPreservesUnlessHidden(sb, v, lay, path, data, clock);
    if TwinHidden(sb, v, path) {
      HidingSucceeds(sb, v, lay, path, data, clock, need);
    }
  }

  /** Where an entry would be hidden there is a free slot, so that only the file's
      own blocks can be missing. */
  lemma HidingSucceeds(sb: Superblock, v: Volume, lay: Layout, path: Path, data: seq<byte>, clock: nat -> FsTime,
                       need: nat)
    requires WellFormed(sb, v, lay) && path != [] && TwinHidden(sb, v, path)
    requires Reserves(sb.blockSize, SizeOf(data), need)
    ensures sb.blockSize >= ENTRY_SIZE
    ensures DiskPut(sb, v, path, data, clock).1 <==> Tally(v, FREE) >= need
  {
    hide WellFormed, PutFile, Lookup, Resolve, Reserves;
    BlockSizeOk(sb, v, lay);
    RootIsDirectory(sb, v, lay);
    var d := Resolve(v, sb.rootStart, Parent(path)).value;
    ResolvedIsNotCreated(sb.blockSize, v, sb.rootStart, Parent(path), clock, 0);
    ResolvedIsDirectory(sb, v, lay, sb.rootStart, Parent(path));
    HiddenLeavesRoom(v, d, Last(path));
    PutFileAccounts(sb, v, lay, d, Last(path), data, SizeOf(data), clock(|path|), need);
  }

  lemma HiddenLeavesRoom(v: Volume, d: u32, name: Name)
    requires Lookup(v, d, name).Some? && !HasTwinBeforeFree(v, d, name)
    ensures Growth(v, d) == 0
  {
    var es := DirectoryOf(v, d);
    assert es[..|es|] == es;
  }

  lemma ResolvedIsDirectory(sb: Superblock, v: Volume, lay: Layout, d: u32, comps: Path)
    requires WellFormed(sb, v, lay) && IsDirectory(lay, d) && Resolve(v, d, comps).Some?
    ensures IsDirectory(lay, Resolve(v, d, comps).value)
  {
    hide WellFormed;
    ExtendsItself(v, lay);
    ResolveExtends(sb, v, lay, v, lay, d, comps);
  }

  /** The same, by what the put returned. */
  lemma PutPreservesUnlessHidden(sb: Superblock, v: Volume, lay: Layout, path: Path, data: seq<byte>,
                                 clock: nat -> FsTime)
    requires WellFormed(sb, v, lay) && path != []
    ensures sb.blockSize >= ENTRY_SIZE
    ensures var (w, ok) := DiskPut(sb, v, path, data, clock);
            Preserved(sb, v, w) <==> !(ok && TwinHidden(sb, v, path))
  {
    hide WellFormed, Extends, Preserved, TwinFirst, HasTwinBeforeFree, Resolve;
    BlockSizeOk(sb, v, lay);
    var (u, d) := ResolveOrCreate(sb.blockSize, v, sb.rootStart, Parent(path), clock, 0);
    var midLay := ParentsReady(sb, v, lay, path, clock);
    if d.Some? {
      FrameOfPutFile(sb, v, lay, u, midLay, d.value, path, data, clock(|path|));
    } else {
      ExtendsPreserves(sb, v, lay, u, midLay);
    }
  }

  lemma FrameOfPutFile(sb: Superblock, v: Volume, lay: Layout, u: Volume, midLay: Layout, d: u32, path: Path,
                       data: seq<byte>, now: FsTime)
    requires WellFormed(sb, v, lay) && Extends(v, lay, u, midLay)
    requires WellFormed(sb, u, midLay) && IsDirectory(midLay, d) && path != [] && sb.blockSize >= ENTRY_SIZE
    requires Resolve(u, sb.rootStart, Parent(path)) == Some(d)
    requires Lookup(u, d, Last(path)) == PathEntry(sb, v, path)
    requires HasTwinBeforeFree(u, d, Last(path)) == TwinFirst(sb, v, path)
    ensures var (w, ok) := PutFile(sb.blockSize, u, d, Last(path), data, SizeOf(data), now);
            Preserved(sb, v, w) <==> !(ok && TwinHidden(sb, v, path))
  {
    hide WellFormed, Extends, Preserved, TwinFirst, HasTwinBeforeFree, Resolve, HoldsFile;
    var (w, ok) := PutFile(sb.blockSize, u, d, Last(path), data, SizeOf(data), now);
    var newLay := PutFileKeeps(sb, u, midLay, d, Last(path), data, SizeOf(data), now);
    if ok {
      var need := Need(sb.blockSize, SizeOf(data));
      var f := FreeBlocks(u.fat, 0, need);
      var e := NewFile(f[0], need, SizeOf(data), now, Last(path));
      RootIsDirectory(sb, u, midLay);
      WayStaysOpen(sb, u, midLay, w, d, e, data, sb.rootStart, Parent(path));
      if TwinHidden(sb, v, path) {
        OldEntryIsHidden(sb, v, lay, u, midLay, w, d, e, path, data);
      } else {
        HoldsFileExtends(sb, u, midLay, w, newLay, d, e, data);
        ExtendsTransitive(v, lay, u, midLay, w, newLay);
        ExtendsPreserves(sb, v, lay, w, newLay);
      }
    } else {
      ExtendsTransitive(v, lay, u, midLay, w, newLay);
      ExtendsPreserves(sb, v, lay, w, newLay);
    }
  }

  lemma HoldsFileExtends(sb: Superblock, u: Volume, midLay: Layout, w: Volume, newLay: Layout, d: u32, e: DirEntry,
                         data: seq<byte>)
    requires sb.blockSize > 0 && e.size <= |data| && HoldsFile(sb, u, midLay, w, d, e, data)
    requires KeepsKinds(midLay, newLay) && IsDirectory(midLay, d)
    requires Lookup(u, d, e.name).None? || HasTwinBeforeFree(u, d, e.name)
    ensures Extends(u, midLay, w, newLay)
  {
    hide HasTwinBeforeFree;
    forall p: u32, name: Name | IsDirectory(midLay, p) && Lookup(u, p, name).Some?
      ensures Lookup(w, p, name) == Lookup(u, p, name)
    {
    }
  }

  lemma OldEntryIsHidden(sb: Superblock, v: Volume, lay: Layout, u: Volume, midLay: Layout, w: Volume, d: u32,
                         e: DirEntry, path: Path, data: seq<byte>)
    requires WellFormed(sb, u, midLay) && IsDirectory(midLay, d) && path != [] && sb.blockSize > 0
    requires e.size <= |data| && e.name == Last(path) && HoldsFile(sb, u, midLay, w, d, e, data)
    requires Resolve(w, sb.rootStart, Parent(path)) == Some(d)
    requires Lookup(u, d, Last(path)) == PathEntry(sb, v, path) && PathEntry(sb, v, path).Some?
    requires !HasTwinBeforeFree(u, d, Last(path))
    ensures !Preserved(sb, v, w)
  {
    hide WellFormed, HasTwinBeforeFree;
    FoundIsRegistered(sb, u, midLay, d, Last(path));
    assert PathEntry(sb, w, path) == Some(e);
    assert PathEntry(sb, v, path) != Some(e);
  }
}
