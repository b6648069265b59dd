/** What a whole diskput takes: when it succeeds, and how many blocks it moves. */
module PathAccounts {
  import opened Basics
  import opened Bytes
  import opened FatChain
  import opened DirEntries
  import opened Volumes
  import opened Images
  import opened Layouts
  import opened Files
  import opened Operations
  import opened Accounts
  import opened PutGet

  /** Some component that exists is not a directory. */
  predicate Blocked(v: Volume, d: u32, comps: Path)
    decreases |comps|
  {
    comps != [] && match Lookup(v, d, comps[0])
                   case Some(e) => !e.IsDir() || Blocked(v, e.start, comps[1..])
                   case None => false
  }

  /** The blocks that creating the missing directories takes: one for each, and one
      more when the directory that gains the first of them is full. */
  function DirCost(v: Volume, d: u32, comps: Path): nat
    decreases |comps|
  {
    if comps == [] then 0 else
    match Lookup(v, d, comps[0])
    case Some(e) => DirCost(v, e.start, comps[1..])
    case None => |comps| + Growth(v, d)
  }

  /** The growth of the last directory, which is never full when it is new. */
  function LastGrowth(v: Volume, d: u32, comps: Path): nat {
    match Resolve(v, d, comps)
    case Some(x) => Growth(v, x)
    case None => 0
  }

  lemma ListingIsNotEmpty(sb: Superblock, v: Volume, lay: Layout, d: u32)
    requires WellFormed(sb, v, lay) && d in lay
    ensures |DirectoryOf(v, d)| > 0
  {
    DirectoryChain(sb, v, lay, d);
    var c := lay[d].chain;
    assert !IsMeta(sb, c[0]) && |v.blocks[c[0]]| == sb.blockSize;
  }

  lemma EmptyHasRoom(sb: Superblock, v: Volume, lay: Layout, d: u32)
    requires WellFormed(sb, v, lay) && d in lay && NoneInUse(DirectoryOf(v, d))
    ensures Growth(v, d) == 0 && forall name: Name :: Lookup(v, d, name).None?
  {
    hide WellFormed;
    ListingIsNotEmpty(sb, v, lay, d);
    forall name: Name ensures Lookup(v, d, name).None? {
      FindInUnused(DirectoryOf(v, d), name);
    }
  }

  /** Below an empty directory everything has to be created, one block each. */
  lemma EmptyCosts(sb: Superblock, v: Volume, lay: Layout, d: u32, comps: Path)
    requires WellFormed(sb, v, lay) && d in lay && NoneInUse(DirectoryOf(v, d))
    ensures !Blocked(v, d, comps) && DirCost(v, d, comps) == |comps| && LastGrowth(v, d, comps) == 0
  {
    hide WellFormed, Lookup, Growth;
    EmptyHasRoom(sb, v, lay, d);
    EmptyResolvesNothing(v, d, comps);
  }

  lemma {:induction false} ResolveOrCreateAccounts(sb: Superblock, v: Volume, lay: Layout, d: u32, comps: Path,
                                                   clock: nat -> FsTime, i: nat)
    requires WellFormed(sb, v, lay) && IsDirectory(lay, d)
    ensures sb.blockSize >= ENTRY_SIZE
    ensures var (w, r) := ResolveOrCreate(sb.blockSize, v, d, comps, clock, i);
            && (r.Some? <==> !Blocked(v, d, comps) && Tally(v, FREE) >= DirCost(v, d, comps))
            && (r.Some? ==> Tally(w, FREE) == Tally(v, FREE) - DirCost(v, d, comps))
            && (r.Some? ==> Growth(w, r.value) == LastGrowth(v, d, comps))
            && (r.None? ==> Tally(w, FREE) == if Blocked(v, d, comps) then Tally(v, FREE) else 0)
            && Tally(w, RESERVED) == Tally(v, RESERVED)
    decreases |comps|
  {
    hide WellFormed, Compact, Extends, NoneInUse, CreateDir, Lookup, Growth, Tally;
    BlockSizeOk(sb, v, lay);
    if comps != [] {
      if Lookup(v, d, comps[0]).Some? {
        FoundIsRegistered(sb, v, lay, d, comps[0]);
        var e := Lookup(v, d, comps[0]).value;
        if e.IsDir() {
          ResolveOrCreateAccounts(sb, v, lay, e.start, comps[1..], clock, i + 1);
        }
      } else {
        var (u, s) := CreateDir(sb.blockSize, v, d, comps[0], clock(i));
        CreateDirAccounts(sb, v, lay, d, comps[0], clock(i));
        var midLay := CreateDirKeeps(sb, v, lay, d, comps[0], clock(i));
        if s.Some? {
          EmptyCosts(sb, u, midLay, s.value, comps[1..]);
          ResolveOrCreateAccounts(sb, u, midLay, s.value, comps[1..], clock, i + 1);
        }
      }
    }
  }

  /** diskput succeeds exactly when no file is in the way and the missing
      directories, the file's blocks and the growth of the last directory fit in the
      free blocks; it takes exactly those. A failure takes what it got to before the
      blocks ran out. The reserved count never changes. */
  lemma DiskPutAccounts(sb: Superblock, v: Volume, lay: Layout, path: Path, data: seq<byte>, clock: nat -> FsTime,
                        need: nat)
    requires WellFormed(sb, v, lay) && path != [] && Reserves(sb.blockSize, SizeOf(data), need)
    ensures sb.blockSize >= ENTRY_SIZE
    ensures var (w, ok) := DiskPut(sb, v, path, data, clock);
            var root, dirs := sb.rootStart, Parent(path);
            var cost := DirCost(v, root, dirs) + need + LastGrowth(v, root, dirs);
            && (ok <==> !Blocked(v, root, dirs) && Tally(v, FREE) >= cost)
            && (ok ==> Tally(w, FREE) == Tally(v, FREE) - cost)
            && (!ok ==> Tally(w, FREE)
                        == if Blocked(v, root, dirs) then Tally(v, FREE)
                           else if Tally(v, FREE) < DirCost(v, root, dirs) then 0
                           else Left(Tally(v, FREE) - DirCost(v, root, dirs), need))
            && Tally(w, RESERVED) == Tally(v, RESERVED)
  {
    hide WellFormed, Compact, Extends, PutFile, ResolveOrCreate, Growth, LastGrowth, Blocked, DirCost, Tally, Reserves;
    hide TwinFirst, HasTwinBeforeFree, PathEntry, Lookup, Resolve;
    BlockSizeOk(sb, v, lay);
    RootIsDirectory(sb, v, lay);
    ResolveOrCreateAccounts(sb, v, lay, sb.rootStart, Parent(path), clock, 0);
    var (u, d) := ResolveOrCreate(sb.blockSize, v, sb.rootStart, Parent(path), clock, 0);
    if d.Some? {
      var midLay := ParentsReady(sb, v, lay, path, clock);
      PutFileAccounts(sb, u, midLay, d.value, Last(path), data, SizeOf(data), clock(|path|), need);
    }
  }
}
