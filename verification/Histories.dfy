/** Many diskputs in a row, each of which may succeed or fail. */
module Histories {
  import opened Basics
  import opened Bytes
  import opened FatChain
  import opened DirEntries
  import opened Volumes
  import opened Images
  import opened Layouts
  import opened Files
  import opened Operations
  import opened Accounts
  import opened PutGet
  import opened Hiding

  datatype Request = Request(path: Path, data: seq<byte>, clock: nat -> FsTime)

  function PutOne(sb: Superblock, v: Volume, r: Request): (Volume, bool)
    requires sb.blockSize >= ENTRY_SIZE
  {
    DiskPut(sb, v, r.path, r.data, r.clock)
  }

  /** The volume after the first `n` requests. */
  function After(sb: Superblock, v: Volume, rs: seq<Request>, n: nat): Volume
    requires sb.blockSize >= ENTRY_SIZE && n <= |rs|
  {
    if n == 0 then v else PutOne(sb, After(sb, v, rs, n - 1), rs[n - 1]).0
  }

  /** Every volume of a history is well formed, and has no holes if the first one has none. */
  lemma {:induction false} HistoryKeepsWellFormed(sb: Superblock, v: Volume, lay: Layout, rs: seq<Request>, n: nat)
    returns (newLay: Layout)
    requires WellFormed(sb, v, lay) && sb.blockSize >= ENTRY_SIZE && n <= |rs|
    ensures WellFormed(sb, After(sb, v, rs, n), newLay) && KeepsKinds(lay, newLay)
    ensures Compact(v, lay) ==> Compact(After(sb, v, rs, n), newLay)
  {
    hide WellFormed, DiskPut, Compact;
    newLay := lay;
    if n > 0 {
      var oldLay := HistoryKeepsWellFormed(sb, v, lay, rs, n - 1);
      var r := rs[n - 1];
      newLay := PutKeepsWellFormed(sb, After(sb, v, rs, n - 1), oldLay, r.path, r.data, r.clock);
    }
  }

  lemma {:induction false} HistoryKeepsNoneHidden(sb: Superblock, v: Volume, lay: Layout, rs: seq<Request>, n: nat)
    requires WellFormed(sb, v, lay) && sb.blockSize >= ENTRY_SIZE && n <= |rs| && NoneHidden(sb, v)
    ensures NoneHidden(sb, After(sb, v, rs, n))
  {
    hide WellFormed, DiskPut, NoneHidden;
    if n > 0 {
      HistoryKeepsNoneHidden(sb, v, lay, rs, n - 1);
      var midLay := HistoryKeepsWellFormed(sb, v, lay, rs, n - 1);
      var r := rs[n - 1];
      PutKeepsNoneHidden(sb, After(sb, v, rs, n - 1), midLay, r.path, r.data, r.clock);
    }
  }

  /** From a volume that hides nothing, whatever can be found at some point of a
      history is still found at any later one, with the same bytes. */
  lemma {:induction false} HistoryPreserves(sb: Superblock, v: Volume, lay: Layout, rs: seq<Request>, m: nat, n: nat)
    requires WellFormed(sb, v, lay) && sb.blockSize >= ENTRY_SIZE && m <= n <= |rs| && NoneHidden(sb, v)
    ensures Preserved(sb, After(sb, v, rs, m), After(sb, v, rs, n))
  {
    hide WellFormed, DiskPut, Preserved, NoneHidden;
    if m == n {
      PreservedItself(sb, After(sb, v, rs, m));
    } else {
      HistoryPreserves(sb, v, lay, rs, m, n - 1);
      var u, r := After(sb, v, rs, n - 1), rs[n - 1];
      var midLay := HistoryKeepsWellFormed(sb, v, lay, rs, n - 1);
      HistoryKeepsNoneHidden(sb, v, lay, rs, n - 1);
      OnePutPreserves(sb, u, midLay, r);
      PreservedTwice(sb, After(sb, v, rs, m), u, After(sb, v, rs, n));
    }
  }

  lemma OnePutPreserves(sb: Superblock, v: Volume, lay: Layout, r: Request)
    requires WellFormed(sb, v, lay) && sb.blockSize >= ENTRY_SIZE && NoneHidden(sb, v)
    ensures Preserved(sb, v, PutOne(sb, v, r).0)
  {
    hide WellFormed, Preserved, TwinHidden;
    if r.path == [] {
      PreservedItself(sb, v);
    } else {
      var need := Need(sb.blockSize, SizeOf(r.data));
      NeedReserves(sb.blockSize, SizeOf(r.data));
      PutPreservesIff(sb, v, lay, r.path, r.data, r.clock, need);
    }
  }

  /** On a full volume no put changes anything. */
  lemma {:induction false} FullStaysSame(sb: Superblock, v: Volume, rs: seq<Request>, n: nat)
    requires sb.blockSize >= ENTRY_SIZE && Tally(v, FREE) == 0 && n <= |rs|
    ensures After(sb, v, rs, n) == v
  {
    if n > 0 {
      FullStaysSame(sb, v, rs, n - 1);
      NoBlockNoPut(sb, v, rs[n - 1]);
    }
  }

  lemma NoBlockNoPut(sb: Superblock, v: Volume, r: Request)
    requires sb.blockSize >= ENTRY_SIZE && Tally(v, FREE) == 0
    ensures PutOne(sb, v, r).0 == v
  {
    hide FreeBlocks, Lookup, AddEntry;
    if r.path != [] {
      NoBlockNoDirectory(sb.blockSize, v, sb.rootStart, Parent(r.path), r.clock, 0);
      var need := Need(sb.blockSize, SizeOf(r.data));
      FreeBlocksComplete(v.fat, 0, need);
      assert v.fat[0..] == v.fat;
    }
  }

  lemma {:induction false} NoBlockNoDirectory(bs: nat, v: Volume, d: u32, comps: Path, clock: nat -> FsTime, i: nat)
    requires bs >= ENTRY_SIZE && Tally(v, FREE) == 0
    ensures ResolveOrCreate(bs, v, d, comps, clock, i).0 == v
    decreases |comps|
  {
    hide FreeBlocks, Lookup, AddEntry;
    FreeBlocksComplete(v.fat, 0, 1);
    assert v.fat[0..] == v.fat;
    if comps != [] && Lookup(v, d, comps[0]).Some? {
      NoBlockNoDirectory(bs, v, Lookup(v, d, comps[0]).value.start, comps[1..], clock, i + 1);
    }
  }

  /** Every history preserves everything if and only if the first volume has no free
      block, or no entry behind the first unused slot that a put could hide. */
  lemma EveryHistoryPreservesIff(sb: Superblock, v: Volume, lay: Layout)
    requires WellFormed(sb, v, lay) && sb.blockSize >= ENTRY_SIZE
    ensures (forall rs: seq<Request> :: Preserved(sb, v, After(sb, v, rs, |rs|)))
        <==> Tally(v, FREE) == 0 || NoneHidden(sb, v)
  {
    hide WellFormed, Preserved, TwinHidden, DiskPut, Tally, After, Need;
    if Tally(v, FREE) == 0 || NoneHidden(sb, v) {
      forall rs: seq<Request> ensures Preserved(sb, v, After(sb, v, rs, |rs|)) {
        HistoryPreservesFirst(sb, v, lay, rs);
      }
    } else {
      var p: Path :| p != [] && TwinHidden(sb, v, p);
      var rs := HidingRequest(sb, v, lay, p);
      assert !Preserved(sb, v, After(sb, v, rs, |rs|));
    }
  }

  lemma HistoryPreservesFirst(sb: Superblock, v: Volume, lay: Layout, rs: seq<Request>)
    requires WellFormed(sb, v, lay) && sb.blockSize >= ENTRY_SIZE
    requires Tally(v, FREE) == 0 || NoneHidden(sb, v)
    ensures Preserved(sb, v, After(sb, v, rs, |rs|))
  {
    hide WellFormed, Preserved, NoneHidden, DiskPut;
    if Tally(v, FREE) == 0 {
      FullStaysSame(sb, v, rs, |rs|);
      PreservedItself(sb, v);
    } else {
      HistoryPreserves(sb, v, lay, rs, 0, |rs|);
      assert After(sb, v, rs, 0) == v;
    }
  }

  /** One put of an empty file is enough to hide an entry. */
  lemma HidingRequest(sb: Superblock, v: Volume, lay: Layout, p: Path) returns (rs: seq<Request>)
    requires WellFormed(sb, v, lay) && sb.blockSize >= ENTRY_SIZE
    requires p != [] && TwinHidden(sb, v, p) && Tally(v, FREE) > 0
    ensures !Preserved(sb, v, After(sb, v, rs, |rs|))
  {
    hide WellFormed, Preserved, TwinHidden, DiskPut, Need, Tally, After;
    var clock: nat -> FsTime := _ => FsTime(2026, 1, 1, 0, 0, 0);
    rs := [Request(p, [], clock)];
    PutPreservesIff(sb, v, lay, p, [], clock, 1);
    OneRequest(sb, v, rs[0]);
  }

  lemma OneRequest(sb: Superblock, v: Volume, r: Request)
    requires sb.blockSize >= ENTRY_SIZE
    ensures After(sb, v, [r], 1) == PutOne(sb, v, r).0
  {
    hide DiskPut;
    assert After(sb, v, [r], 0) == v;
  }

  lemma PreservedItself(sb: Superblock, v: Volume)
    ensures Preserved(sb, v, v)
  {
  }

  lemma PreservedTwice(sb: Superblock, u: Volume, v: Volume, w: Volume)
    requires Preserved(sb, u, v) && Preserved(sb, v, w)
    ensures Preserved(sb, u, w)
  {
    hide PathEntry, FileBytes;
    forall p: Path | PathEntry(sb, u, p).Some?
      ensures PathEntry(sb, w, p) == PathEntry(sb, u, p)
      ensures var e := PathEntry(sb, u, p).value;
              !e.IsDir() ==> forall size: nat :: FileBytes(w, e.start, size) == FileBytes(u, e.start, size)
    {
      assert PathEntry(sb, v, p) == PathEntry(sb, u, p);
    }
  }

  /** The entry of a file just put: in use, a file and no directory, named by the
      path's last component, with the data's length cut to 32 bits, as many blocks as
      its chain has and the length needs, and one time of creation and change. */
  ghost predicate FileEntry(sb: Superblock, w: Volume, e: DirEntry, path: Path, data: seq<byte>, now: FsTime)
    requires path != []
  {
    && e.status == 3 && e.name == path[|path| - 1]
    && e.size == |data| % 0x1_0000_0000
    && Reserves(sb.blockSize, e.size, e.numBlocks) && |ChainOf(w, e.start)| == e.numBlocks
    && e.ctime == now && e.mtime == now
  }

  /** What a path names after a successful put of it: a plain file, or still the
      entry of that name that came first. */
  lemma EntryAfterPut(sb: Superblock, v: Volume, lay: Layout, r: Request)
    requires WellFormed(sb, v, lay) && sb.blockSize >= ENTRY_SIZE && r.path != [] && PutOne(sb, v, r).1
    ensures var e := PathEntry(sb, PutOne(sb, v, r).0, r.path);
            e.Some? && if TwinFirst(sb, v, r.path) then e == PathEntry(sb, v, r.path)
                       else FileEntry(sb, PutOne(sb, v, r).0, e.value, r.path, r.data, r.clock(|r.path|))
  {
    hide WellFormed, Extends, TwinFirst, HasTwinBeforeFree, PathEntry;
    var (u, d) := ResolveOrCreate(sb.blockSize, v, sb.rootStart, Parent(r.path), r.clock, 0);
    var midLay := ParentsReady(sb, v, lay, r.path, r.clock);
    EntryAfterPutFile(sb, u, midLay, d.value, r.path, r.data, r.clock(|r.path|));
  }

  lemma EntryAfterPutFile(sb: Superblock, u: Volume, midLay: Layout, d: u32, path: Path, data: seq<byte>, now: FsTime)
    requires WellFormed(sb, u, midLay) && IsDirectory(midLay, d) && path != [] && sb.blockSize >= ENTRY_SIZE
    requires Resolve(u, sb.rootStart, Parent(path)) == Some(d)
    requires PutFile(sb.blockSize, u, d, Last(path), data, SizeOf(data), now).1
    ensures var e := PathEntry(sb, PutFile(sb.blockSize, u, d, Last(path), data, SizeOf(data), now).0, path);
            e.Some? && if HasTwinBeforeFree(u, d, Last(path)) then e == Lookup(u, d, Last(path))
                       else FileEntry(sb, PutFile(sb.blockSize, u, d, Last(path), data, SizeOf(data), now).0,
                                      e.value, path, data, now)
  {
    hide WellFormed, HasTwinBeforeFree, Resolve, Lookup, PutFile, Reserves, Need;
    var (w, ok) := PutFile(sb.blockSize, u, d, Last(path), data, SizeOf(data), now);
    var newLay := PutFileKeeps(sb, u, midLay, d, Last(path), data, SizeOf(data), now);
    var need := Need(sb.blockSize, SizeOf(data));
    var f := FreeBlocks(u.fat, 0, need);
    var e := NewFile(f[0], need, SizeOf(data), now, Last(path));
    RootIsDirectory(sb, u, midLay);
    WayStaysOpen(sb, u, midLay, w, d, e, data, sb.rootStart, Parent(path));
    TwinIsFound(u, d, Last(path));
    NeedReserves(sb.blockSize, SizeOf(data));
    FileStatus(e, need, SizeOf(data), now, Last(path));
  }

  lemma FileStatus(e: DirEntry, need: u32, size: u32, now: FsTime, name: Name)
    requires e == NewFile(e.start, need, size, now, name)
    ensures e.status == 3 && !e.IsDir()
  {
  }

  /** From a volume that hides nothing, at any position of any history: where the
      name was not taken, the file put there is got in the end if and only if its
      length did not wrap around; otherwise the earlier entry is still there. */
  lemma EveryPutIsGotIff(sb: Superblock, v: Volume, lay: Layout, rs: seq<Request>, i: nat)
    requires WellFormed(sb, v, lay) && sb.blockSize >= ENTRY_SIZE && i < |rs| && NoneHidden(sb, v)
    requires PutOne(sb, After(sb, v, rs, i), rs[i]).1
    ensures var u, r, end := After(sb, v, rs, i), rs[i], After(sb, v, rs, |rs|);
            if PathEntry(sb, u, r.path).Some? then PathEntry(sb, end, r.path) == PathEntry(sb, u, r.path)
            else DiskGet(sb, end, r.path) == Some(r.data) <==> |r.data| + sb.blockSize - 1 < 0x1_0000_0000
  {
    hide WellFormed, DiskPut, DiskGet, Preserved, TwinFirst, PathEntry, FileEntry;
    var u, r := After(sb, v, rs, i), rs[i];
    NoPathNoSuccess(sb, u, r);
    var midLay := HistoryKeepsWellFormed(sb, v, lay, rs, i);
    HistoryKeepsNoneHidden(sb, v, lay, rs, i);
    assert !TwinHidden(sb, u, r.path);
    PutThenGetIff(sb, u, midLay, r.path, r.data, r.clock);
    EntryAfterPut(sb, u, midLay, r);
    HistoryPreserves(sb, v, lay, rs, i + 1, |rs|);
    TwinIsNamed(sb, u, r.path);
    FoundStays(sb, After(sb, v, rs, i + 1), After(sb, v, rs, |rs|), r.path);
    NoDirectory(sb, After(sb, v, rs, i + 1), r);
  }

  lemma NoDirectory(sb: Superblock, w: Volume, r: Request)
    requires r.path != []
    ensures forall e: DirEntry {:trigger FileEntry(sb, w, e, r.path, r.data, r.clock(|r.path|))} |
              FileEntry(sb, w, e, r.path, r.data, r.clock(|r.path|)) :: !e.IsDir()
  {
  }

  lemma NoPathNoSuccess(sb: Superblock, v: Volume, r: Request)
    requires sb.blockSize >= ENTRY_SIZE && PutOne(sb, v, r).1
    ensures r.path != []
  {
  }

  lemma TwinIsNamed(sb: Superblock, v: Volume, p: Path)
    requires p != []
    ensures TwinFirst(sb, v, p) ==> PathEntry(sb, v, p).Some?
  {
    hide HasTwinBeforeFree;
    var d := Resolve(v, sb.rootStart, Parent(p));
    if d.Some? {
      TwinIsFound(v, d.value, Last(p));
    }
  }

  /** What a path names stays, and so does what is got, unless it is a directory. */
  lemma FoundStays(sb: Superblock, v: Volume, w: Volume, p: Path)
    requires Preserved(sb, v, w) && PathEntry(sb, v, p).Some?
    ensures PathEntry(sb, w, p) == PathEntry(sb, v, p)
    ensures !PathEntry(sb, v, p).value.IsDir() ==> DiskGet(sb, w, p) == DiskGet(sb, v, p)
  {
    hide PathEntry, FileBytes;
  }
}
