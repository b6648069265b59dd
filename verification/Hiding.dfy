/** When a put can hide an entry: only in a volume in which some entry sits behind
    the first unused slot of its directory, and no put makes such a volume. */
module Hiding {
  import opened Basics
  import opened Bytes
  import opened FatChain
  import opened DirEntries
  import opened Volumes
  import opened Images
  import opened Layouts
  import opened Files
  import opened Operations
  import opened Accounts
  import opened PutGet

  // ---------- one listing ----------

  /** Every name in the listing is found before the first unused slot. */
  ghost predicate FrontFound(es: seq<DirEntry>) {
    forall name: Name | FindIn(es, name).Some? :: FindIn(BeforeFree(es), name).Some?
  }

  lemma CompactIsFrontFound(es: seq<DirEntry>)
    requires CompactList(es)
    ensures FrontFound(es)
  {
    var k := FirstUnused(es);
    assert es == es[..k] + es[k..];
    forall name: Name | FindIn(es, name).Some? ensures FindIn(BeforeFree(es), name).Some? {
      FindInConcat(es[..k], es[k..], name);
      FindInUnused(es[k..], name);
    }
  }

  lemma NoneInUseIsFrontFound(es: seq<DirEntry>)
    requires NoneInUse(es)
    ensures FrontFound(es)
  {
    CompactIsFrontFound(es);
  }

  lemma EnterKeepsFrontFound(bs: nat, es: seq<DirEntry>, e: DirEntry)
    requires bs >= ENTRY_SIZE && e.InUse() && FrontFound(es)
    ensures FrontFound(Enter(bs, es, e))
  {
    var after := Enter(bs, es, e);
    forall name: Name | FindIn(after, name).Some? ensures FindIn(BeforeFree(after), name).Some? {
      FindInAfterEnter(bs, es, e, name);
      FrontGrows(bs, es, e, name);
    }
  }

  /** The part before the first unused slot keeps what it had and gains the entry. */
  lemma FrontGrows(bs: nat, es: seq<DirEntry>, e: DirEntry, name: Name)
    requires bs >= ENTRY_SIZE && e.InUse()
    ensures FindIn(BeforeFree(es), name).Some? || name == e.name ==>
              FindIn(BeforeFree(Enter(bs, es, e)), name).Some?
  {
    hide Enter, FirstUnused, FindIn;
    var k, after := FirstUnused(es), Enter(bs, es, e);
    EnterAt(bs, es, e);
    var front := BeforeFree(after);
    assert front == (es[..k] + [e]) + front[k + 1..];
    FindInConcat(es[..k] + [e], front[k + 1..], name);
    FindInConcat(es[..k], [e], name);
    FindInSelf(e);
  }

  lemma EnterAt(bs: nat, es: seq<DirEntry>, e: DirEntry)
    requires bs >= ENTRY_SIZE && e.InUse()
    ensures var k, after := FirstUnused(es), Enter(bs, es, e);
            k < FirstUnused(after) && after[..k] == es[..k] && after[k] == e
  {
    hide Parse, BlockEntries, FirstUnused;
  }

  lemma FindInSelf(e: DirEntry)
    requires e.InUse()
    ensures FindIn([e], e.name) == Some(e)
  {
  }

  // ---------- a whole volume ----------

  /** No put can hide an entry. */
  ghost predicate NoneHidden(sb: Superblock, v: Volume) {
    forall p: Path | p != [] :: !TwinHidden(sb, v, p)
  }

  /** Every directory on every path from `x` finds its names in front. */
  ghost predicate Open(v: Volume, x: u32) {
    forall q: Path | Resolve(v, x, q).Some? :: FrontFound(DirectoryOf(v, Resolve(v, x, q).value))
  }

  lemma NoneHiddenIsOpen(sb: Superblock, v: Volume)
    ensures NoneHidden(sb, v) <==> Open(v, sb.rootStart)
  {
    hide Resolve, DirectoryOf;
    if NoneHidden(sb, v) {
      forall q: Path | Resolve(v, sb.rootStart, q).Some?
        ensures FrontFound(DirectoryOf(v, Resolve(v, sb.rootStart, q).value))
      {
        var es := DirectoryOf(v, Resolve(v, sb.rootStart, q).value);
        forall name: Name | FindIn(es, name).Some? ensures FindIn(BeforeFree(es), name).Some? {
          assert Parent(q + [name]) == q && Last(q + [name]) == name;
          assert !TwinHidden(sb, v, q + [name]);
        }
      }
    }
  }

  /** A volume without holes hides nothing. */
  lemma CompactHidesNothing(sb: Superblock, v: Volume, lay: Layout)
    requires WellFormed(sb, v, lay) && Compact(v, lay)
    ensures NoneHidden(sb, v)
  {
    hide WellFormed, Resolve, FrontFound;
    RootIsDirectory(sb, v, lay);
    forall q: Path | Resolve(v, sb.rootStart, q).Some?
      ensures FrontFound(DirectoryOf(v, Resolve(v, sb.rootStart, q).value))
    {
      ResolvedIsDirectory(sb, v, lay, sb.rootStart, q);
      CompactIsFrontFound(DirectoryOf(v, Resolve(v, sb.rootStart, q).value));
    }
    NoneHiddenIsOpen(sb, v);
  }

  // ---------- steps ----------

  ghost predicate KeepsFront(v: Volume, w: Volume, x: u32) {
    FrontFound(DirectoryOf(v, x)) ==> FrontFound(DirectoryOf(w, x))
  }

  /** A name that leads to a directory led there before, or leads to an empty one. */
  ghost predicate LeadsAsBefore(v: Volume, w: Volume, x: u32, name: Name) {
    var e := Lookup(w, x, name);
    e.Some? && e.value.IsDir() ==> Lookup(v, x, name) == e || NoneInUse(DirectoryOf(w, e.value.start))
  }

  ghost predicate Settles(v: Volume, lay: Layout, w: Volume) {
    && (forall x | IsDirectory(lay, x) :: KeepsFront(v, w, x))
    && (forall x, name: Name | IsDirectory(lay, x) :: LeadsAsBefore(v, w, x, name))
  }

  lemma {:induction false} ResolvedStaysFront(sb: Superblock, v: Volume, lay: Layout, w: Volume, x: u32, q: Path)
    requires WellFormed(sb, v, lay) && IsDirectory(lay, x) && Open(v, x) && Settles(v, lay, w)
    requires Resolve(w, x, q).Some?
    ensures FrontFound(DirectoryOf(w, Resolve(w, x, q).value))
    decreases |q|
  {
    hide WellFormed, FrontFound, Open;
    assert KeepsFront(v, w, x);
    if q == [] {
      OpenHere(v, x);
    } else {
      var e := Lookup(w, x, q[0]).value;
      assert LeadsAsBefore(v, w, x, q[0]);
      if Lookup(v, x, q[0]) == Some(e) {
        OpenBelow(v, x, e, q[0]);
        FoundIsRegistered(sb, v, lay, x, q[0]);
        ResolvedStaysFront(sb, v, lay, w, e.start, q[1..]);
      } else {
        EmptyResolvesNothing(w, e.start, q[1..]);
        NoneInUseIsFrontFound(DirectoryOf(w, e.start));
      }
    }
  }

  lemma OpenHere(v: Volume, x: u32)
    requires Open(v, x)
    ensures FrontFound(DirectoryOf(v, x))
  {
    assert Resolve(v, x, []) == Some(x);
  }

  lemma OpenBelow(v: Volume, x: u32, e: DirEntry, name: Name)
    requires Open(v, x) && Lookup(v, x, name) == Some(e) && e.IsDir()
    ensures Open(v, e.start)
  {
    hide FrontFound;
    forall q: Path | Resolve(v, e.start, q).Some? ensures FrontFound(DirectoryOf(v, Resolve(v, e.start, q).value)) {
      assert ([name] + q)[1..] == q;
      assert Resolve(v, x, [name] + q) == Resolve(v, e.start, q);
    }
  }

  lemma OpenStays(sb: Superblock, v: Volume, lay: Layout, w: Volume, x: u32)
    requires WellFormed(sb, v, lay) && IsDirectory(lay, x) && Settles(v, lay, w)
    ensures Open(v, x) ==> Open(w, x)
  {
    hide WellFormed, FrontFound, Settles;
    if Open(v, x) {
      forall q: Path | Resolve(w, x, q).Some? ensures FrontFound(DirectoryOf(w, Resolve(w, x, q).value)) {
        ResolvedStaysFront(sb, v, lay, w, x, q);
      }
    }
  }

  lemma IntactSettles(v: Volume, w: Volume, lay: Layout)
    requires forall s | s in lay :: Intact(v, w, s)
    ensures Settles(v, lay, w)
  {
    hide DirectoryOf, FrontFound, FileBytes;
    forall x, name: Name | IsDirectory(lay, x) ensures KeepsFront(v, w, x) && LeadsAsBefore(v, w, x, name) {
      assert Intact(v, w, x);
    }
    forall x | IsDirectory(lay, x) ensures KeepsFront(v, w, x) {
      assert Intact(v, w, x);
    }
  }

  lemma AddSettles(sb: Superblock, v: Volume, u: Volume, w: Volume, lay: Layout, d: u32, e: DirEntry)
    requires sb.blockSize >= ENTRY_SIZE && IsDirectory(lay, d) && e.InUse()
    requires forall s | s in lay :: Intact(v, u, s)
    requires Gains(sb, u, w, lay, d, e) && (e.IsDir() ==> NoneInUse(DirectoryOf(u, e.start)))
    ensures Settles(v, lay, w)
  {
    hide DirectoryOf, FrontFound, FileBytes, Enter, FindIn;
    forall x | IsDirectory(lay, x) ensures KeepsFront(v, w, x) {
      assert Intact(v, u, x) && (x != d ==> Intact(u, w, x));
      if x == d && FrontFound(DirectoryOf(v, d)) {
        EnterKeepsFrontFound(sb.blockSize, DirectoryOf(v, d), e);
      }
    }
    forall x, name: Name | IsDirectory(lay, x) ensures LeadsAsBefore(v, w, x, name) {
      assert Intact(v, u, x) && (x != d ==> Intact(u, w, x));
      FindInAfterEnter(sb.blockSize, DirectoryOf(v, d), e, name);
      assert Intact(u, w, e.start);
    }
  }

  lemma CreateDirSettles(sb: Superblock, v: Volume, lay: Layout, parent: u32, name: Name, now: FsTime)
    requires WellFormed(sb, v, lay) && IsDirectory(lay, parent)
    ensures sb.blockSize >= ENTRY_SIZE && Settles(v, lay, CreateDir(sb.blockSize, v, parent, name, now).0)
  {
    hide WellFormed, Settles, Gains, Intact, AddEntry, Compact;
    BlockSizeOk(sb, v, lay);
    var f := FreeBlocks(v.fat, 0, 1);
    if |f| < 1 {
      NothingSettles(v, lay);
    } else {
      assert f == [f[0]];
      FreshDirectory(sb, v, lay, f[0]);
      var u, e := Store(sb.blockSize, v, f, []), NewDir(f[0], now, name);
      var _ := AddEntryKeeps(sb, u, lay, parent, e, f);
      var (w, ok) := AddEntry(sb.blockSize, u, parent, e);
      if ok {
        AddSettles(sb, v, u, w, lay, parent, e);
      } else {
        IntactSettles(v, u, lay);
      }
    }
  }

  lemma NothingSettles(v: Volume, lay: Layout)
    ensures Settles(v, lay, v)
  {
  }

  lemma PutFileSettles(sb: Superblock, v: Volume, lay: Layout, d: u32, name: Name, data: seq<byte>,
                       size: u32, now: FsTime)
    requires WellFormed(sb, v, lay) && IsDirectory(lay, d) && size <= |data|
    ensures sb.blockSize >= ENTRY_SIZE && Settles(v, lay, PutFile(sb.blockSize, v, d, name, data, size, now).0)
  {
    hide WellFormed, Settles, Gains, Intact, AddEntry, Compact;
    BlockSizeOk(sb, v, lay);
    var need := Need(sb.blockSize, size);
    var f := FreeBlocks(v.fat, 0, need);
    if |f| < need {
      NothingSettles(v, lay);
    } else {
      StoreKeeps(sb, v, lay, f, data[..size]);
      var u, e := Store(sb.blockSize, v, f, data[..size]), NewFile(f[0], need, size, now, name);
      var _ := AddEntryKeeps(sb, u, lay, d, e, f);
      var (w, ok) := AddEntry(sb.blockSize, u, d, e);
      if ok {
        AddSettles(sb, v, u, w, lay, d, e);
      } else {
        IntactSettles(v, u, lay);
      }
    }
  }

  lemma {:induction false} ResolveOrCreateKeepsOpen(sb: Superblock, v: Volume, lay: Layout, d: u32, comps: Path,
                                                    clock: nat -> FsTime, i: nat, x: u32)
    requires WellFormed(sb, v, lay) && IsDirectory(lay, d) && IsDirectory(lay, x)
    ensures sb.blockSize >= ENTRY_SIZE
    ensures Open(v, x) ==> Open(ResolveOrCreate(sb.blockSize, v, d, comps, clock, i).0, x)
    decreases |comps|
  {
    hide WellFormed, Settles, Open, Compact, CreateDir, NoneInUse, Lookup;
    BlockSizeOk(sb, v, lay);
    if comps != [] {
      if Lookup(v, d, comps[0]).Some? {
        FoundIsRegistered(sb, v, lay, d, comps[0]);
        var e := Lookup(v, d, comps[0]).value;
        if e.IsDir() {
          ResolveOrCreateKeepsOpen(sb, v, lay, e.start, comps[1..], clock, i + 1, x);
        }
      } else {
        var (u, s) := CreateDir(sb.blockSize, v, d, comps[0], clock(i));
        CreateDirSettles(sb, v, lay, d, comps[0], clock(i));
        OpenStays(sb, v, lay, u, x);
        var midLay := CreateDirKeeps(sb, v, lay, d, comps[0], clock(i));
        if s.Some? {
          ResolveOrCreateKeepsOpen(sb, u, midLay, s.value, comps[1..], clock, i + 1, x);
        }
      }
    }
  }

  /** diskput never makes a volume in which a later put could hide an entry. */
  lemma PutKeepsNoneHidden(sb: Superblock, v: Volume, lay: Layout, path: Path, data: seq<byte>, clock: nat -> FsTime)
    requires WellFormed(sb, v, lay) && NoneHidden(sb, v)
    ensures sb.blockSize >= ENTRY_SIZE
    ensures NoneHidden(sb, DiskPut(sb, v, path, data, clock).0)
  {
    hide WellFormed, NoneHidden, Open, Settles, PutFile, ResolveOrCreate, Extends, Compact;
    BlockSizeOk(sb, v, lay);
    if path != [] {
      RootIsDirectory(sb, v, lay);
      NoneHiddenIsOpen(sb, v);
      ResolveOrCreateKeepsOpen(sb, v, lay, sb.rootStart, Parent(path), clock, 0, sb.rootStart);
      var (u, d) := ResolveOrCreate(sb.blockSize, v, sb.rootStart, Parent(path), clock, 0);
      NoneHiddenIsOpen(sb, u);
      if d.Some? {
        var midLay := ParentsReady(sb, v, lay, path, clock);
        RootIsDirectory(sb, u, midLay);
        PutFileSettles(sb, u, midLay, d.value, Last(path), data, SizeOf(data), clock(|path|));
        var w := PutFile(sb.blockSize, u, d.value, Last(path), data, SizeOf(data), clock(|path|)).0;
        OpenStays(sb, u, midLay, w, sb.rootStart);
        NoneHiddenIsOpen(sb, w);
      }
    }
  }
}
