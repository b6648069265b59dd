/** Concrete volumes and an image: well-formed ones, and those on which a put does
    not do what one would expect. */
module Examples {
  import opened Basics
  import opened Bytes
  import opened FatChain
  import opened DirEntries
  import opened Volumes
  import opened Images
  import opened Layouts
  import opened Files
  import opened PutGet
  import opened Accounts
  import opened Hiding
  import opened Programs

  const BS: u16 := 64
  const NOW: FsTime := FsTime(2026, 1, 1, 0, 0, 0)
  const NAME: Name := [0x61]

  /** Six blocks of 64 bytes: two of metadata, the root directory, three more. */
  const SB: Superblock := Superblock(BS, 6, 1, 1, 2, 1)

  function Fresh(): Volume {
    Vol([RESERVED, RESERVED, EOF, FREE, FREE, FREE],
        [[], [], Zeros(64), Zeros(64), Zeros(64), Zeros(64)])
  }

  const FRESH_LAYOUT: Layout := map[2 := Node([2], true, 0, 0, 0)]

  /** An empty root directory on an otherwise free disk is well formed. */
  lemma FreshIsWellFormed()
    ensures WellFormed(SB, Fresh(), FRESH_LAYOUT)
    ensures NoneInUse(DirectoryOf(Fresh(), 2)) && |DirectoryOf(Fresh(), 2)| == 1
  {
    var v := Fresh();
    assert IsChain(v.fat, 2, [2]);
    assert OwnChain(SB, v, 2, [2]);
    WalkIsWhole(SB, v, 2, [2]);
    OneBlockListing(v.blocks, 2);
    ZeroBlockEntries(64);
    assert AllOwned(FRESH_LAYOUT, 2, DirectoryOf(v, 2));
  }

  lemma OneBlockListing(blocks: seq<seq<byte>>, b: nat)
    requires b < |blocks|
    ensures Entries(blocks, [b]) == BlockEntries(blocks[b])
  {
    assert [b][1..] == [];
    assert Entries(blocks, [b]) == BlockEntries(blocks[b]) + Entries(blocks, [b][1..]);
  }

  /** The root directory holds one empty file, and has no unused slot left. */
  function Taken(): Volume {
    Vol([RESERVED, RESERVED, EOF, EOF, FREE, FREE],
        [[], [], Encode(NewFile(3, 1, 0, NOW, NAME)), Zeros(64), Zeros(64), Zeros(64)])
  }

  const TAKEN_LAYOUT: Layout := map[2 := Node([2], true, 0, 0, 0), 3 := Node([3], false, 2, 0, 1)]

  lemma TakenListing()
    ensures DirectoryOf(Taken(), 2) == [NewFile(3, 1, 0, NOW, NAME)]
    ensures ChainOf(Taken(), 2) == [2] && ChainOf(Taken(), 3) == [3]
    ensures OwnChain(SB, Taken(), 2, [2]) && OwnChain(SB, Taken(), 3, [3])
  {
    hide Encode, Parse, BlockEntries, Entries, ChainOf;
    var v, e := Taken(), NewFile(3, 1, 0, NOW, NAME);
    assert IsChain(v.fat, 2, [2]) && IsChain(v.fat, 3, [3]);
    WalkIsWhole(SB, v, 2, [2]);
    WalkIsWhole(SB, v, 3, [3]);
    OneBlockListing(v.blocks, 2);
    OneEntryBlock(e);
  }

  lemma OneEntryBlock(e: DirEntry)
    ensures BlockEntries(Encode(e)) == [e]
  {
    hide Encode, Parse;
    EntryRoundTrip(e);
    assert Encode(e)[0 * ENTRY_SIZE..(0 + 1) * ENTRY_SIZE] == Encode(e);
    assert BlockEntries(Encode(e))[0] == e;
  }

  lemma TakenIsWellFormed()
    ensures WellFormed(SB, Taken(), TAKEN_LAYOUT)
  {
    hide DirectoryOf, Encode;
    var v, e := Taken(), NewFile(3, 1, 0, NOW, NAME);
    TakenListing();
    assert Owned(TAKEN_LAYOUT, 2, 0, e);
    assert AllOwned(TAKEN_LAYOUT, 2, DirectoryOf(v, 2));
    assert Entered(v, TAKEN_LAYOUT, 3);
  }

  /** Putting into the root directory succeeds when enough blocks are free. */
  lemma PutInRoot(v: Volume, lay: Layout, data: seq<byte>, clock: nat -> FsTime, need: nat)
    requires WellFormed(SB, v, lay) && Reserves(BS, SizeOf(data), need)
    requires Tally(v, FREE) >= need + 1
    ensures DiskPut(SB, v, [NAME], data, clock).1
  {
    hide WellFormed;
    assert Parent([NAME]) == [];
    RootIsDirectory(SB, v, lay);
    PutFileAccounts(SB, v, lay, 2, NAME, data, SizeOf(data), clock(1), need);
  }

  /** A file put under a name that is already taken, in a directory without an
      earlier free slot, is stored and never found: get returns the old file. */
  lemma TakenNameDefeatsPut(clock: nat -> FsTime)
    ensures var (w, ok) := DiskPut(SB, Taken(), [NAME], [7], clock);
            ok && DiskGet(SB, w, [NAME]) == Some([]) != Some([7])
  {
    hide WellFormed, DiskPut, DiskGet;
    var v := Taken();
    TakenIsWellFormed();
    assert multiset(v.fat)[FREE] == 2;
    PutInRoot(v, TAKEN_LAYOUT, [7], clock, 1);
    GetAfterPut(SB, v, TAKEN_LAYOUT, [NAME], [7], clock);
    TakenNameIsFirst();
  }

  lemma TakenNameIsFirst()
    ensures TwinFirst(SB, Taken(), [NAME])
    ensures DiskGet(SB, Taken(), [NAME]) == Some([])
  {
    hide DirectoryOf, Encode, Extract, ChainOf, Follow, WellFormed, OwnChain, Taken;
    var v, e := Taken(), NewFile(3, 1, 0, NOW, NAME);
    TakenListing();
    assert Parent([NAME]) == [] && Last([NAME]) == NAME;
    OneTwin(e);
    ExtractNothing(v.blocks, [3]);
  }

  lemma OneTwin(e: DirEntry)
    requires e.InUse()
    ensures FirstUnused([e]) == 1 && [e][..1] == [e] && FindIn([e], e.name) == Some(e)
  {
  }

  /** A file of 2^32 - 1 bytes is cut to one block, with every sign of success. */
  lemma HugeFileIsCut(data: seq<byte>, clock: nat -> FsTime)
    requires |data| == 0xFFFF_FFFF
    ensures var (w, ok) := DiskPut(SB, Fresh(), [NAME], data, clock);
            ok && DiskGet(SB, w, [NAME]) == Some(data[..64]) != Some(data)
  {
    hide WellFormed, DiskPut, DiskGet, NoneInUse, DirectoryOf;
    var v := Fresh();
    FreshIsWellFormed();
    assert multiset(v.fat)[FREE] == 3;
    WrapsToOneBlock(BS, 0xFFFF_FFFF);
    PutInRoot(v, FRESH_LAYOUT, data, clock, 1);
    GetAfterPut(SB, v, FRESH_LAYOUT, [NAME], data, clock);
    assert Parent([NAME]) == [];
    PutGet.EmptyHasNoTwin(v, 2, NAME);
    assert Span(BS, 1) == 64;
    assert |data[..64]| != |data|;
  }

  /** A file of two blocks put into the full directory, on a disk with exactly two
      free blocks, is not entered, and keeps both blocks. */
  lemma FailedPutKeepsBlocks(data: seq<byte>, name: Name, clock: nat -> FsTime)
    requires |data| == 65
    ensures var (w, ok) := DiskPut(SB, Taken(), [name], data, clock);
            !ok && Tally(Taken(), FREE) == 2 && Tally(w, FREE) == 0
  {
    hide WellFormed, PutFile, Growth, Taken;
    var v := Taken();
    TakenIsWellFormed();
    assert Parent([name]) == [];
    RootIsDirectory(SB, v, TAKEN_LAYOUT);
    TakenRootIsFull();
    PutFileAccounts(SB, v, TAKEN_LAYOUT, 2, name, data, SizeOf(data), clock(1), 2);
  }

  lemma TakenRootIsFull()
    ensures Growth(Taken(), 2) == 1 && Tally(Taken(), FREE) == 2
  {
    hide DirectoryOf, Encode;
    TakenListing();
    assert multiset(Taken().fat)[FREE] == 2;
  }

  /** Six blocks of 128 bytes, with two entries each. */
  const SB_WIDE: Superblock := Superblock(128, 6, 1, 1, 2, 1)

  /** The root directory's first slot is unused; its second holds an empty file. */
  function Holed(): Volume {
    Vol([RESERVED, RESERVED, EOF, EOF, FREE, FREE],
        [[], [], Zeros(64) + Encode(NewFile(3, 1, 0, NOW, NAME)), Zeros(128), Zeros(128), Zeros(128)])
  }

  const HOLED_LAYOUT: Layout := map[2 := Node([2], true, 0, 0, 0), 3 := Node([3], false, 2, 1, 1)]

  lemma HoledListing()
    ensures var es := DirectoryOf(Holed(), 2);
            |es| == 2 && !es[0].InUse() && es[1] == NewFile(3, 1, 0, NOW, NAME)
    ensures ChainOf(Holed(), 3) == [3]
    ensures OwnChain(SB_WIDE, Holed(), 2, [2]) && OwnChain(SB_WIDE, Holed(), 3, [3])
  {
    hide Encode, Parse, BlockEntries, Entries, ChainOf;
    var v, e := Holed(), NewFile(3, 1, 0, NOW, NAME);
    assert IsChain(v.fat, 2, [2]) && IsChain(v.fat, 3, [3]);
    WalkIsWhole(SB_WIDE, v, 2, [2]);
    WalkIsWhole(SB_WIDE, v, 3, [3]);
    OneBlockListing(v.blocks, 2);
    HoleThenEntry(e);
  }

  lemma HoleThenEntry(e: DirEntry)
    ensures var es := BlockEntries(Zeros(64) + Encode(e));
            |es| == 2 && !es[0].InUse() && es[1] == e
  {
    hide Encode;
    var b := Zeros(64) + Encode(e);
    EntryRoundTrip(e);
    ZeroBlockEntries(64);
    assert b[0 * ENTRY_SIZE..1 * ENTRY_SIZE] == Zeros(64) == Zeros(64)[0 * ENTRY_SIZE..1 * ENTRY_SIZE];
    assert b[1 * ENTRY_SIZE..2 * ENTRY_SIZE] == Encode(e);
    assert BlockEntries(b)[0] == BlockEntries(Zeros(64))[0];
    assert BlockEntries(b)[1] == Parse(b[1 * ENTRY_SIZE..2 * ENTRY_SIZE]);
  }

  lemma HoledIsWellFormed()
    ensures WellFormed(SB_WIDE, Holed(), HOLED_LAYOUT)
  {
    hide DirectoryOf, Encode;
    var v, e := Holed(), NewFile(3, 1, 0, NOW, NAME);
    HoledListing();
    assert Owned(HOLED_LAYOUT, 2, 1, e);
    assert AllOwned(HOLED_LAYOUT, 2, DirectoryOf(v, 2));
    assert Entered(v, HOLED_LAYOUT, 3);
  }

  lemma HoledHides()
    ensures TwinHidden(SB_WIDE, Holed(), [NAME]) && DiskGet(SB_WIDE, Holed(), [NAME]) == Some([])
  {
    hide DirectoryOf, Encode, Extract, ChainOf, Follow, WellFormed, OwnChain, Holed;
    var v, e := Holed(), NewFile(3, 1, 0, NOW, NAME);
    HoledListing();
    var es := DirectoryOf(v, 2);
    assert Parent([NAME]) == [] && Last([NAME]) == NAME;
    assert es == [es[0], e];
    HoleHides(es[0], e);
    ExtractNothing(v.blocks, [3]);
  }

  lemma HoleHides(hole: DirEntry, e: DirEntry)
    requires !hole.InUse() && e.InUse()
    ensures FindIn([hole, e], e.name) == Some(e) && FindIn(BeforeFree([hole, e]), e.name).None?
  {
    assert [hole, e][1..] == [e] && FirstUnused([hole, e]) == 0;
  }

  /** A file put under a name whose entry sits behind an unused slot hides that
      entry: the old file is no longer found. */
  lemma HoleLetsPutHide(clock: nat -> FsTime)
    ensures var (w, ok) := DiskPut(SB_WIDE, Holed(), [NAME], [7], clock);
            && ok && DiskGet(SB_WIDE, w, [NAME]) == Some([7])
            && DiskGet(SB_WIDE, Holed(), [NAME]) == Some([])
            && !Preserved(SB_WIDE, Holed(), w)
  {
    hide WellFormed, DiskPut, DiskGet, Preserved, TwinFirst, PathEntry, Span;
    var v := Holed();
    HoledIsWellFormed();
    HoledHides();
    assert multiset(v.fat)[FREE] == 2;
    HidingSucceeds(SB_WIDE, v, HOLED_LAYOUT, [NAME], [7], clock, 1);
    PutPreservesIff(SB_WIDE, v, HOLED_LAYOUT, [NAME], [7], clock, 1);
    PutThenGetIff(SB_WIDE, v, HOLED_LAYOUT, [NAME], [7], clock);
  }

  /** The empty file system has no holes, so from it no history hides anything. */
  lemma FreshHidesNothing()
    ensures Compact(Fresh(), FRESH_LAYOUT) && NoneHidden(SB, Fresh())
  {
    hide WellFormed, DirectoryOf, NoneHidden;
    FreshIsWellFormed();
    CompactHidesNothing(SB, Fresh(), FRESH_LAYOUT);
  }

  // ---------- an image ----------

  /** The superblock's fields, as they stand at byte 8 of an image. */
  function SuperBytes(sb: Superblock): (b: seq<byte>)
    ensures |b| == 22
  {
    Be16(sb.blockSize) + Be32(sb.blockCount) + Be32(sb.fatStart) + Be32(sb.fatBlocks)
    + Be32(sb.rootStart) + Be32(sb.rootBlocks)
  }

  /** 512 bytes: a superblock, and zeros. */
  function BlankImage(): (img: seq<byte>)
    ensures |img| == 512
  {
    Splice(Zeros(512), 8, SuperBytes(SB))
  }

  /** The same with three words of the table written. */
  function FreshImage(): (img: seq<byte>)
    ensures |img| == 512
  {
    var one := Splice(BlankImage(), TableOffset(SB, 0), Be32(RESERVED));
    var two := Splice(one, TableOffset(SB, 1), Be32(RESERVED));
    Splice(two, TableOffset(SB, 2), Be32(EOF))
  }

  lemma BlankSuperblock()
    ensures GeometryOk(SB, 512) && ParseSuperblock(BlankImage()) == Some(SB)
  {
    hide Be16, Be32, FromBe16, FromBe32, Zeros;
    var img, b := BlankImage(), SuperBytes(SB);
    assert img[8..30] == b;
    assert img[8..10] == b[0..2] && img[10..14] == b[2..6] && img[14..18] == b[6..10];
    assert img[18..22] == b[10..14] && img[22..26] == b[14..18] && img[26..30] == b[18..22];
    assert b[0..2] == Be16(BS) && b[2..6] == Be32(6) && b[6..10] == b[10..14] == Be32(1);
    assert b[14..18] == Be32(2) && b[18..22] == Be32(1);
    Be16RoundTrip(BS);
    Be32RoundTrip(6);
    Be32RoundTrip(1);
    Be32RoundTrip(2);
  }

  lemma BlankVolume()
    ensures GeometryOk(SB, 512)
    ensures VolumeOf(SB, BlankImage())
         == Vol([FREE, FREE, FREE, FREE, FREE, FREE], [[], [], Zeros(64), Zeros(64), Zeros(64), Zeros(64)])
  {
    hide ParseSuperblock, SuperBytes;
    BlankSuperblock();
    var img := BlankImage();
    assert img[64..] == Zeros(448);
    var v := VolumeOf(SB, img);
    forall i | 0 <= i < 6 ensures v.fat[i] == FREE {
      assert TableOffset(SB, i) == 64 + 4 * i;
      assert img[64 + 4 * i..68 + 4 * i] == Zeros(4);
    }
    forall b | 2 <= b < 6 ensures v.blocks[b] == Zeros(64) {
      SpanIsProduct(BS, b);
      assert img[b * 64..b * 64 + 64] == Zeros(64);
    }
  }

  /** The image holds the empty file system. */
  lemma FreshImageIsSound()
    ensures SoundImage(FreshImage(), SB, FRESH_LAYOUT) && VolumeOf(SB, FreshImage()) == Fresh()
  {
    hide ParseSuperblock, VolumeOf, WellFormed, BlankImage, Splice, Be32;
    BlankSuperblock();
    BlankVolume();
    var one := Splice(BlankImage(), TableOffset(SB, 0), Be32(RESERVED));
    var two := Splice(one, TableOffset(SB, 1), Be32(RESERVED));
    TableWriteEffect(SB, BlankImage(), 0, RESERVED);
    TableWriteEffect(SB, one, 1, RESERVED);
    TableWriteEffect(SB, two, 2, EOF);
    assert FreshImage() == Splice(two, TableOffset(SB, 2), Be32(EOF));
    assert VolumeOf(SB, FreshImage()).fat == VolumeOf(SB, BlankImage()).fat[0 := RESERVED][1 := RESERVED][2 := EOF];
    assert VolumeOf(SB, FreshImage()) == Fresh();
    FreshIsWellFormed();
  }
}
