/** diskinfo's block accounts, and how the mutating operations move them. */
module Accounts {
  import opened Basics
  import opened Bytes
  import opened FatChain
  import opened DirEntries
  import opened Volumes
  import opened Images
  import opened Layouts
  import opened Files
  import opened Operations

  /** The table entries equal to `mark`. */
  function Tally(v: Volume, mark: u32): nat {
    multiset(v.fat)[mark]
  }

  /** count_fat: one pass sorts every entry into exactly one of three counts. */
  method CountFat(fat: array<u32>) returns (free: nat, reserved: nat, taken: nat)
    ensures free == multiset(fat[..])[FREE]
    ensures reserved == multiset(fat[..])[RESERVED]
    ensures free + reserved + taken == fat.Length
  {
    free, reserved, taken := 0, 0, 0;
    for i := 0 to fat.Length
      invariant free == multiset(fat[..i])[FREE]
      invariant reserved == multiset(fat[..i])[RESERVED]
      invariant free + reserved + taken == i
    {
      assert fat[..i + 1] == fat[..i] + [fat[i]];
      if fat[i] == FREE {
        free := free + 1;
      } else if fat[i] == RESERVED {
        reserved := reserved + 1;
      } else {
        taken := taken + 1;
      }
    }
    assert fat[..fat.Length] == fat[..];
  }

  /** Whether the next entry makes directory `d` grow by a block. */
  predicate IsFull(v: Volume, d: u32) {
    FirstUnused(DirectoryOf(v, d)) == |DirectoryOf(v, d)|
  }

  function Growth(v: Volume, d: u32): nat {
    if IsFull(v, d) then 1 else 0
  }

  /** Entering takes a free block only from a full directory, and fails only for want of one. */
  lemma AddEntryTally(sb: Superblock, v: Volume, lay: Layout, d: u32, e: DirEntry)
    requires WellFormed(sb, v, lay) && IsDirectory(lay, d)
    ensures sb.blockSize >= ENTRY_SIZE
    ensures var (w, ok) := AddEntry(sb.blockSize, v, d, e);
            && (ok <==> Tally(v, FREE) >= Growth(v, d))
            && (ok ==> Tally(w, FREE) == Tally(v, FREE) - Growth(v, d))
            && (!ok ==> w == v)
            && Tally(w, RESERVED) == Tally(v, RESERVED)
  {
    BlockSizeOk(sb, v, lay);
    DirectoryChain(sb, v, lay, d);
    FreeSlotNone(v.blocks, ChainOf(v, d));
    OneFreeBlock(v.fat);
    if FreeSlot(v.blocks, ChainOf(v, d)).None? && |FreeBlocks(v.fat, 0, 1)| == 1 {
      var b := FreeBlocks(v.fat, 0, 1)[0];
      AppendTally(sb, v, lay[d].chain, d, b);
    }
  }

  lemma AppendTally(sb: Superblock, v: Volume, a: seq<nat>, d: u32, b: nat)
    requires OwnChain(sb, v, d, a) && MetaTaken(sb, v) && b < |v.fat| && v.fat[b] == FREE
    ensures var w := Append(sb.blockSize, v, a[|a| - 1], b);
            && Tally(w, FREE) == Tally(v, FREE) - 1
            && Tally(w, RESERVED) == Tally(v, RESERVED)
  {
    var last := a[|a| - 1];
    assert !IsMeta(sb, b);
    UpdateTally(v.fat, last, b);
    UpdateTally(v.fat[last := b], b, EOF);
  }

  lemma StoreTally(sb: Superblock, v: Volume, c: seq<nat>, data: seq<byte>)
    requires MetaTaken(sb, v) && AllFree(v, c) && Distinct(c)
    ensures var w := Store(sb.blockSize, v, c, data);
            && Tally(w, FREE) == Tally(v, FREE) - |c|
            && Tally(w, RESERVED) == Tally(v, RESERVED)
  {
    forall i | 0 <= i < |c| ensures !IsMeta(sb, c[i]) {
      assert v.fat[c[i]] == FREE;
    }
    LinkTally(v.fat, c);
  }

  lemma StoreKeepsGrowth(sb: Superblock, v: Volume, lay: Layout, c: seq<nat>, data: seq<byte>, d: u32)
    requires WellFormed(sb, v, lay) && IsDirectory(lay, d)
    requires |c| > 0 && Distinct(c) && AllFree(v, c)
    ensures Growth(Store(sb.blockSize, v, c, data), d) == Growth(v, d)
    ensures WellFormed(sb, Store(sb.blockSize, v, c, data), lay)
  {
    StoreKeeps(sb, v, lay, c, data);
    assert Intact(v, Store(sb.blockSize, v, c, data), d);
  }

  /** What is left of `free` blocks after an attempt to take `need` of them at once. */
  function Left(free: nat, need: nat): nat {
    if free >= need then free - need else free
  }

  /** A put succeeds exactly when the blocks the file needs, and one more for a full
      directory, are free; it then moves exactly that many blocks from free to
      allocated. When only the directory's block is missing, the file's blocks stay
      taken. The reserved count never changes. */
  lemma PutFileAccounts(sb: Superblock, v: Volume, lay: Layout, d: u32, name: Name, data: seq<byte>,
                        size: u32, now: FsTime, need: nat)
    requires WellFormed(sb, v, lay) && IsDirectory(lay, d) && size <= |data|
    requires Reserves(sb.blockSize, size, need)
    ensures sb.blockSize >= ENTRY_SIZE
    ensures var (w, ok) := PutFile(sb.blockSize, v, d, name, data, size, now);
            var taken := need + Growth(v, d);
            && (ok <==> Tally(v, FREE) >= taken)
            && (ok ==> Tally(w, FREE) == Tally(v, FREE) - taken)
            && (!ok ==> Tally(w, FREE) == Left(Tally(v, FREE), need))
            && Tally(w, RESERVED) == Tally(v, RESERVED)
  {
    hide WellFormed, IsFull, Reserves, Need;
    BlockSizeOk(sb, v, lay);
    NeedReserves(sb.blockSize, size);
    ReservesOnce(sb.blockSize, size, need, Need(sb.blockSize, size));
    var f := FreeBlocks(v.fat, 0, need);
    FreeBlocksComplete(v.fat, 0, need);
    assert v.fat[0..] == v.fat;
    if |f| == need {
      var e := NewFile(f[0], need, size, now, name);
      StoreAndEnterTally(sb, v, lay, d, e, f, data[..size]);
    }
  }

  lemma StoreAndEnterTally(sb: Superblock, v: Volume, lay: Layout, d: u32, e: DirEntry, c: seq<nat>, data: seq<byte>)
    requires WellFormed(sb, v, lay) && IsDirectory(lay, d)
    requires |c| > 0 && Distinct(c) && AllFree(v, c)
    ensures sb.blockSize >= ENTRY_SIZE
    ensures var (w, ok) := AddEntry(sb.blockSize, Store(sb.blockSize, v, c, data), d, e);
            && (ok <==> Tally(v, FREE) >= |c| + Growth(v, d))
            && (ok ==> Tally(w, FREE) == Tally(v, FREE) - |c| - Growth(v, d))
            && (!ok ==> Tally(w, FREE) == Tally(v, FREE) - |c|)
            && Tally(w, RESERVED) == Tally(v, RESERVED)
  {
    hide IsFull, WellFormed;
    assert MetaTaken(sb, v) by { MetaIsTaken(sb, v, lay); }
    StoreKeepsGrowth(sb, v, lay, c, data, d);
    StoreTally(sb, v, c, data);
    AddEntryTally(sb, Store(sb.blockSize, v, c, data), lay, d, e);
  }

  /** Creating a directory takes one block, plus one when its parent is full. It
      fails only when that leaves no block free at all. */
  lemma CreateDirAccounts(sb: Superblock, v: Volume, lay: Layout, parent: u32, name: Name, now: FsTime)
    requires WellFormed(sb, v, lay) && IsDirectory(lay, parent)
    ensures sb.blockSize >= ENTRY_SIZE
    ensures var (w, r) := CreateDir(sb.blockSize, v, parent, name, now);
            && (r.Some? <==> Tally(v, FREE) >= 1 + Growth(v, parent))
            && (r.Some? ==> Tally(w, FREE) == Tally(v, FREE) - 1 - Growth(v, parent))
            && (r.None? ==> Tally(w, FREE) == 0)
            && Tally(w, RESERVED) == Tally(v, RESERVED)
  {
    hide WellFormed, IsFull;
    BlockSizeOk(sb, v, lay);
    var f := FreeBlocks(v.fat, 0, 1);
    FreeBlocksComplete(v.fat, 0, 1);
    assert v.fat[0..] == v.fat;
    if |f| == 1 {
      StoreAndEnterTally(sb, v, lay, parent, NewDir(f[0], now, name), f, []);
    }
  }
}
