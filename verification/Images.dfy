/** The disk image: a flat run of bytes holding superblock, allocation table and
    data blocks. `VolumeOf` reads it as a volume, and every byte-level write is
    shown to be one update of that volume. */
module Images {
  import opened Basics
  import opened Bytes
  import opened FatChain
  import opened DirEntries
  import opened Volumes

  const SUPERBLOCK_SIZE: nat := 512

  datatype Superblock = Superblock(blockSize: u16, blockCount: u32, fatStart: u32, fatBlocks: u32,
                                   rootStart: u32, rootBlocks: u32)

  function ParseSuperblock(img: seq<byte>): Option<Superblock> {
    if |img| < SUPERBLOCK_SIZE then None else
    Some(Superblock(FromBe16(img[8..10]), FromBe32(img[10..14]), FromBe32(img[14..18]),
                    FromBe32(img[18..22]), FromBe32(img[22..26]), FromBe32(img[26..30])))
  }

  /** The geometry the programs rely on and never check: `n` is the image size. */
  predicate GeometryOk(sb: Superblock, n: nat) {
    && sb.blockSize >= ENTRY_SIZE
    && sb.fatStart >= 1
    && sb.fatStart + sb.fatBlocks <= sb.blockCount
    && sb.blockCount * 4 <= Span(sb.blockSize, sb.fatBlocks)
    && Span(sb.blockSize, sb.blockCount) <= n
  }

  /** Blocks 0 and 1, whose numbers the table uses as markers, and the table itself. */
  predicate IsMeta(sb: Superblock, b: int) {
    b < 2 || sb.fatStart <= b < sb.fatStart + sb.fatBlocks
  }

  /** Block `b` ends where block `b + 1` starts, inside the image. */
  lemma BlockInside(sb: Superblock, n: nat, b: nat)
    requires GeometryOk(sb, n) && b < sb.blockCount
    ensures Span(sb.blockSize, b) + sb.blockSize == Span(sb.blockSize, b + 1) <= n
  {
    SpanMono(sb.blockSize, b + 1, sb.blockCount);
  }

  function TableOffset(sb: Superblock, i: nat): nat {
    Span(sb.blockSize, sb.fatStart) + i * 4
  }

  lemma TableInside(sb: Superblock, n: nat, i: nat)
    requires GeometryOk(sb, n) && i < sb.blockCount
    ensures sb.blockSize <= Span(sb.blockSize, sb.fatStart)
    ensures TableOffset(sb, i) + 4 <= Span(sb.blockSize, sb.fatStart + sb.fatBlocks) <= n
  {
    SpanMono(sb.blockSize, 1, sb.fatStart);
    SpanMono(sb.blockSize, sb.fatStart + sb.fatBlocks, sb.blockCount);
    SpanSum(sb.blockSize, sb.fatStart, sb.fatBlocks);
  }

  function TableWord(sb: Superblock, img: seq<byte>, i: nat): u32
    requires GeometryOk(sb, |img|) && i < sb.blockCount
  {
    TableInside(sb, |img|, i);
    FromBe32(img[TableOffset(sb, i)..TableOffset(sb, i) + 4])
  }

  /** The bytes of a data block; metadata blocks are not data and read as empty. */
  function DataBlock(sb: Superblock, img: seq<byte>, b: nat): (r: seq<byte>)
    requires GeometryOk(sb, |img|) && b < sb.blockCount
    ensures |r| == if IsMeta(sb, b) then 0 else sb.blockSize
  {
    BlockInside(sb, |img|, b);
    if IsMeta(sb, b) then [] else img[Span(sb.blockSize, b)..Span(sb.blockSize, b) + sb.blockSize]
  }

  function TableOf(sb: Superblock, img: seq<byte>): (fat: seq<u32>)
    requires GeometryOk(sb, |img|)
    ensures |fat| == sb.blockCount
  {
    seq(sb.blockCount, i requires 0 <= i < sb.blockCount => TableWord(sb, img, i))
  }

  function VolumeOf(sb: Superblock, img: seq<byte>): (v: Volume)
    requires GeometryOk(sb, |img|)
    ensures |v.fat| == sb.blockCount
  {
    Vol(TableOf(sb, img), seq(sb.blockCount, b requires 0 <= b < sb.blockCount => DataBlock(sb, img, b)))
  }

  /** Where the image keeps what: the superblock's six fields from byte 8 on, the
      table's words from block fatStart on, and block b at b times the block size. */
  lemma SuperblockBytes(img: seq<byte>)
    ensures ParseSuperblock(img).None? <==> |img| < 512
    ensures |img| >= 512 ==>
              var sb := ParseSuperblock(img).value;
              && sb.blockSize == Worth(img[8..10]) && sb.blockCount == Worth(img[10..14])
              && sb.fatStart == Worth(img[14..18]) && sb.fatBlocks == Worth(img[18..22])
              && sb.rootStart == Worth(img[22..26]) && sb.rootBlocks == Worth(img[26..30])
  {
    hide Worth, FromBe16, FromBe32;
    if |img| >= 512 {
      ReadsBigEndian(img[8..10]);
      ReadsBigEndian(img[10..14]);
      ReadsBigEndian(img[14..18]);
      ReadsBigEndian(img[18..22]);
      ReadsBigEndian(img[22..26]);
      ReadsBigEndian(img[26..30]);
    }
  }

  lemma VolumeBytes(sb: Superblock, img: seq<byte>, b: nat)
    requires GeometryOk(sb, |img|) && b < sb.blockCount
    ensures var at := sb.fatStart * sb.blockSize + 4 * b;
            at + 4 <= |img| && VolumeOf(sb, img).fat[b] == Worth(img[at..at + 4])
    ensures !(b < 2 || sb.fatStart <= b < sb.fatStart + sb.fatBlocks) ==>
              var at := b * sb.blockSize;
              at + sb.blockSize <= |img| && VolumeOf(sb, img).blocks[b] == img[at..at + sb.blockSize]
  {
    hide Worth, FromBe32;
    SpanIsProduct(sb.blockSize, sb.fatStart);
    SpanIsProduct(sb.blockSize, b);
    TableInside(sb, |img|, b);
    BlockInside(sb, |img|, b);
    var at := Span(sb.blockSize, sb.fatStart) + 4 * b;
    ReadsBigEndian(img[at..at + 4]);
  }

  /** A write inside a data block changes that block of the volume and nothing
      else: not the table, not another block, not the superblock. */
  lemma BlockWriteEffect(sb: Superblock, img: seq<byte>, b: nat, off: nat, data: seq<byte>)
    requires GeometryOk(sb, |img|) && b < sb.blockCount && !IsMeta(sb, b)
    requires off + |data| <= sb.blockSize
    ensures Span(sb.blockSize, b) + off + |data| <= |img|
    ensures var v := VolumeOf(sb, img);
            VolumeOf(sb, Splice(img, Span(sb.blockSize, b) + off, data))
            == v.(blocks := v.blocks[b := Splice(v.blocks[b], off, data)])
    ensures ParseSuperblock(Splice(img, Span(sb.blockSize, b) + off, data)) == ParseSuperblock(img)
  {
    hide Splice, DataBlock, TableOf, ParseSuperblock;
    BlockInside(sb, |img|, b);
    var at := Span(sb.blockSize, b) + off;
    var post := Splice(img, at, data);
    var v, w := VolumeOf(sb, img), VolumeOf(sb, post);
    BlockWriteMissesTable(sb, img, b, at, data);
    BlockWriteHits(sb, img, b, off, data);
    forall a: nat | a < sb.blockCount && a != b ensures w.blocks[a] == v.blocks[a] {
      BlockWriteMissesBlock(sb, img, b, at, data, a);
    }
    assert w.blocks == v.blocks[b := Splice(v.blocks[b], off, data)];
    SpanMono(sb.blockSize, 2, b);
    SuperblockSurvives(img, at, data);
  }

  lemma BlockWriteHits(sb: Superblock, img: seq<byte>, b: nat, off: nat, data: seq<byte>)
    requires GeometryOk(sb, |img|) && b < sb.blockCount && !IsMeta(sb, b)
    requires off + |data| <= sb.blockSize && Span(sb.blockSize, b) + sb.blockSize <= |img|
    ensures DataBlock(sb, Splice(img, Span(sb.blockSize, b) + off, data), b)
         == Splice(DataBlock(sb, img, b), off, data)
  {
    SpliceWithin(img, Span(sb.blockSize, b) + off, data, Span(sb.blockSize, b), Span(sb.blockSize, b) + sb.blockSize);
  }

  lemma BlockWriteMissesTable(sb: Superblock, img: seq<byte>, b: nat, at: nat, data: seq<byte>)
    requires GeometryOk(sb, |img|) && b < sb.blockCount && !IsMeta(sb, b)
    requires Span(sb.blockSize, b) <= at && at + |data| <= Span(sb.blockSize, b) + sb.blockSize <= |img|
    ensures TableOf(sb, Splice(img, at, data)) == TableOf(sb, img)
  {
    forall i: nat | i < sb.blockCount
      ensures TableWord(sb, Splice(img, at, data), i) == TableWord(sb, img, i)
    {
      TableInside(sb, |img|, i);
      BlockMissesTable(sb, |img|, b, i);
      SpliceElsewhere(img, at, data, TableOffset(sb, i), TableOffset(sb, i) + 4);
    }
  }

  lemma BlockWriteMissesBlock(sb: Superblock, img: seq<byte>, b: nat, at: nat, data: seq<byte>, a: nat)
    requires GeometryOk(sb, |img|) && b < sb.blockCount && a < sb.blockCount && a != b
    requires Span(sb.blockSize, b) <= at && at + |data| <= Span(sb.blockSize, b) + sb.blockSize <= |img|
    ensures DataBlock(sb, Splice(img, at, data), a) == DataBlock(sb, img, a)
  {
    if !IsMeta(sb, a) {
      BlockInside(sb, |img|, a);
      BlocksApart(sb.blockSize, a, b);
      SpliceElsewhere(img, at, data, Span(sb.blockSize, a), Span(sb.blockSize, a) + sb.blockSize);
    }
  }

  lemma BlocksApart(bs: nat, a: nat, b: nat)
    requires a != b
    ensures Span(bs, a) + bs <= Span(bs, b) || Span(bs, b) + bs <= Span(bs, a)
  {
    if a < b { SpanMono(bs, a + 1, b); } else { SpanMono(bs, b + 1, a); }
  }

  lemma BlockMissesTable(sb: Superblock, n: nat, b: nat, i: nat)
    requires GeometryOk(sb, n) && b < sb.blockCount && !IsMeta(sb, b) && i < sb.blockCount
    ensures Span(sb.blockSize, b) + sb.blockSize <= TableOffset(sb, i)
         || TableOffset(sb, i) + 4 <= Span(sb.blockSize, b)
  {
    TableInside(sb, n, i);
    if b < sb.fatStart {
      SpanMono(sb.blockSize, b + 1, sb.fatStart);
    } else {
      SpanMono(sb.blockSize, sb.fatStart + sb.fatBlocks, b);
    }
  }

  lemma SuperblockSurvives(img: seq<byte>, at: nat, data: seq<byte>)
    requires 30 <= at && at + |data| <= |img|
    ensures ParseSuperblock(Splice(img, at, data)) == ParseSuperblock(img)
  {
    if |img| >= SUPERBLOCK_SIZE {
      SpliceElsewhere(img, at, data, 8, 10);
      SpliceElsewhere(img, at, data, 10, 14);
      SpliceElsewhere(img, at, data, 14, 18);
      SpliceElsewhere(img, at, data, 18, 22);
      SpliceElsewhere(img, at, data, 22, 26);
      SpliceElsewhere(img, at, data, 26, 30);
    }
  }

  /** Writing one big-endian word of the table changes that entry and nothing else. */
  lemma TableWriteEffect(sb: Superblock, img: seq<byte>, i: nat, val: u32)
    requires GeometryOk(sb, |img|) && i < sb.blockCount
    ensures TableOffset(sb, i) + 4 <= |img|
    ensures var v := VolumeOf(sb, img);
            VolumeOf(sb, Splice(img, TableOffset(sb, i), Be32(val))) == v.(fat := v.fat[i := val])
    ensures ParseSuperblock(Splice(img, TableOffset(sb, i), Be32(val))) == ParseSuperblock(img)
  {
    TableInside(sb, |img|, i);
    var at := TableOffset(sb, i);
    var post := Splice(img, at, Be32(val));
    var v, w := VolumeOf(sb, img), VolumeOf(sb, post);
    Be32RoundTrip(val);
    forall k: nat | k < sb.blockCount && k != i ensures w.fat[k] == v.fat[k] {
      TableInside(sb, |img|, k);
      SpliceElsewhere(img, at, Be32(val), TableOffset(sb, k), TableOffset(sb, k) + 4);
    }
    assert w.fat == v.fat[i := val];
    forall b: nat | b < sb.blockCount ensures w.blocks[b] == v.blocks[b] {
      if !IsMeta(sb, b) {
        BlockInside(sb, |img|, b);
        BlockMissesTable(sb, |img|, b, i);
        SpliceElsewhere(img, at, Be32(val), Span(sb.blockSize, b), Span(sb.blockSize, b) + sb.blockSize);
      }
    }
    assert w.blocks == v.blocks;
    SuperblockSurvives(img, at, Be32(val));
  }
}
