/** diskput and diskget from raw image bytes and raw path strings to raw results. */
module Programs {
  import opened Basics
  import opened Bytes
  import opened FatChain
  import opened DirEntries
  import opened Volumes
  import opened Images
  import opened Layouts
  import opened Files
  import opened PutGet
  import opened Disks
  import opened Paths

  /** The image's own superblock describes it correctly and its volume is well formed. */
  ghost predicate SoundImage(img: seq<byte>, sb: Superblock, lay: Layout) {
    && ParseSuperblock(img) == Some(sb)
    && GeometryOk(sb, |img|)
    && WellFormed(sb, VolumeOf(sb, img), lay)
  }

  function PathOf(s: seq<byte>): Path {
    Split(s, [], MAX_PATH_COMPONENTS)
  }

  /** Of a destination, the first 32 components count. */
  lemma PathOfIsCut(s: seq<byte>, n: nat)
    requires n >= 32
    ensures PathOf(s) == Split(s, [], n)[..Min(32, |Split(s, [], n)|)]
  {
    SplitIsCut(s, [], 32, n);
  }

  /** Read the table word by word; it fails exactly when the image ends before the table does. */
  method ReadFat(img: seq<byte>, sb: Superblock) returns (ok: bool, fat: array<u32>)
    ensures fresh(fat) && fat.Length == sb.blockCount
    ensures ok <==> sb.blockCount == 0 || sb.fatStart * sb.blockSize + sb.blockCount * 4 <= |img|
    ensures ok && GeometryOk(sb, |img|) ==> fat[..] == TableOf(sb, img)
  {
    fat := new u32[sb.blockCount];
    var offset := sb.fatStart * sb.blockSize;
    SpanIsProduct(sb.blockSize, sb.fatStart);
    ok := true;
    var i := 0;
    while i < sb.blockCount && ok
      invariant 0 <= i <= sb.blockCount
      invariant ok ==> i == 0 || offset + i * 4 <= |img|
      invariant !ok ==> i > 0 && offset + i * 4 > |img|
      invariant ok ==> forall k | 0 <= k < i ::
        offset + k * 4 + 4 <= |img| && fat[k] == FromBe32(img[offset + k * 4..offset + k * 4 + 4])
    {
      if offset + i * 4 + 4 > |img| {
        ok := false;
      } else {
        fat[i] := FromBe32(img[offset + i * 4..offset + i * 4 + 4]);
      }
      i := i + 1;
    }
  }

  /** The image opens: it has a superblock, and does not end before its table does. */
  predicate Opens(img: seq<byte>) {
    match ParseSuperblock(img)
    case Some(sb) => sb.blockCount == 0 || sb.fatStart * sb.blockSize + sb.blockCount * 4 <= |img|
    case None => false
  }

  /** fs_open: nothing for an image that does not open. */
  method FsOpen(img: seq<byte>, ghost sb: Superblock, ghost lay: Layout) returns (disk: Option<Disk>)
    requires Opens(img) ==> SoundImage(img, sb, lay)
    ensures disk.Some? <==> Opens(img)
    ensures disk.Some? ==>
              && fresh(disk.value) && fresh(disk.value.fat)
              && disk.value.Coherent() && disk.value.sb == sb && disk.value.img == img
  {
    hide WellFormed;
    disk := None;
    var super := ParseSuperblock(img);
    if super.Some? {
      var ok, fat := ReadFat(img, super.value);
      if ok {
        var d := new Disk(img, super.value, fat);
        disk := Some(d);
      }
    }
  }

  lemma SoundOpens(img: seq<byte>, sb: Superblock, lay: Layout)
    requires SoundImage(img, sb, lay)
    ensures Opens(img)
  {
    hide WellFormed;
    TableFits(sb, |img|);
  }

  lemma TableFits(sb: Superblock, n: nat)
    requires GeometryOk(sb, n)
    ensures sb.fatStart * sb.blockSize + sb.blockCount * 4 <= n
  {
    SpanIsProduct(sb.blockSize, sb.fatStart);
    SpanSum(sb.blockSize, sb.fatStart, sb.fatBlocks);
    SpanMono(sb.blockSize, sb.fatStart + sb.fatBlocks, sb.blockCount);
  }

  /** diskput: a new image and a result code. An image that does not open is left alone. */
  method DiskPutMain(img: seq<byte>, dest: seq<byte>, data: seq<byte>, clock: nat -> FsTime,
                     ghost sb: Superblock, ghost lay: Layout)
    returns (post: seq<byte>, rc: bool, ghost newLay: Layout)
    requires Opens(img) ==> SoundImage(img, sb, lay)
    ensures !Opens(img) ==> post == img && !rc
    ensures Opens(img) ==> SoundImage(post, sb, newLay) && sb.blockSize >= ENTRY_SIZE
    ensures Opens(img) ==> (VolumeOf(sb, post), rc) == DiskPut(sb, VolumeOf(sb, img), PathOf(dest), data, clock)
  {
    hide WellFormed, DiskPut, Compact;
    post, rc, newLay := img, false, lay;
    var disk := FsOpen(img, sb, lay);
    if disk.Some? {
      var comps := SplitPath(dest, MAX_PATH_COMPONENTS);
      rc := disk.value.Put(comps, data, clock, lay);
      post := disk.value.img;
      newLay := PutKeepsWellFormed(sb, VolumeOf(sb, img), lay, comps, data, clock);
    }
  }

  /** diskget: the bytes of the named file, if the image opens and there is one. */
  method DiskGetMain(img: seq<byte>, src: seq<byte>, ghost sb: Superblock, ghost lay: Layout)
    returns (out: Option<seq<byte>>)
    requires Opens(img) ==> SoundImage(img, sb, lay)
    ensures out == if Opens(img) then DiskGet(sb, VolumeOf(sb, img), PathOf(src)) else None
  {
    hide WellFormed, DiskGet;
    out := None;
    var disk := FsOpen(img, sb, lay);
    if disk.Some? {
      var comps := SplitPath(src, MAX_PATH_COMPONENTS);
      out := disk.value.Get(comps, lay);
    }
  }

  /** The two programs in sequence, over the image's bytes: what was put is what
      is got exactly when no entry of that name comes first and the length does not
      wrap, or when the entry that comes first already held these bytes. */
  method PutThenGet(img: seq<byte>, path: seq<byte>, data: seq<byte>, clock: nat -> FsTime,
                    ghost sb: Superblock, ghost lay: Layout)
    returns (rc: bool, got: Option<seq<byte>>)
    requires Opens(img) ==> SoundImage(img, sb, lay)
    ensures rc ==> Opens(img) && PathOf(path) != []
    ensures rc ==> (got == Some(data)
                    <==> if TwinFirst(sb, VolumeOf(sb, img), PathOf(path))
                         then DiskGet(sb, VolumeOf(sb, img), PathOf(path)) == Some(data)
                         else |data| + sb.blockSize - 1 < 0x1_0000_0000)
  {
    hide WellFormed, DiskGet, DiskPut, TwinFirst;
    var post;
    ghost var newLay;
    post, rc, newLay := DiskPutMain(img, path, data, clock, sb, lay);
    if Opens(img) {
      SoundOpens(post, sb, newLay);
    }
    got := DiskGetMain(post, path, sb, newLay);
    if Opens(img) {
      if PathOf(path) == [] {
        NoPathNoPut(sb, VolumeOf(sb, img), data, clock);
      } else {
        PutThenGetIff(sb, VolumeOf(sb, img), lay, PathOf(path), data, clock);
      }
    }
  }

  lemma NoPathNoPut(sb: Superblock, v: Volume, data: seq<byte>, clock: nat -> FsTime)
    requires sb.blockSize >= ENTRY_SIZE
    ensures DiskPut(sb, v, [], data, clock) == (v, false)
  {
  }
}
