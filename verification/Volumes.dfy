/** What the file-system operations compute, as functions of a volume: the
    allocation table together with the data blocks. */
module Volumes {
  import opened Basics
  import opened Bytes
  import opened FatChain
  import opened DirEntries

  datatype Tables = Vol(fat: seq<u32>, blocks: seq<seq<byte>>)

  type Volume = v: Tables | |v.fat| == |v.blocks| && |v.fat| <= EOF
    witness Vol([], [])

  predicate InTable(c: seq<nat>, n: nat) {
    forall i | 0 <= i < |c| :: c[i] < n
  }

  // ---------- reading ----------

  function ChainOf(v: Volume, start: u32): (c: seq<nat>)
    ensures InTable(c, |v.fat|)
  {
    Follow(v.fat, start, |v.fat|)
  }

  /** The entries held by the blocks of `c`, in chain order. */
  function Entries(blocks: seq<seq<byte>>, c: seq<nat>): seq<DirEntry>
    requires InTable(c, |blocks|)
  {
    if c == [] then [] else BlockEntries(blocks[c[0]]) + Entries(blocks, c[1..])
  }

  function DirectoryOf(v: Volume, d: u32): seq<DirEntry> {
    Entries(v.blocks, ChainOf(v, d))
  }

  function Lookup(v: Volume, d: u32, name: Name): Option<DirEntry> {
    FindIn(DirectoryOf(v, d), name)
  }

  /** The directory reached from `d` through the named subdirectories. */
  function Resolve(v: Volume, d: u32, comps: seq<Name>): Option<u32>
    decreases |comps|
  {
    if comps == [] then Some(d) else
    match Lookup(v, d, comps[0])
    case Some(e) => if e.IsDir() then Resolve(v, e.start, comps[1..]) else None
    case None => None
  }

  /** The first `size` bytes stored in the blocks of `c`. */
  function Extract(blocks: seq<seq<byte>>, c: seq<nat>, size: nat): seq<byte>
    requires InTable(c, |blocks|)
    decreases |c|
  {
    if c == [] then [] else
    var chunk := Min(|blocks[c[0]]|, size);
    blocks[c[0]][..chunk] + Extract(blocks, c[1..], size - chunk)
  }

  function FileBytes(v: Volume, start: u32, size: nat): seq<byte> {
    Extract(v.blocks, ChainOf(v, start), size)
  }

  // ---------- writing ----------

  /** The blocks after `data` has been spread over the blocks of `c`, each padded
      with zeros to `bs` bytes; data that does not fit is dropped. */
  function Fill(bs: nat, blocks: seq<seq<byte>>, c: seq<nat>, data: seq<byte>): (r: seq<seq<byte>>)
    requires InTable(c, |blocks|)
    ensures |r| == |blocks|
    decreases |c|
  {
    if c == [] then blocks else
    var chunk := Min(bs, |data|);
    Fill(bs, blocks[c[0] := data[..chunk] + Zeros(bs - chunk)], c[1..], data[chunk..])
  }

  /** The volume after the free blocks `c` have been linked and filled with `data`. */
  function Store(bs: nat, v: Volume, c: seq<nat>, data: seq<byte>): Volume
    requires InTable(c, |v.fat|)
  {
    Vol(Link(v.fat, c), Fill(bs, v.blocks, c, data))
  }

  datatype Loc = Loc(block: nat, index: nat)

  predicate HasSlot(blocks: seq<seq<byte>>, l: Loc) {
    l.block < |blocks| && l.index < |blocks[l.block]| / ENTRY_SIZE
  }

  /** Where the first unused entry of the blocks of `c` lives. */
  function FreeSlot(blocks: seq<seq<byte>>, c: seq<nat>): (r: Option<Loc>)
    requires InTable(c, |blocks|)
    ensures r.Some? ==> HasSlot(blocks, r.value)
  {
    if c == [] then None else
    var es := BlockEntries(blocks[c[0]]);
    if FirstUnused(es) < |es| then Some(Loc(c[0], FirstUnused(es))) else FreeSlot(blocks, c[1..])
  }

  /** The volume after block `b` has been zeroed and appended to a chain ending in `last`. */
  function Append(bs: nat, v: Volume, last: nat, b: nat): Volume
    requires last < |v.fat| && b < |v.fat|
  {
    Vol(v.fat[last := b][b := EOF], v.blocks[b := Zeros(bs)])
  }

  /** An unused slot of directory `d`, lengthening the directory when it is full. */
  function GetSlot(bs: nat, v: Volume, d: u32): (r: Option<(Volume, Loc)>)
    requires bs >= ENTRY_SIZE
    ensures r.Some? ==> |r.value.0.fat| == |v.fat| && HasSlot(r.value.0.blocks, r.value.1)
  {
    var c := ChainOf(v, d);
    var f := FreeBlocks(v.fat, 0, 1);
    match FreeSlot(v.blocks, c)
    case Some(l) => Some((v, l))
    case None =>
      if |f| == 1 && c != [] then Some((Append(bs, v, c[|c| - 1], f[0]), Loc(f[0], 0))) else None
  }

  function WriteEntry(v: Volume, l: Loc, e: DirEntry): (r: Volume)
    requires HasSlot(v.blocks, l)
    ensures |r.fat| == |v.fat|
  {
    v.(blocks := v.blocks[l.block := Splice(v.blocks[l.block], l.index * ENTRY_SIZE, Encode(e))])
  }

  /** Enter `e` in directory `d`; false when the directory is full and cannot grow. */
  function AddEntry(bs: nat, v: Volume, d: u32, e: DirEntry): (r: (Volume, bool))
    requires bs >= ENTRY_SIZE
    ensures |r.0.fat| == |v.fat|
  {
    match GetSlot(bs, v, d)
    case None => (v, false)
    case Some(slot) => (WriteEntry(slot.0, slot.1, e), true)
  }

  function CreateDir(bs: nat, v: Volume, parent: u32, name: Name, now: FsTime): (r: (Volume, Option<u32>))
    requires bs >= ENTRY_SIZE
    ensures |r.0.fat| == |v.fat|
  {
    var f := FreeBlocks(v.fat, 0, 1);
    if |f| < 1 then (v, None) else
    var (w, ok) := AddEntry(bs, Store(bs, v, f, []), parent, NewDir(f[0], now, name));
    (w, if ok then Some(f[0]) else None)
  }

  function NewDir(start: u32, now: FsTime, name: Name): (e: DirEntry)
    ensures e.InUse() && e.IsDir() && !e.IsFile()
  {
    DirEntry(STATUS_IN_USE + STATUS_DIR, start, 1, 0, now, now, name)
  }

  /** Walk down `comps` from `d`, creating what is missing; `clock(i)` is the time
      read when component `i` is created. */
  function ResolveOrCreate(bs: nat, v: Volume, d: u32, comps: seq<Name>, clock: nat -> FsTime, i: nat)
    : (r: (Volume, Option<u32>))
    requires bs >= ENTRY_SIZE
    ensures |r.0.fat| == |v.fat|
    decreases |comps|
  {
    if comps == [] then (v, Some(d)) else
    match Lookup(v, d, comps[0])
    case Some(e) =>
      if e.IsDir() then ResolveOrCreate(bs, v, e.start, comps[1..], clock, i + 1) else (v, None)
    case None =>
      var (w, s) := CreateDir(bs, v, d, comps[0], clock(i));
      if s.Some? then ResolveOrCreate(bs, w, s.value, comps[1..], clock, i + 1) else (w, None)
  }

  /** Blocks reserved for `size` bytes; the sum wraps around like the program's
      32-bit arithmetic does, and an empty file still takes one block. */
  function Need(bs: nat, size: u32): (n: u32)
    requires bs > 0
    ensures n >= 1
  {
    var n := (size as int + bs - 1) % 0x1_0000_0000 / bs;
    if n == 0 then 1 else n
  }

  /** `n` blocks of `bs` bytes are what a file of `size` bytes is given: as many as
      it takes and no more, and one for an empty file; a size so large that rounding
      it up overflows 32 bits gets one, too. */
  predicate Reserves(bs: nat, size: u32, n: nat) {
    if size + bs - 1 < 0x1_0000_0000 then n >= 1 && size <= n * bs && (n == 1 || (n - 1) * bs < size)
    else n == 1
  }

  lemma NeedReserves(bs: u16, size: u32)
    requires bs > 0
    ensures Reserves(bs, size, Need(bs, size))
  {
    var sum := size as int + bs - 1;
    if sum < 0x1_0000_0000 {
      RoundsUp(bs, size, sum / bs);
    } else {
      assert sum % 0x1_0000_0000 == sum - 0x1_0000_0000;
      assert (sum - 0x1_0000_0000) / bs == 0;
    }
  }

  lemma RoundsUp(bs: nat, size: nat, n: nat)
    requires bs > 0 && n == (size + bs - 1) / bs
    ensures size <= n * bs && (n > 0 ==> (n - 1) * bs < size) && (n == 0 <==> size == 0)
  {
    assert n * bs + (size + bs - 1) % bs == size + bs - 1;
    assert (n - 1) * bs == n * bs - bs;
  }

  lemma ReservesOnce(bs: nat, size: u32, m: nat, n: nat)
    requires Reserves(bs, size, m) && Reserves(bs, size, n)
    ensures m == n
  {
    if m < n {
      ProductMono(bs, m, n - 1);
    } else if n < m {
      ProductMono(bs, n, m - 1);
    }
  }

  lemma ProductMono(bs: nat, m: nat, n: nat)
    requires m <= n
    ensures m * bs <= n * bs
  {
  }

  function NewFile(start: u32, need: u32, size: u32, now: FsTime, name: Name): (e: DirEntry)
    ensures e.InUse() && e.IsFile() && !e.IsDir()
  {
    DirEntry(STATUS_IN_USE + STATUS_FILE, start, need, size, now, now, name)
  }

  function PutFile(bs: nat, v: Volume, d: u32, name: Name, data: seq<byte>, size: u32, now: FsTime)
    : (r: (Volume, bool))
    requires bs >= ENTRY_SIZE && size <= |data|
    ensures |r.0.fat| == |v.fat|
  {
    var need := Need(bs, size);
    var f := FreeBlocks(v.fat, 0, need);
    if |f| < need then (v, false)
    else AddEntry(bs, Store(bs, v, f, data[..size]), d, NewFile(f[0], need, size, now, name))
  }

  // ---------- facts about contents ----------

  lemma {:induction false} EntriesConcat(blocks: seq<seq<byte>>, a: seq<nat>, b: seq<nat>)
    requires InTable(a, |blocks|) && InTable(b, |blocks|)
    ensures Entries(blocks, a + b) == Entries(blocks, a) + Entries(blocks, b)
    decreases |a|
  {
    if a == [] {
      assert a + b == b;
    } else {
      assert (a + b)[1..] == a[1..] + b;
      EntriesConcat(blocks, a[1..], b);
    }
  }

  /** Contents depend only on the blocks of the chain. */
  lemma {:induction false} SameBlocksSameEntries(p: seq<seq<byte>>, q: seq<seq<byte>>, c: seq<nat>)
    requires |p| == |q| && InTable(c, |p|)
    requires forall i | 0 <= i < |c| :: p[c[i]] == q[c[i]]
    ensures Entries(p, c) == Entries(q, c)
    decreases |c|
  {
    if c != [] {
      forall i | 0 <= i < |c| - 1 ensures p[c[1..][i]] == q[c[1..][i]] {
        assert c[1..][i] == c[i + 1];
      }
      SameBlocksSameEntries(p, q, c[1..]);
    }
  }

  lemma {:induction false} SameBlocksSameBytes(p: seq<seq<byte>>, q: seq<seq<byte>>, c: seq<nat>, size: nat)
    requires |p| == |q| && InTable(c, |p|)
    requires forall i | 0 <= i < |c| :: p[c[i]] == q[c[i]]
    ensures Extract(p, c, size) == Extract(q, c, size)
    decreases |c|
  {
    if c != [] {
      forall i | 0 <= i < |c| - 1 ensures p[c[1..][i]] == q[c[1..][i]] {
        assert c[1..][i] == c[i + 1];
      }
      SameBlocksSameBytes(p, q, c[1..], size - Min(|p[c[0]]|, size));
    }
  }

  lemma {:induction false} FillElsewhere(bs: nat, blocks: seq<seq<byte>>, c: seq<nat>, data: seq<byte>, b: nat)
    requires InTable(c, |blocks|) && b < |blocks| && b !in c
    ensures Fill(bs, blocks, c, data)[b] == blocks[b]
    decreases |c|
  {
    if c != [] {
      var chunk := Min(bs, |data|);
      FillElsewhere(bs, blocks[c[0] := data[..chunk] + Zeros(bs - chunk)], c[1..], data[chunk..], b);
    }
  }

  /** Every filled block has exactly `bs` bytes. */
  lemma {:induction false} FillSizes(bs: nat, blocks: seq<seq<byte>>, c: seq<nat>, data: seq<byte>)
    requires InTable(c, |blocks|)
    ensures forall b | 0 <= b < |blocks| && (b in c || |blocks[b]| == bs) :: |Fill(bs, blocks, c, data)[b]| == bs
    decreases |c|
  {
    if c != [] {
      var chunk := Min(bs, |data|);
      FillSizes(bs, blocks[c[0] := data[..chunk] + Zeros(bs - chunk)], c[1..], data[chunk..]);
    }
  }

  lemma TakeInTwo(data: seq<byte>, m: nat, n: nat)
    requires m + n <= |data|
    ensures data[..m] + data[m..][..n] == data[..m + n]
  {
  }

  /** Reading a filled chain returns the data, cut to what the chain can hold. */
  lemma {:induction false} ExtractAfterFill(bs: nat, blocks: seq<seq<byte>>, c: seq<nat>, data: seq<byte>)
    requires InTable(c, |blocks|) && Distinct(c)
    ensures Extract(Fill(bs, blocks, c, data), c, |data|) == data[..Min(|data|, Span(bs, |c|))]
    decreases |c|
  {
    if c != [] {
      FirstBlockExtract(bs, blocks, c, data);
      var chunk := Min(bs, |data|);
      var next := blocks[c[0] := data[..chunk] + Zeros(bs - chunk)];
      ExtractAfterFill(bs, next, c[1..], data[chunk..]);
      TakeInTwo(data, chunk, Min(|data| - chunk, Span(bs, |c| - 1)));
    }
  }

  lemma FirstBlockExtract(bs: nat, blocks: seq<seq<byte>>, c: seq<nat>, data: seq<byte>)
    requires InTable(c, |blocks|) && Distinct(c) && c != []
    ensures var chunk := Min(bs, |data|);
            var next := blocks[c[0] := data[..chunk] + Zeros(bs - chunk)];
            && Extract(Fill(bs, blocks, c, data), c, |data|)
            == data[..chunk] + Extract(Fill(bs, next, c[1..], data[chunk..]), c[1..], |data[chunk..]|)
  {
    var chunk := Min(bs, |data|);
    var next := blocks[c[0] := data[..chunk] + Zeros(bs - chunk)];
    var p := Fill(bs, next, c[1..], data[chunk..]);
    FillElsewhere(bs, next, c[1..], data[chunk..], c[0]);
    assert p[c[0]] == data[..chunk] + Zeros(bs - chunk);
    if bs > |data| {
      assert data[chunk..] == [] && p[c[0]][..chunk] == data[..chunk];
      ExtractNothing(p, c[1..]);
    }
  }

  lemma {:induction false} ExtractNothing(blocks: seq<seq<byte>>, c: seq<nat>)
    requires InTable(c, |blocks|)
    ensures Extract(blocks, c, 0) == []
    decreases |c|
  {
    if c != [] {
      ExtractNothing(blocks, c[1..]);
    }
  }

  /** A zeroed block filled with no data holds no entry in use. */
  lemma FreshBlockIsEmpty(bs: nat, blocks: seq<seq<byte>>, b: nat)
    requires b < |blocks|
    ensures var p := Fill(bs, blocks, [b], []);
            forall i | 0 <= i < |Entries(p, [b])| :: !Entries(p, [b])[i].InUse()
  {
    var p := Fill(bs, blocks, [b], []);
    var none: seq<byte> := [];
    var next := blocks[b := none[..0] + Zeros(bs - 0)];
    assert [b][1..] == [];
    assert p == Fill(bs, next, [b][1..], none[0..]) == next;
    assert p[b] == Zeros(bs);
    assert Entries(p, [b]) == BlockEntries(p[b]);
    ZeroBlockEntries(bs);
  }

  /** What a filled block holds: its share of the data, and zeros after the data's end. */
  lemma {:induction false} FilledBlock(bs: nat, blocks: seq<seq<byte>>, c: seq<nat>, data: seq<byte>, k: nat)
    requires InTable(c, |blocks|) && Distinct(c) && k < |c|
    ensures var b := Fill(bs, blocks, c, data)[c[k]];
            && |b| == bs
            && forall j | 0 <= j < bs :: b[j] == if Span(bs, k) + j < |data| then data[Span(bs, k) + j] else 0
    decreases k
  {
    var chunk := Min(bs, |data|);
    var first := data[..chunk] + Zeros(bs - chunk);
    var next := blocks[c[0] := first];
    if k == 0 {
      FillElsewhere(bs, next, c[1..], data[chunk..], c[0]);
    } else {
      assert c[1..][k - 1] == c[k];
      FilledBlock(bs, next, c[1..], data[chunk..], k - 1);
    }
  }

  /** What is read from a chain: the bytes of its blocks in order, up to the size. */
  lemma {:induction false} ExtractedBytes(bs: nat, blocks: seq<seq<byte>>, c: seq<nat>, size: nat)
    requires InTable(c, |blocks|) && forall i | 0 <= i < |c| :: |blocks[c[i]]| == bs
    ensures var out := Extract(blocks, c, size);
            && |out| == Min(size, Span(bs, |c|))
            && forall k, j | 0 <= k < |c| && 0 <= j < bs && Span(bs, k) + j < |out| ::
                 out[Span(bs, k) + j] == blocks[c[k]][j]
    decreases |c|
  {
    if c != [] {
      var chunk := Min(bs, size);
      var rest := c[1..];
      forall i | 0 <= i < |rest| ensures |blocks[rest[i]]| == bs {
        assert rest[i] == c[i + 1];
      }
      ExtractedBytes(bs, blocks, rest, size - chunk);
      var out, tail := Extract(blocks, c, size), Extract(blocks, rest, size - chunk);
      assert out == blocks[c[0]][..chunk] + tail;
      forall k, j | 0 <= k < |c| && 0 <= j < bs && Span(bs, k) + j < |out|
        ensures out[Span(bs, k) + j] == blocks[c[k]][j]
      {
        if k > 0 {
          LaterByte(bs, blocks[c[0]][..chunk], tail, size, k, j);
          assert rest[k - 1] == c[k];
          assert tail[Span(bs, k - 1) + j] == blocks[rest[k - 1]][j];
        }
      }
    }
  }

  /** A byte behind the first block lies one block further back in the rest. */
  lemma LaterByte(bs: nat, first: seq<byte>, tail: seq<byte>, size: nat, k: nat, j: nat)
    requires k > 0 && |first| == Min(bs, size) && Span(bs, k) + j < |first| + |tail| <= size
    ensures Span(bs, k - 1) + j < |tail| && (first + tail)[Span(bs, k) + j] == tail[Span(bs, k - 1) + j]
  {
    assert Span(bs, k) == Span(bs, k - 1) + bs;
  }

  // ---------- what a path is ----------

  /** `e` is the first entry in use of its name in directory `d`. */
  ghost predicate Listed(v: Volume, d: u32, e: DirEntry) {
    var es := DirectoryOf(v, d);
    exists i | 0 <= i < |es| ::
      && es[i] == e && e.InUse()
      && forall j | 0 <= j < i :: !(es[j].InUse() && es[j].name == e.name)
  }

  /** The name leads from directory `d` to directory `x`. */
  ghost predicate Leads(v: Volume, d: u32, name: Name, x: u32) {
    exists e :: Listed(v, d, e) && e.name == name && e.IsDir() && e.start == x
  }

  /** `dirs` are the directories from `d` on that the components name, one after another. */
  ghost predicate Walk(v: Volume, d: u32, comps: seq<Name>, dirs: seq<u32>) {
    && |dirs| == |comps| + 1 && dirs[0] == d
    && forall i | 0 <= i < |comps| :: Leads(v, dirs[i], comps[i], dirs[i + 1])
  }

  lemma LookupIsListed(v: Volume, d: u32, name: Name, e: DirEntry)
    ensures Lookup(v, d, name) == Some(e) <==> Listed(v, d, e) && e.name == name
  {
    hide DirectoryOf;
    var es := DirectoryOf(v, d);
    FirstOrNone(es, name);
    FindInIsFirst(es, name);
  }

  /** A name in a listing has a first place, or none. */
  lemma {:induction false} FirstOrNone(es: seq<DirEntry>, name: Name)
    ensures FindIn(es, name).Some? ==>
              exists i | 0 <= i < |es| ::
                && es[i] == FindIn(es, name).value
                && forall j | 0 <= j < i :: !(es[j].InUse() && es[j].name == name)
  {
    if es != [] && !(es[0].InUse() && es[0].name == name) && FindIn(es, name).Some? {
      FirstOrNone(es[1..], name);
      var i :| 0 <= i < |es| - 1 && es[1..][i] == FindIn(es, name).value
               && forall j | 0 <= j < i :: !(es[1..][j].InUse() && es[1..][j].name == name);
      assert es[i + 1] == FindIn(es, name).value;
      forall j | 0 <= j < i + 1 ensures !(es[j].InUse() && es[j].name == name) {
        if j > 0 {
          assert es[j] == es[1..][j - 1];
        }
      }
    }
  }

  lemma LeadsByLookup(v: Volume, d: u32, name: Name, x: u32)
    ensures Leads(v, d, name, x) <==> Lookup(v, d, name).Some? && Lookup(v, d, name).value.IsDir()
                                      && Lookup(v, d, name).value.start == x
  {
    hide Listed, Lookup;
    if e :| Listed(v, d, e) && e.name == name && e.IsDir() && e.start == x {
      LookupIsListed(v, d, name, e);
    }
    if Lookup(v, d, name).Some? {
      LookupIsListed(v, d, name, Lookup(v, d, name).value);
    }
  }

  /** Resolving a path is walking it: it reaches a directory exactly when there is a walk. */
  lemma ResolveWalks(v: Volume, d: u32, comps: seq<Name>, x: u32)
    ensures Resolve(v, d, comps) == Some(x) <==> exists dirs :: Walk(v, d, comps, dirs) && dirs[|comps|] == x
  {
    hide Leads, Resolve;
    if Resolve(v, d, comps) == Some(x) {
      var dirs := ResolvedWalk(v, d, comps, x);
    }
    if dirs :| Walk(v, d, comps, dirs) && dirs[|comps|] == x {
      WalkResolves(v, d, comps, dirs);
    }
  }

  lemma {:induction false} ResolvedWalk(v: Volume, d: u32, comps: seq<Name>, x: u32) returns (dirs: seq<u32>)
    requires Resolve(v, d, comps) == Some(x)
    ensures Walk(v, d, comps, dirs) && dirs[|comps|] == x
    decreases |comps|
  {
    hide Lookup, Leads;
    dirs := [d];
    if comps != [] {
      var e := Lookup(v, d, comps[0]).value;
      LeadsByLookup(v, d, comps[0], e.start);
      var rest := ResolvedWalk(v, e.start, comps[1..], x);
      dirs := [d] + rest;
      forall i | 0 <= i < |comps| ensures Leads(v, dirs[i], comps[i], dirs[i + 1]) {
        if i > 0 {
          assert Leads(v, rest[i - 1], comps[1..][i - 1], rest[i]);
        }
      }
    }
  }

  lemma {:induction false} WalkResolves(v: Volume, d: u32, comps: seq<Name>, dirs: seq<u32>)
    requires Walk(v, d, comps, dirs)
    ensures Resolve(v, d, comps) == Some(dirs[|comps|])
    decreases |comps|
  {
    hide Lookup, Leads;
    if comps != [] {
      assert Leads(v, dirs[0], comps[0], dirs[0 + 1]);
      LeadsByLookup(v, d, comps[0], dirs[1]);
      var rest, ds := comps[1..], dirs[1..];
      forall i | 0 <= i < |rest| ensures Leads(v, ds[i], rest[i], ds[i + 1]) {
        assert Leads(v, dirs[i + 1], comps[i + 1], dirs[i + 1 + 1]);
      }
      WalkResolves(v, dirs[1], rest, ds);
    }
  }
}
