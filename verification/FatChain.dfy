/** The block allocation table: chains of blocks, allocation and linking.

    A table entry holds FREE, RESERVED, EOF or the number of the next block. */
module FatChain {
  import opened Basics
  import opened Bytes

  const FREE: u32 := 0
  const RESERVED: u32 := 1
  const EOF: u32 := 0xFFFF_FFFF

  /** `c` is the whole chain that starts at `start`: linked by the table and
      closed by EOF. */
  ghost predicate IsChain(fat: seq<u32>, start: int, c: seq<nat>) {
    && |c| > 0
    && c[0] == start
    && (forall i | 0 <= i < |c| :: c[i] < |fat|)
    && (forall i | 0 <= i < |c| - 1 :: fat[c[i]] == c[i + 1])
    && fat[c[|c| - 1]] == EOF
  }

  /** An EOF-terminated chain cannot come back to a block it has passed. */
  lemma {:induction false} ChainIsAcyclic(fat: seq<u32>, start: int, c: seq<nat>)
    requires |fat| <= EOF && IsChain(fat, start, c)
    ensures Distinct(c)
  {
    forall i, j | 0 <= i < j < |c| ensures c[i] != c[j] {
      ChainPositionsDiffer(fat, start, c, i, j);
    }
  }

  lemma {:induction false} ChainPositionsDiffer(fat: seq<u32>, start: int, c: seq<nat>, i: nat, j: nat)
    requires |fat| <= EOF && IsChain(fat, start, c)
    requires i < j < |c|
    ensures c[i] != c[j]
    decreases |c| - j
  {
    if j < |c| - 1 {
      ChainPositionsDiffer(fat, start, c, i + 1, j + 1);
      assert fat[c[i]] == c[i + 1] && fat[c[j]] == c[j + 1];
    } else {
      assert fat[c[i]] == c[i + 1] && fat[c[j]] == EOF;
    }
  }

  function Below(n: nat): (s: set<nat>)
    ensures |s| == n && forall k: nat :: k in s <==> k < n
  {
    if n == 0 then {} else Below(n - 1) + {n - 1}
  }

  /** Pigeonhole: a repetition-free sequence inside a set is no longer than the set. */
  lemma {:induction false} Pigeonhole(c: seq<nat>, s: set<nat>)
    requires Distinct(c) && forall i | 0 <= i < |c| :: c[i] in s
    ensures |c| <= |s|
  {
    if c != [] {
      Pigeonhole(c[..|c| - 1], s - {c[|c| - 1]});
    }
  }

  /** The blocks visited from `start` by a walk that stops at EOF, after `cap`
      blocks, or on leaving the table. */
  function Follow(fat: seq<u32>, start: u32, cap: nat): (c: seq<nat>)
    ensures |c| <= cap
    ensures forall i | 0 <= i < |c| :: c[i] < |fat|
    decreases cap
  {
    if start == EOF || cap == 0 || start >= |fat| then [] else [start] + Follow(fat, fat[start], cap - 1)
  }

  /** With the table's length as cap, a walk returns the complete chain: the cap
      never cuts it short. */
  lemma {:induction false} FollowIsWhole(fat: seq<u32>, start: u32, c: seq<nat>)
    requires |fat| <= EOF && IsChain(fat, start, c)
    ensures Follow(fat, start, |fat|) == c
  {
    ChainIsAcyclic(fat, start, c);
    Pigeonhole(c, Below(|fat|));
    FollowWithRoom(fat, start, c, |fat|);
  }

  lemma {:induction false} FollowWithRoom(fat: seq<u32>, start: u32, c: seq<nat>, cap: nat)
    requires |fat| <= EOF && IsChain(fat, start, c) && |c| <= cap
    ensures Follow(fat, start, cap) == c
    decreases cap
  {
    if |c| > 1 {
      FollowWithRoom(fat, fat[start], c[1..], cap - 1);
      assert c == [c[0]] + c[1..];
    } else {
      assert c == [start];
    }
  }

  /** The first `need` free blocks at or after `i`, or all of them if there are fewer. */
  function FreeBlocks(fat: seq<u32>, i: nat, need: nat): (f: seq<nat>)
    ensures |f| <= need
    ensures forall k | 0 <= k < |f| :: i <= f[k] < |fat| && fat[f[k]] == FREE
    ensures Distinct(f)
    decreases |fat| - i
  {
    if need == 0 || i >= |fat| then []
    else if fat[i] == FREE then [i] + FreeBlocks(fat, i + 1, need - 1)
    else FreeBlocks(fat, i + 1, need)
  }

  /** Allocation fails exactly when the table has fewer free entries than asked for. */
  /** The blocks found come in order, and no free block before the last of them is left out. */
  lemma {:induction false} FreeBlocksAreFirst(fat: seq<u32>, i: nat, need: nat, f: seq<nat>)
    requires i <= |fat| && f == FreeBlocks(fat, i, need)
    ensures forall j, k | 0 <= j < k < |f| :: f[j] < f[k]
    ensures forall b, k | i <= b < |fat| && fat[b] == 0 && 0 <= k < |f| && b < f[k] :: b in f
    decreases |fat| - i
  {
    if i < |fat| && need > 0 {
      if fat[i] == FREE {
        var rest := FreeBlocks(fat, i + 1, need - 1);
        FreeBlocksAreFirst(fat, i + 1, need - 1, rest);
        assert f == [i] + rest;
        forall b, k | i <= b < |fat| && fat[b] == 0 && 0 <= k < |f| && b < f[k] ensures b in f {
          assert b > i ==> f[k] == rest[k - 1] && b in rest;
          assert f[0] == i;
        }
      } else {
        FreeBlocksAreFirst(fat, i + 1, need, f);
      }
    }
  }

  lemma {:induction false} FreeBlocksComplete(fat: seq<u32>, i: nat, need: nat)
    requires i <= |fat|
    ensures |FreeBlocks(fat, i, need)| == need <==> multiset(fat[i..])[FREE] >= need
    decreases |fat| - i
  {
    if need > 0 && i < |fat| {
      assert fat[i..] == [fat[i]] + fat[i + 1..];
      FreeBlocksComplete(fat, i + 1, if fat[i] == FREE then need - 1 else need);
    }
  }

  /** The table after the blocks of `c` have been linked, front to back, into one chain. */
  function Link(fat: seq<u32>, c: seq<nat>): (r: seq<u32>)
    requires |fat| <= EOF && forall i | 0 <= i < |c| :: c[i] < |fat|
    ensures |r| == |fat|
    decreases |c|
  {
    if c == [] then fat
    else Link(fat[c[0] := if |c| > 1 then c[1] else EOF], c[1..])
  }

  lemma {:induction false} LinkElsewhere(fat: seq<u32>, c: seq<nat>, b: nat)
    requires |fat| <= EOF && forall i | 0 <= i < |c| :: c[i] < |fat|
    requires b < |fat| && b !in c
    ensures Link(fat, c)[b] == fat[b]
    decreases |c|
  {
    if c != [] {
      LinkElsewhere(fat[c[0] := if |c| > 1 then c[1] else EOF], c[1..], b);
    }
  }

  /** Linking distinct blocks yields the chain of exactly those blocks. */
  lemma {:induction false} LinkIsChain(fat: seq<u32>, c: seq<nat>)
    requires |fat| <= EOF && |c| > 0 && Distinct(c)
    requires forall i | 0 <= i < |c| :: c[i] < |fat|
    ensures IsChain(Link(fat, c), c[0], c)
    decreases |c|
  {
    var f := fat[c[0] := if |c| > 1 then c[1] else EOF];
    LinkElsewhere(f, c[1..], c[0]);
    if |c| > 1 {
      LinkIsChain(f, c[1..]);
      forall i | 0 <= i < |c| - 1 ensures Link(fat, c)[c[i]] == c[i + 1] {
        if i > 0 {
          assert c[i] == c[1..][i - 1] && c[i + 1] == c[1..][i];
        }
      }
    }
  }

  /** Linking moves one entry per block out of FREE and touches no other count:
      every block was free and becomes neither free nor reserved. */
  lemma {:induction false} LinkTally(fat: seq<u32>, c: seq<nat>)
    requires |fat| <= EOF && Distinct(c)
    requires forall i | 0 <= i < |c| :: 2 <= c[i] < |fat| && fat[c[i]] == FREE
    ensures multiset(Link(fat, c))[FREE] == multiset(fat)[FREE] - |c|
    ensures multiset(Link(fat, c))[RESERVED] == multiset(fat)[RESERVED]
    decreases |c|
  {
    if c != [] {
      var f := fat[c[0] := if |c| > 1 then c[1] else EOF];
      UpdateTally(fat, c[0], f[c[0]]);
      LinkTally(f, c[1..]);
    }
  }

  lemma UpdateTally(fat: seq<u32>, b: nat, v: u32)
    requires b < |fat|
    ensures multiset(fat[b := v]) == multiset(fat) - multiset{fat[b]} + multiset{v}
  {
    assert fat == fat[..b] + [fat[b]] + fat[b + 1..];
    assert fat[b := v] == fat[..b] + [v] + fat[b + 1..];
  }
}
