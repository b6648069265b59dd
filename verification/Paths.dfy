/** Splitting a path into components and building one from them. */
module Paths {
  import opened Basics
  import opened Bytes
  import opened DirEntries

  const SLASH: byte := 0x2F
  const MAX_PATH_COMPONENTS: nat := 32

  /** The components of the C string `p`, the first of which has already begun
      with `cur`; at most `max` of them, each cut to what a name field holds. */
  function Split(p: seq<byte>, cur: Name, max: nat): (r: seq<Name>)
    ensures |r| <= max
    decreases |p|
  {
    if max == 0 then []
    else if p == [] || p[0] == 0 then (if cur != [] then [cur] else [])
    else if p[0] == SLASH then
      (if cur != [] then [cur] + Split(p[1..], [], max - 1) else Split(p[1..], [], max))
    else Split(p[1..], if |cur| < NAME_FIELD - 1 then cur + [p[0]] else cur, max)
  }

  /** Each component with a slash before it; the root path when there is none. */
  function Build(comps: seq<Name>): seq<byte> {
    if comps == [] then [SLASH] else Joined(comps)
  }

  function Joined(comps: seq<Name>): seq<byte> {
    if comps == [] then [] else [SLASH] + comps[0] + Joined(comps[1..])
  }

  predicate Clean(n: Name) {
    n != [] && SLASH !in n
  }

  predicate AllClean(comps: seq<Name>) {
    forall i | 0 <= i < |comps| :: Clean(comps[i])
  }

  lemma SplitStep(p: seq<byte>, i: nat, cur: Name, max: nat)
    requires i < |p| && p[i] != 0 && max > 0
    ensures Split(p[i..], cur, max)
         == if p[i] != SLASH then Split(p[i + 1..], if |cur| < NAME_FIELD - 1 then cur + [p[i]] else cur, max)
            else if cur != [] then [cur] + Split(p[i + 1..], [], max - 1)
            else Split(p[i + 1..], [], max)
  {
    assert p[i..][1..] == p[i + 1..];
  }

  lemma SplitEnd(p: seq<byte>, i: nat, cur: Name, max: nat)
    requires i <= |p| && (max == 0 || i == |p| || p[i] == 0)
    ensures Split(p[i..], cur, max) == if max > 0 && cur != [] then [cur] else []
  {
  }

  method SplitPath(path: seq<byte>, max: nat) returns (comps: seq<Name>)
    ensures comps == Split(path, [], max)
  {
    hide Split;
    comps := [];
    var cur: Name, i := [], 0;
    while i < |path| && path[i] != 0 && |comps| < max
      invariant i <= |path| && |comps| <= max
      invariant |comps| == max ==> cur == []
      invariant Split(path, [], max) == comps + Split(path[i..], cur, max - |comps|)
    {
      SplitStep(path, i, cur, max - |comps|);
      if path[i] == SLASH {
        if |cur| > 0 {
          comps := comps + [cur];
          cur := [];
        }
      } else if |cur| < NAME_FIELD - 1 {
        cur := cur + [path[i]];
      }
      i := i + 1;
    }
    SplitEnd(path, i, cur, max - |comps|);
    if |cur| > 0 && |comps| < max {
      comps := comps + [cur];
    }
  }

  method BuildPath(comps: seq<Name>) returns (out: seq<byte>)
    ensures out == Build(comps)
  {
    if |comps| == 0 {
      out := [SLASH];
    } else {
      out := [];
      var i := 0;
      while i < |comps|
        invariant i <= |comps|
        invariant Joined(comps) == out + Joined(comps[i..])
      {
        JoinedStep(comps, i, out);
        out := out + [SLASH] + comps[i];
        i := i + 1;
      }
      assert comps[i..] == [];
    }
  }

  lemma JoinedStep(comps: seq<Name>, i: nat, out: seq<byte>)
    requires i < |comps|
    ensures out + Joined(comps[i..]) == out + [SLASH] + comps[i] + Joined(comps[i + 1..])
  {
    assert comps[i..][1..] == comps[i + 1..];
  }

  /** Splitting yields non-empty components without separators. */
  lemma {:induction false} SplitIsClean(p: seq<byte>, cur: Name, max: nat)
    requires SLASH !in cur
    ensures AllClean(Split(p, cur, max))
    decreases |p|
  {
    if max == 0 || p == [] || p[0] == 0 {
    } else if p[0] == SLASH {
      SplitIsClean(p[1..], [], if cur != [] then max - 1 else max);
    } else {
      SplitIsClean(p[1..], if |cur| < NAME_FIELD - 1 then cur + [p[0]] else cur, max);
    }
  }

  /** Characters up to the next separator gather into one component. */
  lemma {:induction false} SplitGathers(n: Name, rest: seq<byte>, cur: Name, max: nat)
    requires SLASH !in n && |cur| + |n| < NAME_FIELD && max > 0
    ensures Split(n + rest, cur, max) == Split(rest, cur + n, max)
    decreases |n|
  {
    if n == [] {
      assert n + rest == rest && cur + n == cur;
    } else {
      assert (n + rest)[1..] == n[1..] + rest;
      SplitGathers(n[1..], rest, cur + [n[0]], max);
      assert cur + n == cur + [n[0]] + n[1..];
    }
  }

  /** A separator closes the component in progress. */
  lemma SlashCloses(rest: seq<byte>, cur: Name, max: nat)
    requires max > 0
    ensures Split([SLASH] + rest, cur, max)
         == if cur == [] then Split(rest, [], max) else [cur] + Split(rest, [], max - 1)
  {
    assert ([SLASH] + rest)[1..] == rest;
  }

  /** Splitting the joined components gives them back; a component in progress is closed first. */
  lemma {:induction false} SplitJoined(comps: seq<Name>, cur: Name, max: nat)
    requires AllClean(comps) && max >= |comps| + (if cur == [] then 0 else 1)
    ensures Split(Joined(comps), cur, max) == if cur == [] then comps else [cur] + comps
    decreases |comps|
  {
    if comps != [] {
      hide Split;
      var left := if cur == [] then max else max - 1;
      var first, more := comps[0], Joined(comps[1..]);
      assert Clean(first);
      assert Joined(comps) == [SLASH] + (first + more);
      SlashCloses(first + more, cur, max);
      SplitGathers(first, more, [], left);
      assert [] + first == first;
      SplitJoined(comps[1..], first, left);
      assert [first] + comps[1..] == comps;
    }
  }

  /** Building and splitting again loses nothing, for the components of any path. */
  lemma SplitBuildSplit(p: seq<byte>, max: nat)
    ensures Split(Build(Split(p, [], max)), [], max) == Split(p, [], max)
  {
    var comps := Split(p, [], max);
    SplitIsClean(p, [], max);
    if comps == [] {
      assert [SLASH][1..] == [];
    } else {
      SplitJoined(comps, [], max);
    }
  }

  /** A smaller maximum keeps the first components and drops the others. */
  lemma {:induction false} SplitIsCut(p: seq<byte>, cur: Name, m: nat, n: nat)
    requires m <= n
    ensures Split(p, cur, m) == Split(p, cur, n)[..Min(m, |Split(p, cur, n)|)]
    decreases |p|
  {
    if m > 0 && p != [] && p[0] != 0 {
      if p[0] == SLASH {
        if cur != [] {
          SplitIsCut(p[1..], [], m - 1, n - 1);
          var all := Split(p[1..], [], n - 1);
          assert ([cur] + all)[..Min(m, 1 + |all|)] == [cur] + all[..Min(m - 1, |all|)];
        } else {
          SplitIsCut(p[1..], [], m, n);
        }
      } else {
        SplitIsCut(p[1..], if |cur| < NAME_FIELD - 1 then cur + [p[0]] else cur, m, n);
      }
    }
  }

  /** The path ends at its first zero byte. */
  lemma {:induction false} SplitStops(p: seq<byte>, rest: seq<byte>, cur: Name, max: nat)
    requires 0 !in p
    ensures Split(p + [0] + rest, cur, max) == Split(p, cur, max)
    decreases |p|
  {
    var all := p + [0] + rest;
    if p == [] {
      assert all[0] == 0;
    } else if max > 0 {
      assert all[1..] == p[1..] + [0] + rest && all[0] == p[0];
      if p[0] == SLASH {
        SplitStops(p[1..], rest, [], if cur != [] then max - 1 else max);
      } else {
        SplitStops(p[1..], rest, if |cur| < NAME_FIELD - 1 then cur + [p[0]] else cur, max);
      }
    }
  }

  /** A component is what stands between slashes, cut to its first 30 characters. */
  lemma {:induction false} SplitCutsNames(n: seq<byte>, rest: seq<byte>, cur: Name, max: nat)
    requires 0 !in n && 0x2F !in n && cur + n != [] && max > 0
    ensures var long := cur + n;
            Split(n + [0x2F] + rest, cur, max) == [long[..Min(30, |long|)]] + Split(rest, [], max - 1)
    decreases |n|
  {
    var all := n + [0x2F] + rest;
    if n == [] {
      assert all[0] == SLASH && all[1..] == rest && (cur + n)[..|cur|] == cur;
    } else {
      assert all[1..] == n[1..] + [0x2F] + rest && all[0] == n[0];
      var next: Name := if |cur| < NAME_FIELD - 1 then cur + [n[0]] else cur;
      SplitCutsNames(n[1..], rest, next, max);
      var long := cur + n;
      assert (next + n[1..])[..Min(30, |next + n[1..]|)] == long[..Min(30, |long|)];
    }
  }

  /** The built path: a slash before each component, and a lone slash for none. */
  lemma {:induction false} BuiltBytes(comps: seq<Name>)
    ensures Build([]) == [0x2F]
    ensures forall c: Name :: Build(comps + [c]) == (if comps == [] then [] else Build(comps)) + [0x2F] + c
    decreases |comps|
  {
    forall c: Name ensures Joined(comps + [c]) == Joined(comps) + [0x2F] + c {
      if comps == [] {
        assert ([] + [c])[1..] == [] && [SLASH] + c + [] == [SLASH] + c;
      } else {
        BuiltBytes(comps[1..]);
        assert (comps + [c])[1..] == comps[1..] + [c];
        assert Joined(comps[1..] + [c]) == Joined(comps[1..]) + [0x2F] + c;
      }
    }
  }
}
