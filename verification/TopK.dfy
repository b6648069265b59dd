/** Keeping the best k hits: insertion into a sorted list, and the declarative
    meaning of the list it maintains. */
module TopK {
  import opened Basics

  datatype Hit = Hit(score: real, index: nat)

  /** Higher scores first; among equal scores, lower indices first. */
  predicate Before(a: Hit, b: Hit) {
    a.score > b.score || (a.score == b.score && a.index < b.index)
  }

  ghost predicate Ordered(h: seq<Hit>) {
    forall i, j | 0 <= i < j < |h| :: Before(h[i], h[j])
  }

  /** `h` lists, in order, the best `k` members of `among`, or all of them if there are fewer. */
  ghost predicate IsTopK(h: seq<Hit>, among: set<Hit>, k: nat) {
    && Ordered(h)
    && |h| <= k
    && (forall i | 0 <= i < |h| :: h[i] in among)
    && (forall x | x in among && x !in h :: |h| == k && forall i | 0 <= i < |h| :: Before(h[i], x))
  }

  // ---------- uniqueness and size ----------

  /** There is only one such list. */
  lemma {:induction false} TopKUnique(g: seq<Hit>, h: seq<Hit>, among: set<Hit>, k: nat)
    requires IsTopK(g, among, k) && IsTopK(h, among, k)
    ensures g == h
  {
    TopKSameUpTo(g, h, among, k, Min(|g|, |h|));
    TopKNotShorter(g, h, among, k);
    TopKNotShorter(h, g, among, k);
  }

  lemma {:induction false} TopKSameUpTo(g: seq<Hit>, h: seq<Hit>, among: set<Hit>, k: nat, n: nat)
    requires IsTopK(g, among, k) && IsTopK(h, among, k) && n <= |g| && n <= |h|
    ensures g[..n] == h[..n]
  {
    if n > 0 {
      TopKSameUpTo(g, h, among, k, n - 1);
      NextNotWorse(g, h, among, k, n - 1);
      NextNotWorse(h, g, among, k, n - 1);
      assert g[n - 1] == h[n - 1];
      assert g[..n] == g[..n - 1] + [g[n - 1]] && h[..n] == h[..n - 1] + [h[n - 1]];
    }
  }

  /** With equal beginnings, the next entry of one list is not before that of the other. */
  lemma NextNotWorse(g: seq<Hit>, h: seq<Hit>, among: set<Hit>, k: nat, n: nat)
    requires IsTopK(g, among, k) && IsTopK(h, among, k) && n < |g| && n < |h| && g[..n] == h[..n]
    ensures !Before(g[n], h[n])
  {
    if g[n] !in h {
      assert Before(h[n], g[n]);
    } else {
      var j :| 0 <= j < |h| && h[j] == g[n];
      forall i | 0 <= i < n ensures h[i] != g[n] {
        assert h[i] == h[..n][i] == g[i] && Before(g[i], g[n]);
      }
      assert j > n ==> Before(h[n], h[j]);
    }
  }

  lemma TopKNotShorter(g: seq<Hit>, h: seq<Hit>, among: set<Hit>, k: nat)
    requires IsTopK(g, among, k) && IsTopK(h, among, k)
    requires g[..Min(|g|, |h|)] == h[..Min(|g|, |h|)]
    ensures |g| >= |h|
  {
    if |g| < |h| {
      var x := h[|g|];
      assert x in among;
      forall i | 0 <= i < |g| ensures g[i] != x {
        assert g[i] == g[..|g|][i] == h[i] && Before(h[i], x);
      }
    }
  }

  ghost function Members(h: seq<Hit>): set<Hit> {
    set i | 0 <= i < |h| :: h[i]
  }

  lemma {:induction false} MembersCount(h: seq<Hit>)
    requires Ordered(h)
    ensures |Members(h)| == |h|
  {
    if h != [] {
      var init, last := h[..|h| - 1], h[|h| - 1];
      MembersCount(init);
      assert Members(h) == Members(init) + {last};
      assert last !in Members(init);
    }
  }

  lemma {:induction false} SubsetCount(a: set<Hit>, b: set<Hit>)
    requires a <= b
    ensures |a| <= |b| && (|a| == |b| ==> a == b)
  {
    if a != {} {
      var x :| x in a;
      SubsetCount(a - {x}, b - {x});
    }
  }

  /** The list has min(k, |among|) entries. */
  lemma TopKSize(h: seq<Hit>, among: set<Hit>, k: nat)
    requires IsTopK(h, among, k)
    ensures |h| == Min(k, |among|)
  {
    MembersCount(h);
    assert Members(h) <= among;
    SubsetCount(Members(h), among);
    if |h| < k {
      forall x | x in among ensures x in Members(h) {
        assert x in h;
      }
      assert Members(h) == among;
    }
  }

  /** It is the first part of the complete ordered list. */
  lemma TopKIsSortedPrefix(h: seq<Hit>, among: set<Hit>, k: nat, all: seq<Hit>)
    requires IsTopK(h, among, k)
    requires Ordered(all) && forall x :: x in all <==> x in among
    ensures h == all[..Min(k, |all|)]
  {
    var p := all[..Min(k, |all|)];
    forall x | x in among && x !in p ensures |p| == k && forall i | 0 <= i < |p| :: Before(p[i], x) {
      var j :| 0 <= j < |all| && all[j] == x;
      assert forall i | 0 <= i < |p| :: p[i] == all[i];
    }
    forall i | 0 <= i < |p| ensures p[i] in among {
      assert all[i] in all;
    }
    TopKUnique(h, p, among, k);
  }

  // ---------- insertion ----------

  /** Where the shifting loop puts a hit: behind every score that is not smaller. */
  function Place(h: seq<Hit>, x: Hit): (r: seq<Hit>)
    ensures |r| == |h| + 1
  {
    if h == [] || !(h[|h| - 1].score < x.score) then h + [x]
    else Place(h[..|h| - 1], x) + [h[|h| - 1]]
  }

  function Insert(h: seq<Hit>, k: nat, x: Hit): (r: seq<Hit>)
    requires k > 0 && |h| <= k
    ensures |r| <= k
  {
    if |h| < k then Place(h, x)
    else if x.score > h[|h| - 1].score then Place(h[..|h| - 1], x)
    else h
  }

  /** The hit comes after every member of `among` with the same score. */
  ghost predicate LaterTie(among: set<Hit>, x: Hit) {
    forall y | y in among && y.score == x.score :: y.index < x.index
  }

  lemma {:induction false} PlaceOrdered(h: seq<Hit>, x: Hit)
    requires Ordered(h) && LaterTie(Members(h), x)
    ensures Ordered(Place(h, x))
    ensures forall y :: y in Place(h, x) <==> y in h || y == x
  {
    if h == [] || !(h[|h| - 1].score < x.score) {
      forall i | 0 <= i < |h| ensures Before(h[i], x) {
        assert h[i] in Members(h);
        if i < |h| - 1 {
          assert Before(h[i], h[|h| - 1]);
        }
      }
    } else {
      var init, last := h[..|h| - 1], h[|h| - 1];
      assert Members(init) <= Members(h);
      PlaceOrdered(init, x);
      var p := Place(init, x);
      assert h == init + [last];
      forall i | 0 <= i < |p| ensures Before(p[i], last) {
        assert p[i] in p;
      }
    }
  }

  /** Inserting in order of arrival keeps the list the top k of what has arrived. */
  lemma InsertKeepsTopK(h: seq<Hit>, among: set<Hit>, k: nat, x: Hit)
    requires k > 0 && IsTopK(h, among, k) && LaterTie(among, x) && x !in among
    ensures IsTopK(Insert(h, k, x), among + {x}, k)
  {
    var r := Insert(h, k, x);
    assert Members(h) <= among;
    if |h| < k {
      PlaceOrdered(h, x);
      forall i | 0 <= i < |r| ensures r[i] in among + {x} {
        assert r[i] in r;
      }
    } else if x.score > h[|h| - 1].score {
      InsertDisplaces(h, among, k, x);
    } else {
      forall i | 0 <= i < |h| ensures Before(h[i], x) {
        if i < |h| - 1 {
          assert Before(h[i], h[|h| - 1]);
        }
        assert h[i] in among;
      }
    }
  }

  lemma InsertDisplaces(h: seq<Hit>, among: set<Hit>, k: nat, x: Hit)
    requires k > 0 && IsTopK(h, among, k) && LaterTie(among, x) && x !in among
    requires |h| == k && x.score > h[|h| - 1].score
    ensures IsTopK(Place(h[..|h| - 1], x), among + {x}, k)
  {
    var init, last := h[..|h| - 1], h[|h| - 1];
    assert h == init + [last];
    assert Members(init) <= among;
    PlaceOrdered(init, x);
    var p := Place(init, x);
    forall i | 0 <= i < |p| ensures Before(p[i], last) && p[i] in among + {x} {
      assert p[i] in p;
    }
    forall y | y in among + {x} && y !in p
      ensures forall i | 0 <= i < |p| :: Before(p[i], y)
    {
      assert y == last || (y !in h && Before(last, y));
    }
  }

  // ---------- the imperative insertion ----------

  /** topk_insert on the `k` cells of `hits` that start at `base`. */
  method TopkInsert(hits: array<Hit>, base: nat, n0: nat, k: nat, score: real, index: nat) returns (n: nat)
    requires 0 < k && n0 <= k && base + k <= hits.Length
    modifies hits
    ensures n <= k && hits[base..base + n] == Insert(old(hits[base..base + n0]), k, Hit(score, index))
    ensures forall i | 0 <= i < hits.Length && !(base <= i < base + k) :: hits[i] == old(hits[i])
  {
    ghost var was := hits[base..base + n0];
    n := n0;
    var pos;
    if n < k {
      pos := n;
      n := n + 1;
    } else if score > hits[base + n - 1].score {
      pos := n - 1;
    } else {
      return;
    }
    assert hits[base..base + pos] == if n0 < k then was else was[..n0 - 1];
    ShiftIn(hits, base, pos, Hit(score, index));
  }

  /** The shifting loop: `x` moves down from cell `top` past the smaller scores. */
  method ShiftIn(hits: array<Hit>, base: nat, top: nat, x: Hit)
    requires base + top < hits.Length
    modifies hits
    ensures hits[base..base + top + 1] == Place(old(hits[base..base + top]), x)
    ensures forall i | 0 <= i < hits.Length && !(base <= i <= base + top) :: hits[i] == old(hits[i])
  {
    hide Place;
    ghost var h := hits[base..base + top];
    var pos := top;
    while pos > 0 && hits[base + pos - 1].score < x.score
      invariant 0 <= pos <= top
      invariant forall i | 0 <= i < pos :: hits[base + i] == h[i]
      invariant forall i | pos <= i < top :: hits[base + i + 1] == h[i] && h[i].score < x.score
      invariant forall i | 0 <= i < hits.Length && !(base <= i <= base + top) :: hits[i] == old(hits[i])
    {
      hits[base + pos] := hits[base + pos - 1];
      pos := pos - 1;
    }
    hits[base + pos] := x;
    assert pos > 0 ==> !(h[pos - 1].score < x.score);
    PlaceAt(h, x, pos);
    ghost var r := hits[base..base + top + 1];
    assert forall i | 0 <= i <= top :: r[i] == hits[base + i];
    Shifted(r, h, x, pos);
  }

  lemma Shifted(r: seq<Hit>, h: seq<Hit>, x: Hit, pos: nat)
    requires pos <= |h| && |r| == |h| + 1 && r[pos] == x
    requires forall i | 0 <= i < pos :: r[i] == h[i]
    requires forall i | pos <= i < |h| :: r[i + 1] == h[i]
    ensures r == h[..pos] + [x] + h[pos..]
  {
    forall j | pos < j < |r| ensures r[j] == (h[..pos] + [x] + h[pos..])[j] {
      assert r[(j - 1) + 1] == h[j - 1];
    }
  }

  lemma WithoutLast(h: seq<Hit>, pos: nat)
    requires pos < |h|
    ensures h[..|h| - 1][..pos] == h[..pos]
    ensures h[pos..] == h[..|h| - 1][pos..] + [h[|h| - 1]]
  {
  }

  lemma {:induction false} PlaceAt(h: seq<Hit>, x: Hit, pos: nat)
    requires pos <= |h| && forall i | pos <= i < |h| :: h[i].score < x.score
    requires pos > 0 ==> !(h[pos - 1].score < x.score)
    ensures Place(h, x) == h[..pos] + [x] + h[pos..]
  {
    if pos < |h| {
      var init, last := h[..|h| - 1], h[|h| - 1];
      PlaceAt(init, x, pos);
      WithoutLast(h, pos);
      assert init[..pos] + [x] + init[pos..] + [last] == h[..pos] + [x] + h[pos..];
    } else {
      assert h[..pos] == h && h[pos..] == [];
    }
  }
}
