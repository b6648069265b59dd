/** Scoring, scanning and the parallel search's partition and merge. */
module Search {
  import opened Basics
  import opened TopK

  /** The two float operations of the scoring loop, with whatever rounding the
      machine applies: any functions at all. */
  datatype Rounding = Rounding(add: (real, real) -> real, mul: (real, real) -> real)

  datatype RawCorpus = Corpus(rounding: Rounding, query: seq<real>, rows: seq<seq<real>>)

  type Corpus = c: RawCorpus | forall i | 0 <= i < |c.rows| :: |c.rows[i]| == |c.query|
    witness Corpus(Rounding((x: real, y: real) => x + y, (x: real, y: real) => x * y), [], [])

  /** The dot product as the scoring loop accumulates it, left to right. */
  function Dot(r: Rounding, q: seq<real>, v: seq<real>, n: nat): real
    requires n <= |q| && n <= |v|
  {
    if n == 0 then 0.0 else r.add(Dot(r, q, v, n - 1), r.mul(q[n - 1], v[n - 1]))
  }

  function HitAt(c: Corpus, i: nat): Hit
    requires i < |c.rows|
  {
    Hit(Dot(c.rounding, c.query, c.rows[i], |c.query|), i)
  }

  /** The sums that scoring row `i` against the query goes through: from zero on, each
      the last one plus the product of the next components of query and row. */
  ghost predicate PartialSums(c: Corpus, i: nat, acc: seq<real>)
    requires i < |c.rows|
  {
    && |acc| == |c.query| + 1 && acc[0] == 0.0
    && forall j | 0 <= j < |c.query| ::
         acc[j + 1] == c.rounding.add(acc[j], c.rounding.mul(c.query[j], c.rows[i][j]))
  }

  ghost predicate IsScore(c: Corpus, i: nat, score: real)
    requires i < |c.rows|
  {
    exists acc :: PartialSums(c, i, acc) && acc[|c.query|] == score
  }

  lemma {:induction false} SumsAreDots(c: Corpus, i: nat, acc: seq<real>, n: nat)
    requires i < |c.rows| && PartialSums(c, i, acc) && n <= |c.query|
    ensures acc[n] == Dot(c.rounding, c.query, c.rows[i], n)
  {
    if n > 0 {
      SumsAreDots(c, i, acc, n - 1);
      assert acc[(n - 1) + 1] == acc[n];
    }
  }

  /** A row has one score, and it is the one recorded in its hit. */
  lemma ScoreIsOfHit(c: Corpus, i: nat, score: real)
    requires i < |c.rows|
    ensures IsScore(c, i, score) <==> score == HitAt(c, i).score
  {
    if IsScore(c, i, score) {
      var acc :| PartialSums(c, i, acc) && acc[|c.query|] == score;
      SumsAreDots(c, i, acc, |c.query|);
    }
    var sums := seq(|c.query| + 1, n requires 0 <= n < |c.query| + 1 => Dot(c.rounding, c.query, c.rows[i], n));
    assert PartialSums(c, i, sums);
  }

  ghost function Range(c: Corpus, lo: nat, hi: nat): set<Hit>
    requires lo <= hi <= |c.rows|
  {
    set i | lo <= i < hi :: HitAt(c, i)
  }

  /** The list after the rows from `start` to `end` have been inserted in order. */
  function Scan(c: Corpus, k: nat, start: nat, end: nat): (h: seq<Hit>)
    requires k > 0 && start <= end <= |c.rows|
    ensures |h| <= k
    decreases end
  {
    if start == end then [] else Insert(Scan(c, k, start, end - 1), k, HitAt(c, end - 1))
  }

  /** Scanning a range finds its top k, ties by index. */
  lemma {:induction false} ScanIsTopK(c: Corpus, k: nat, start: nat, end: nat)
    requires k > 0 && start <= end <= |c.rows|
    ensures IsTopK(Scan(c, k, start, end), Range(c, start, end), k)
    decreases end
  {
    if start < end {
      ScanIsTopK(c, k, start, end - 1);
      var x := HitAt(c, end - 1);
      var among := Range(c, start, end - 1);
      assert Range(c, start, end) == among + {x};
      InsertKeepsTopK(Scan(c, k, start, end - 1), among, k, x);
    }
  }

  lemma ScanStart(c: Corpus, k: nat, start: nat)
    requires k > 0 && start <= |c.rows|
    ensures Scan(c, k, start, start) == []
  {
  }

  lemma ScanStep(c: Corpus, k: nat, start: nat, i: nat)
    requires k > 0 && start <= i < |c.rows|
    ensures Scan(c, k, start, i + 1) == Insert(Scan(c, k, start, i), k, HitAt(c, i))
  {
  }

  method ScoreRow(c: Corpus, i: nat) returns (score: real)
    requires i < |c.rows|
    ensures score == HitAt(c, i).score && IsScore(c, i, score)
  {
    ScoreIsOfHit(c, i, HitAt(c, i).score);
    var q, v := c.query, c.rows[i];
    score := 0.0;
    var j := 0;
    while j < |q|
      invariant 0 <= j <= |q|
      invariant score == Dot(c.rounding, q, v, j)
    {
      score := c.rounding.add(score, c.rounding.mul(q[j], v[j]));
      j := j + 1;
    }
  }

  method ScanRange(c: Corpus, start: nat, end: nat, k: nat, hits: array<Hit>, base: nat) returns (n: nat)
    requires k > 0 && start <= end <= |c.rows| && base + k <= hits.Length
    modifies hits
    ensures n <= k && hits[base..base + n] == Scan(c, k, start, end)
    ensures forall i | 0 <= i < hits.Length && !(base <= i < base + k) :: hits[i] == old(hits[i])
  {
    hide Insert, Dot, Scan;
    n := 0;
    var i := start;
    ScanStart(c, k, start);
    while i < end
      invariant start <= i <= end && n <= k
      invariant hits[base..base + n] == Scan(c, k, start, i)
      invariant forall i | 0 <= i < hits.Length && !(base <= i < base + k) :: hits[i] == old(hits[i])
    {
      var score := ScoreRow(c, i);
      assert Hit(score, i) == HitAt(c, i);
      ScanStep(c, k, start, i);
      n := TopkInsert(hits, base, n, k, score, i);
      i := i + 1;
    }
  }

  /** vdb_search: its hits are the best k of all rows. */
  method VdbSearch(c: Corpus, k: nat, hits: array<Hit>) returns (n: nat)
    requires 0 < k <= hits.Length
    modifies hits
    ensures n <= k && hits[..n] == Scan(c, k, 0, |c.rows|)
    ensures IsTopK(hits[..n], Range(c, 0, |c.rows|), k) && BestRows(c, k, hits[..n])
  {
    n := ScanRange(c, 0, |c.rows|, k, hits, 0);
    assert hits[0..0 + n] == hits[..n];
    ScanIsTopK(c, k, 0, |c.rows|);
    ScanIsBest(c, k);
  }

  /** What a search is for: min(k, count) rows with their scores, by falling score
      and among equals by rising index, and no row left out comes before one kept. */
  ghost predicate BestRows(c: Corpus, k: nat, h: seq<Hit>) {
    && |h| == (if k < |c.rows| then k else |c.rows|)
    && (forall i | 0 <= i < |h| :: h[i].index < |c.rows| && IsScore(c, h[i].index, h[i].score))
    && (forall i, j | 0 <= i < j < |h| ::
          h[i].score > h[j].score || (h[i].score == h[j].score && h[i].index < h[j].index))
    && (forall r, score | 0 <= r < |c.rows| && IsScore(c, r, score) && (forall i | 0 <= i < |h| :: h[i].index != r) ::
          forall i | 0 <= i < |h| :: h[i].score > score || (h[i].score == score && h[i].index < r))
  }

  lemma ScanIsBest(c: Corpus, k: nat)
    requires k > 0
    ensures BestRows(c, k, Scan(c, k, 0, |c.rows|))
  {
    hide Scan, Dot, IsScore;
    var h, all := Scan(c, k, 0, |c.rows|), Range(c, 0, |c.rows|);
    ScanIsTopK(c, k, 0, |c.rows|);
    SearchSize(c, k);
    forall i | 0 <= i < |h| ensures h[i].index < |c.rows| && IsScore(c, h[i].index, h[i].score) {
      assert h[i] in all;
      InRange(c, h[i]);
      ScoreIsOfHit(c, h[i].index, h[i].score);
    }
    forall r, score, i | 0 <= r < |c.rows| && IsScore(c, r, score) && 0 <= i < |h|
                         && (forall i | 0 <= i < |h| :: h[i].index != r)
      ensures h[i].score > score || (h[i].score == score && h[i].index < r)
    {
      ScoreIsOfHit(c, r, score);
      InRange(c, HitAt(c, r));
      var x := HitAt(c, r);
      assert x in all && x !in h;
      assert Before(h[i], x);
    }
  }

  lemma InRange(c: Corpus, x: Hit)
    ensures x in Range(c, 0, |c.rows|) <==> x.index < |c.rows| && x == HitAt(c, x.index)
  {
  }

  /** The search refines a full sort: it returns the first min(k, count) hits of
      any complete listing by descending score, ties by ascending index. */
  lemma SearchIsSortedPrefix(c: Corpus, k: nat, all: seq<Hit>)
    requires k > 0 && Ordered(all)
    requires forall x :: x in all <==> x in Range(c, 0, |c.rows|)
    ensures Scan(c, k, 0, |c.rows|) == all[..Min(k, |all|)]
  {
    ScanIsTopK(c, k, 0, |c.rows|);
    TopKIsSortedPrefix(Scan(c, k, 0, |c.rows|), Range(c, 0, |c.rows|), k, all);
  }

  /** The number of hits returned is min(k, count). */
  lemma SearchSize(c: Corpus, k: nat)
    requires k > 0
    ensures |Scan(c, k, 0, |c.rows|)| == Min(k, |c.rows|)
  {
    ScanIsTopK(c, k, 0, |c.rows|);
    TopKSize(Scan(c, k, 0, |c.rows|), Range(c, 0, |c.rows|), k);
    RangeSize(c, |c.rows|);
  }

  lemma {:induction false} RangeSize(c: Corpus, n: nat)
    requires n <= |c.rows|
    ensures |Range(c, 0, n)| == n
  {
    if n > 0 {
      RangeSize(c, n - 1);
      assert Range(c, 0, n) == Range(c, 0, n - 1) + {HitAt(c, n - 1)};
      assert HitAt(c, n - 1) !in Range(c, 0, n - 1);
    }
  }

  // ---------- dividing the rows ----------

  /** Where the range of thread `t` starts. */
  function Bound(count: nat, threads: nat, t: nat): nat
    requires threads > 0
  {
    if t == 0 then 0
    else Bound(count, threads, t - 1) + count / threads + (if t - 1 < count % threads then 1 else 0)
  }

  lemma OneMore(t: nat, quota: nat)
    requires t > 0
    ensures t * quota == (t - 1) * quota + quota
  {
  }

  lemma {:induction false} BoundIs(count: nat, threads: nat, t: nat)
    requires threads > 0
    ensures Bound(count, threads, t) == t * (count / threads) + Min(t, count % threads)
  {
    hide Bound;
    BoundZero(count, threads);
    if t > 0 {
      BoundIs(count, threads, t - 1);
      BoundStep(count, threads, t - 1, count / threads, count % threads);
      OneMore(t, count / threads);
    }
  }

  /** The ranges tile [0, count): the last one ends exactly at the last row. */
  lemma BoundsTile(count: nat, threads: nat)
    requires threads > 0
    ensures Bound(count, threads, threads) == count
  {
    BoundIs(count, threads, threads);
    assert count == threads * (count / threads) + count % threads;
  }

  lemma {:induction false} BoundMono(count: nat, threads: nat, s: nat, t: nat)
    requires threads > 0 && s <= t
    ensures Bound(count, threads, s) <= Bound(count, threads, t)
  {
    hide Bound;
    if s < t {
      BoundMono(count, threads, s, t - 1);
      BoundStep(count, threads, t - 1, count / threads, count % threads);
    }
  }

  /** A range of rows, and where the task's own k cells begin in the common buffer. */
  datatype Task = Task(start: nat, end: nat, local: nat)

  function TaskOf(count: nat, threads: nat, k: nat, t: nat): Task
    requires threads > 0
  {
    Task(Bound(count, threads, t), Bound(count, threads, t + 1), t * k)
  }

  /** The tasks' cells lie side by side in a buffer of threads * k cells. */
  lemma CellsApart(k: nat, threads: nat, s: nat, t: nat)
    requires s < t < threads
    ensures s * k + k <= t * k && t * k + k <= threads * k
  {
    CellsBehind(k, s, t);
    CellsBehind(k, t, threads);
  }

  lemma {:induction false} CellsBehind(k: nat, s: nat, t: nat)
    requires s < t
    ensures s * k + k <= t * k
  {
    assert t * k == (t - 1) * k + k;
    if s < t - 1 {
      CellsBehind(k, s, t - 1);
    }
  }

  lemma BoundZero(count: nat, threads: nat)
    requires threads > 0
    ensures Bound(count, threads, 0) == 0
  {
  }

  lemma BoundStep(count: nat, threads: nat, t: nat, quota: nat, rem: nat)
    requires threads > 0 && quota == count / threads && rem == count % threads
    ensures Bound(count, threads, t + 1) == Bound(count, threads, t) + quota + (if t < rem then 1 else 0)
  {
  }

  /** The partition loop of vdb_search_mt. */
  method MakeTasks(count: nat, threads: nat, k: nat) returns (tasks: array<Task>)
    requires threads > 0
    ensures fresh(tasks) && tasks.Length == threads
    ensures forall t | 0 <= t < threads :: tasks[t] == TaskOf(count, threads, k, t)
  {
    hide Bound;
    tasks := new Task[threads](_ => Task(0, 0, 0));
    var quota, rem := count / threads, count % threads;
    var start, t := 0, 0;
    BoundZero(count, threads);
    while t < threads
      invariant 0 <= t <= threads && start == Bound(count, threads, t)
      invariant forall s | 0 <= s < t :: tasks[s] == TaskOf(count, threads, k, s)
    {
      BoundStep(count, threads, t, quota, rem);
      var len := quota + (if t < rem then 1 else 0);
      tasks[t] := Task(start, start + len, t * k);
      start := start + len;
      t := t + 1;
    }
  }

  /** search_task: the task's cells get the top k of its range; nobody else's change. */
  method RunTask(c: Corpus, k: nat, task: Task, buf: array<Hit>) returns (n: nat)
    requires k > 0 && task.start <= task.end <= |c.rows| && task.local + k <= buf.Length
    modifies buf
    ensures n <= k && buf[task.local..task.local + n] == LocalScan(c, k, task)
    ensures forall i | 0 <= i < buf.Length && !(task.local <= i < task.local + k) :: buf[i] == old(buf[i])
  {
    n := ScanRange(c, task.start, task.end, k, buf, task.local);
  }

  // ---------- merging ----------

  function InsertAll(h: seq<Hit>, k: nat, xs: seq<Hit>): (r: seq<Hit>)
    requires k > 0 && |h| <= k
    ensures |r| <= k
  {
    if xs == [] then h else Insert(InsertAll(h, k, xs[..|xs| - 1]), k, xs[|xs| - 1])
  }

  /** The lists inserted one after another, each from its first entry on. */
  function MergeAll(k: nat, locals: seq<seq<Hit>>): (r: seq<Hit>)
    requires k > 0
    ensures |r| <= k
  {
    if locals == [] then [] else InsertAll(MergeAll(k, locals[..|locals| - 1]), k, locals[|locals| - 1])
  }

  lemma {:induction false} InsertAllKeepsTopK(h: seq<Hit>, first: set<Hit>, k: nat, xs: seq<Hit>)
    requires k > 0 && IsTopK(h, first, k) && Ordered(xs)
    requires forall y, i | y in first && 0 <= i < |xs| :: y.index < xs[i].index
    ensures IsTopK(InsertAll(h, k, xs), first + Members(xs), k)
  {
    if xs == [] {
      assert first + Members(xs) == first;
    } else {
      var init, x := xs[..|xs| - 1], xs[|xs| - 1];
      InsertAllKeepsTopK(h, first, k, init);
      assert Members(xs) == Members(init) + {x};
      assert forall i | 0 <= i < |init| :: Before(init[i], x);
      InsertKeepsTopK(InsertAll(h, k, init), first + Members(init), k, x);
      assert first + Members(init) + {x} == first + Members(xs);
    }
  }

  /** The best k of the best k are the best k: what a local list dropped, the
      merged list would drop too. */
  lemma TopKOfTopK(m: seq<Hit>, first: set<Hit>, l: seq<Hit>, second: set<Hit>, k: nat)
    requires IsTopK(m, first + Members(l), k) && IsTopK(l, second, k)
    ensures IsTopK(m, first + second, k)
  {
    assert Members(l) <= second;
    forall x | x in first + second && x !in m
      ensures |m| == k && forall i | 0 <= i < |m| :: Before(m[i], x)
    {
      if x in first || x in Members(l) {
        assert x in first + Members(l);
      } else {
        DroppedTwice(m, first, l, second, k, x);
      }
    }
  }

  lemma DroppedTwice(m: seq<Hit>, first: set<Hit>, l: seq<Hit>, second: set<Hit>, k: nat, x: Hit)
    requires IsTopK(m, first + Members(l), k) && IsTopK(l, second, k)
    requires x in second && x !in Members(l)
    ensures |m| == k && forall i | 0 <= i < |m| :: Before(m[i], x)
  {
    assert x !in l;
    if z :| z in l && z !in m {
      assert z in Members(l);
      var j :| 0 <= j < |l| && l[j] == z;
      assert Before(l[j], x);
    } else {
      assert Members(l) <= Members(m);
      MembersCount(l);
      MembersCount(m);
      SubsetCount(Members(l), Members(m));
      forall i | 0 <= i < |m| ensures Before(m[i], x) {
        assert m[i] in Members(m);
      }
    }
  }

  /** Merging the threads' lists, in thread order, gives the sequential result -
      ties included - for every number of threads, of rows and of hits kept. */
  lemma MergedIsSequential(c: Corpus, k: nat, threads: nat, locals: seq<seq<Hit>>)
    requires k > 0 && threads > 0 && |locals| == threads
    requires forall t | 0 <= t < threads ::
               locals[t] == LocalScan(c, k, TaskOf(|c.rows|, threads, k, t))
    ensures MergeAll(k, locals) == Scan(c, k, 0, |c.rows|)
  {
    MergedPrefix(c, k, threads, locals, threads);
    assert locals[..threads] == locals;
    BoundsTile(|c.rows|, threads);
    ScanIsTopK(c, k, 0, |c.rows|);
    TopKUnique(MergeAll(k, locals), Scan(c, k, 0, |c.rows|), Range(c, 0, |c.rows|), k);
  }

  /** What one task leaves in its private buffer. */
  function LocalScan(c: Corpus, k: nat, task: Task): seq<Hit>
    requires k > 0
  {
    if task.start <= task.end <= |c.rows| then Scan(c, k, task.start, task.end) else []
  }

  lemma {:induction false} MergedPrefix(c: Corpus, k: nat, threads: nat, locals: seq<seq<Hit>>, t: nat)
    requires k > 0 && threads > 0 && t <= |locals| == threads
    requires forall s | 0 <= s < threads ::
               locals[s] == LocalScan(c, k, TaskOf(|c.rows|, threads, k, s))
    ensures Bound(|c.rows|, threads, t) <= |c.rows|
    ensures IsTopK(MergeAll(k, locals[..t]), Range(c, 0, Bound(|c.rows|, threads, t)), k)
  {
    hide Bound, IsTopK, Range, Scan, InsertAll;
    BoundMono(|c.rows|, threads, t, threads);
    BoundsTile(|c.rows|, threads);
    if t == 0 {
      BoundZero(|c.rows|, threads);
      MergedNothing(c, k);
      assert locals[..t] == [];
    } else {
      MergedPrefix(c, k, threads, locals, t - 1);
      BoundMono(|c.rows|, threads, t - 1, t);
      assert locals[..t][..t - 1] == locals[..t - 1];
      MergeOne(c, k, MergeAll(k, locals[..t - 1]), Bound(|c.rows|, threads, t - 1), Bound(|c.rows|, threads, t));
    }
  }

  lemma MergedNothing(c: Corpus, k: nat)
    requires k > 0
    ensures IsTopK(MergeAll(k, []), Range(c, 0, 0), k)
  {
  }

  lemma MergeOne(c: Corpus, k: nat, m: seq<Hit>, lo: nat, hi: nat)
    requires k > 0 && lo <= hi <= |c.rows|
    requires IsTopK(m, Range(c, 0, lo), k)
    ensures IsTopK(InsertAll(m, k, Scan(c, k, lo, hi)), Range(c, 0, hi), k)
  {
    var l := Scan(c, k, lo, hi);
    ScanIsTopK(c, k, lo, hi);
    InsertAllKeepsTopK(m, Range(c, 0, lo), k, l);
    TopKOfTopK(InsertAll(m, k, l), Range(c, 0, lo), l, Range(c, lo, hi), k);
    assert Range(c, 0, hi) == Range(c, 0, lo) + Range(c, lo, hi);
  }

  /** The merge loop of vdb_search_mt. */
  method Merge(locals: seq<seq<Hit>>, k: nat, hits: array<Hit>) returns (n: nat)
    requires 0 < k <= hits.Length
    modifies hits
    ensures n <= k && hits[..n] == MergeAll(k, locals)
  {
    n := 0;
    var t := 0;
    while t < |locals|
      invariant 0 <= t <= |locals| && n <= k
      invariant hits[..n] == MergeAll(k, locals[..t])
    {
      assert locals[..t + 1][..t] == locals[..t];
      n := MergeLocal(locals[t], k, hits, n);
      t := t + 1;
    }
    assert locals[..t] == locals;
  }

  /** Its inner loop: every hit of one thread's list, in order. */
  method MergeLocal(local: seq<Hit>, k: nat, hits: array<Hit>, n0: nat) returns (n: nat)
    requires n0 <= k && 0 < k <= hits.Length
    modifies hits
    ensures n <= k && hits[..n] == InsertAll(old(hits[..n0]), k, local)
  {
    ghost var m := hits[..n0];
    n := n0;
    var r := 0;
    while r < |local|
      invariant 0 <= r <= |local| && n <= k
      invariant hits[..n] == InsertAll(m, k, local[..r])
    {
      InsertAllStep(m, k, local, r);
      assert hits[0..0 + n] == hits[..n];
      n := TopkInsert(hits, 0, n, k, local[r].score, local[r].index);
      assert hits[0..0 + n] == hits[..n];
      r := r + 1;
    }
    assert local[..r] == local;
  }

  lemma InsertAllStep(m: seq<Hit>, k: nat, local: seq<Hit>, r: nat)
    requires 0 < k && |m| <= k && r < |local|
    ensures InsertAll(m, k, local[..r + 1])
         == Insert(InsertAll(m, k, local[..r]), k, Hit(local[r].score, local[r].index))
  {
    assert local[..r + 1][..r] == local[..r];
  }
}
