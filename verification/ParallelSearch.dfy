/** The parallel search: its partition, run by the pool under any interleaving,
    then merged, gives the sequential result. */
module ParallelSearch {
  import opened Basics
  import opened TopK
  import opened Search
  import opened Pools
  import opened ThreadPools

  type SearchPool = Pool<Task, seq<Hit>>
  type SearchStep = Step<Task, seq<Hit>>

  /** search_task with the corpus and k that every task shares. */
  function SearchTask(c: Corpus, k: nat): Task -> seq<Hit>
    requires k > 0
  {
    (t: Task) => LocalScan(c, k, t)
  }

  /** The buffers the tasks have filled. */
  function Locals(out: seq<Option<seq<Hit>>>): seq<seq<Hit>>
    requires forall t | 0 <= t < |out| :: out[t].Some?
  {
    seq(|out|, t requires 0 <= t < |out| => out[t].value)
  }

  /** vdb_search_mt matches vdb_search exactly: for every corpus, rounding, k,
      number of threads and interleaving of the pool - from posting the search
      tasks to returning - merging the buffers gives the sequential hits. */
  lemma ParallelEqualsSequential(c: Corpus, k: nat, threads: nat,
                                 states: seq<SearchPool>, steps: seq<SearchStep>, tasks: seq<Task>)
    requires k > 0 && threads > 0
    requires |tasks| == threads && forall t | 0 <= t < threads :: tasks[t] == TaskOf(|c.rows|, threads, k, t)
    requires IsRun(states, steps) && Inv(states[0])
    requires |steps| > 1 && steps[0] == Post(SearchTask(c, k), tasks)
    requires forall n | 1 <= n < |steps| :: InBatch(states[n])
    requires !InBatch(states[|steps|])
    ensures var out := states[|steps|].out;
            && (forall t | 0 <= t < |out| :: out[t].Some?)
            && MergeAll(k, Locals(out)) == Scan(c, k, 0, |c.rows|)
  {
    hide Inv, MergeAll, Scan;
    PoolRunCorrect(states, steps, SearchTask(c, k), tasks);
    var out := states[|steps|].out;
    MergedIsSequential(c, k, threads, Locals(out));
  }

  /** vdb_search_mt on a pool object: partition, one pool_run under any schedule,
      merge. Its hits are those of vdb_search. */
  method VdbSearchMt(c: Corpus, k: nat, pool: ThreadPool<Task, seq<Hit>>, hits: array<Hit>,
                     schedule: nat -> SearchStep, wakeups: nat)
    returns (n: nat)
    requires 0 < k <= hits.Length
    requires pool.Valid() && Inv(pool.State()) && pool.caller.Idle? && pool.workers.Length > 0
    modifies pool, pool.workers, hits
    ensures n <= k && hits[..n] == Scan(c, k, 0, |c.rows|)
    ensures IsTopK(hits[..n], Range(c, 0, |c.rows|), k) && BestRows(c, k, hits[..n])
    ensures pool.Valid() && Inv(pool.State()) && pool.caller.Idle?
  {
    hide Inv, MergeAll, Scan, IsTopK, BestRows;
    var threads := pool.workers.Length;
    var tasks := MakeTasks(|c.rows|, threads, k);
    var results := new Option<seq<Hit>>[threads](_ => None);
    pool.RunBatch(SearchTask(c, k), tasks, results, schedule, wakeups);
    var locals := Locals(results[..]);
    MergedIsSequential(c, k, threads, locals);
    n := Merge(locals, k, hits);
    ScanIsTopK(c, k, 0, |c.rows|);
    ScanIsBest(c, k);
  }
}
