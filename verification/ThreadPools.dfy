/** The pool object: the program's own fields and arrays, with each critical section
    as a method that takes exactly one step of the state machine, and pool_run as the
    loop that lets a scheduler interleave them. */
module ThreadPools {
  import opened Basics
  import opened Pools

  class ThreadPool<A, R> {
    var fn: Option<A -> R>
    var args: array?<A>
    var ntasks: nat
    var next: nat
    var active: int
    var shutdown: bool

    /** Where each thread of the pool is in its loop, and where the caller is. */
    const workers: array<Worker<A, R>>
    var caller: Caller

    /** Where the tasks of the current batch leave their results. */
    var out: array<Option<R>>

    /** Whether the arguments are still the caller's, and how often each task has run. */
    ghost var live: bool
    ghost var runs: seq<nat>

    ghost predicate Valid()
      reads this
    {
      && (live ==> args != null)
      && (out as object) != workers
      && (args != null ==> (args as object) != workers && (args as object) != out)
    }

    /** The state of the state machine that this object is in. */
    ghost function State(): Pool<A, R>
      requires Valid()
      reads this, workers, out, args
    {
      Pool(fn, if live then args[..] else [], ntasks, next, active, shutdown, workers[..], caller, out[..], runs, false)
    }

    /** pool_create: at least one worker. */
    constructor (nthreads: int)
      ensures Valid() && fresh(workers) && fresh(out)
      ensures State() == Initial(if nthreads < 1 then 1 else nthreads)
      ensures Inv(State()) && workers.Length > 0
    {
      var n: nat := if nthreads < 1 then 1 else nthreads;
      fn, args, ntasks, next, active, shutdown := None, null, 0, 0, 0, false;
      workers := new Worker<A, R>[n](_ => Testing);
      out := new Option<R>[0];
      caller, live, runs := Idle, false, [];
      new;
      InitialInv<A, R>(n);
      assert workers[..] == Initial<A, R>(n).workers;
    }

    method SetWorker(w: nat, x: Worker<A, R>)
      requires w < workers.Length
      modifies workers
      ensures workers[..] == old(workers[..])[w := x]
    {
      workers[w] := x;
    }

    method BroadcastWork()
      modifies workers
      ensures workers[..] == WakeAll(old(workers[..]))
    {
      ghost var was := workers[..];
      var w := 0;
      while w < workers.Length
        invariant 0 <= w <= workers.Length == |was|
        invariant forall v | 0 <= v < |was| ::
          workers[v] == if v < w && was[v].Waiting? then Testing else was[v]
      {
        if workers[w].Waiting? {
          workers[w] := Testing;
        }
        w := w + 1;
      }
    }

    // ---------- a worker's steps ----------

    /** Under the lock: wait, return, or claim an index. */
    method WorkerTest(w: nat)
      requires Valid() && Inv(State()) && Enabled(State(), Test(w))
      modifies this, workers
      ensures Valid() && Inv(State()) && State() == Apply(old(State()), Test(w))
      ensures out == old(out) && args == old(args) && live == old(live)
    {
      hide Inv;
      StepKeepsInv(State(), Test(w));
      if next >= ntasks && !shutdown {
        SetWorker(w, Waiting);
      } else if shutdown {
        SetWorker(w, Exited);
      } else {
        var i := next;
        next := next + 1;
        SetWorker(w, Claimed(i));
      }
    }

    /** The first unlocked step: read fn and args[i]. */
    method WorkerFetch(w: nat)
      requires Valid() && Inv(State()) && Enabled(State(), Fetch(w))
      modifies workers
      ensures Valid() && Inv(State()) && State() == Apply(old(State()), Fetch(w))
    {
      hide Inv;
      FetchFindsTask(State(), w);
      StepKeepsInv(State(), Fetch(w));
      var i := workers[w].i;
      SetWorker(w, Fetched(i, fn.value, args[i]));
    }

    /** The second: call the function; its result goes to its own place. */
    method WorkerRun(w: nat)
      requires Valid() && Inv(State()) && Enabled(State(), Run(w))
      modifies `runs, workers, out
      ensures Valid() && Inv(State()) && State() == Apply(old(State()), Run(w))
    {
      hide Inv;
      RunFindsPlace(State(), w);
      StepKeepsInv(State(), Run(w));
      ghost var was := out[..];
      var Fetched(i, f, arg) := workers[w];
      out[i] := Some(f(arg));
      assert out[..] == was[i := Some(f(arg))];
      runs := runs[i := runs[i] + 1];
      SetWorker(w, Ran(i));
    }

    /** Under the lock: one task less, and a signal with the last one. */
    method WorkerFinish(w: nat)
      requires Valid() && Inv(State()) && Enabled(State(), Finish(w))
      modifies `active, `caller, workers
      ensures Valid() && Inv(State()) && State() == Apply(old(State()), Finish(w))
    {
      hide Inv;
      StepKeepsInv(State(), Finish(w));
      active := active - 1;
      if active == 0 && caller.Blocked? {
        caller := Woken;
      }
      SetWorker(w, Testing);
    }

    // ---------- the caller's steps ----------

    /** pool_run up to its first wait. */
    method PostBatch(f: A -> R, batch: array<A>, results: array<Option<R>>)
      requires Valid() && Inv(State()) && Enabled(State(), Post(f, batch[..]))
      requires (batch as object) != workers && (results as object) != workers && (batch as object) != results
      requires results.Length == batch.Length && forall i | 0 <= i < results.Length :: results[i] == None
      modifies this, workers
      ensures Valid() && Inv(State()) && State() == Apply(old(State()), Post(f, batch[..]))
      ensures live && args == batch && out == results
    {
      hide Inv;
      StepKeepsInv(State(), Post(f, batch[..]));
      fn := Some(f);
      args := batch;
      ntasks := batch.Length;
      next := 0;
      active := batch.Length;
      out := results;
      live, runs := true, seq(batch.Length, _ => 0);
      BroadcastWork();
      caller := Blocked;
      assert out[..] == seq(batch.Length, _ => None);
    }

    /** The caller tests again, and returns when nothing is active. */
    method CallerRecheck()
      requires Valid() && Inv(State()) && Enabled(State(), Recheck)
      modifies `caller, `live
      ensures Valid() && Inv(State()) && State() == Apply(old(State()), Recheck)
    {
      hide Inv;
      StepKeepsInv(State(), Recheck);
      if active > 0 {
        caller := Blocked;
      } else {
        caller := Idle;
        live := false;
      }
    }

    method BeginDestroy()
      requires Valid() && Inv(State()) && Enabled(State(), Destroy)
      modifies this, workers
      ensures Valid() && Inv(State()) && State() == Apply(old(State()), Destroy)
    {
      hide Inv;
      StepKeepsInv(State(), Destroy);
      shutdown := true;
      BroadcastWork();
      caller := Joining;
    }

    // ---------- pool_run ----------

    /** Whether this step of a running batch can be taken now. */
    method CanTake(step: Step<A, R>) returns (b: bool)
      requires Valid() && InBatch(State())
      ensures b <==> Enabled(State(), step)
    {
      match step
      case Test(w) => b := w < workers.Length && workers[w].Testing?;
      case Fetch(w) => b := w < workers.Length && workers[w].Claimed?;
      case Run(w) => b := w < workers.Length && workers[w].Fetched?;
      case Finish(w) => b := w < workers.Length && workers[w].Ran?;
      case Recheck => b := caller.Woken?;
      case SpuriousWorker(w) => b := w < workers.Length && workers[w].Waiting?;
      case SpuriousCaller => b := caller.Blocked?;
      case _ => b := false;
    }

    /** Take it, whichever thread it belongs to. */
    method Take(step: Step<A, R>)
      requires Valid() && Inv(State()) && InBatch(State()) && Enabled(State(), step)
      modifies this, workers, out
      ensures Valid() && Inv(State()) && State() == Apply(old(State()), step)
      ensures out == old(out)
    {
      hide Inv;
      match step
      case Test(w) => WorkerTest(w);
      case Fetch(w) => WorkerFetch(w);
      case Run(w) => WorkerRun(w);
      case Finish(w) => WorkerFinish(w);
      case Recheck => CallerRecheck();
      case SpuriousWorker(w) =>
        StepKeepsInv(State(), step);
        SetWorker(w, Testing);
      case SpuriousCaller =>
        StepKeepsInv(State(), step);
        caller := Woken;
    }

    /** Some thread that can go on without a spurious wakeup. */
    method AnyStep() returns (step: Step<A, R>)
      requires Valid() && Inv(State()) && InBatch(State()) && workers.Length > 0
      ensures Enabled(State(), step) && !step.Spurious() && !step.Post? && !step.Destroy?
    {
      if caller.Woken? {
        return Recheck;
      }
      var w := 0;
      while w < workers.Length && !workers[w].Busy() && !workers[w].Testing?
        invariant 0 <= w <= workers.Length
        invariant forall x | 0 <= x < w :: !workers[x].Busy() && !workers[x].Testing?
      {
        w := w + 1;
      }
      SomeoneWorks(State());
      match workers[w]
      case Claimed(_) => step := Fetch(w);
      case Fetched(_, _, _) => step := Run(w);
      case Ran(_) => step := Finish(w);
      case Testing => step := Test(w);
    }

    /** pool_run: post the batch and wait, while `schedule` says which thread goes
        next and up to `wakeups` spurious wakeups happen. Whatever the schedule, it
        returns, and each task's result is in its place. */
    method RunBatch(f: A -> R, batch: array<A>, results: array<Option<R>>,
                    schedule: nat -> Step<A, R>, wakeups: nat)
      requires Valid() && Inv(State()) && caller.Idle? && workers.Length > 0
      requires (batch as object) != workers && (results as object) != workers && (batch as object) != results
      requires results.Length == batch.Length && forall i | 0 <= i < results.Length :: results[i] == None
      modifies this, workers, results
      ensures Valid() && Inv(State()) && caller.Idle?
      ensures forall j | 0 <= j < batch.Length :: results[j] == Some(f(batch[j]))
      ensures batch.Length > 0 ==> runs == seq(batch.Length, _ => 1)
    {
      hide Inv, Apply, Remaining;
      if batch.Length == 0 {
        return;
      }
      ghost var tasks := batch[..];
      PostStarts(State(), f, tasks);
      PostBatch(f, batch, results);
      var n, left := 0, wakeups;
      while !caller.Idle?
        invariant Valid() && Inv(State()) && out == results && batch[..] == tasks
        invariant if caller.Idle? then BatchDone(State(), f, tasks)
                  else InBatch(State()) && State().fn == Some(f) && State().args == tasks
        decreases !caller.Idle?, Remaining(State()) + 2 * left
      {
        var step := schedule(n);
        var can := CanTake(step);
        if !can || (step.Spurious() && left == 0) {
          step := AnyStep();
        }
        if step.Spurious() {
          left := left - 1;
        }
        StepInBatch(State(), step, f, tasks);
        Take(step);
        n := n + 1;
      }
    }
  }

  /** Every task of the batch has run once and left its result. */
  ghost predicate BatchDone<A, R>(s: Pool<A, R>, f: A -> R, tasks: seq<A>) {
    && s.caller.Idle? && |s.out| == |tasks|
    && s.runs == seq(|tasks|, _ => 1)
    && forall j | 0 <= j < |tasks| :: s.out[j] == Some(f(tasks[j]))
  }

  lemma PostStarts<A, R>(s: Pool<A, R>, f: A -> R, tasks: seq<A>)
    requires s.caller.Idle? && |tasks| > 0
    ensures var t := Apply(s, Post(f, tasks));
            InBatch(t) && t.fn == Some(f) && t.args == tasks
  {
  }

  /** A step of a running batch leaves it running, or ends it with everything done. */
  lemma StepInBatch<A, R>(s: Pool<A, R>, step: Step<A, R>, f: A -> R, tasks: seq<A>)
    requires Inv(s) && InBatch(s) && s.fn == Some(f) && s.args == tasks && Enabled(s, step)
    ensures var t := Apply(s, step);
            && (if t.caller.Idle? then BatchDone(t, f, tasks)
                else InBatch(t) && t.fn == Some(f) && t.args == tasks)
            && Remaining(s) >= 0 && Remaining(t) <= Remaining(s) + (if step.Spurious() then 1 else -1)
  {
    BatchKeepsTask(s, step);
    StepMakesProgress(s, step);
    RemainingIsNat(s);
    if !InBatch(Apply(s, step)) {
      NothingActiveMeansDone(s);
    }
  }

  lemma SomeoneWorks<A, R>(s: Pool<A, R>)
    requires Inv(s) && s.caller.Blocked? && |s.workers| > 0
    ensures exists w | 0 <= w < |s.workers| :: s.workers[w].Busy() || s.workers[w].Testing?
  {
    if forall w | 0 <= w < |s.workers| :: !s.workers[w].Busy() {
      NobodyBusy(s.workers);
      assert s.workers[0].Testing?;
    }
  }
}
