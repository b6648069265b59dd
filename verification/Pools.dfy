/** The worker pool as a state machine. One step is one critical section of a
    worker or of the caller, or one piece of unlocked work; any interleaving of
    steps, with spurious wakeups, is a run. */
module Pools {
  import opened Basics

  /** Where a worker is: about to test for work under the lock, waiting on
      cond_work, holding a claimed index, holding what it read through the pool
      without the lock, done running but not yet counted, or returned. */
  datatype Worker<!A, R> =
    | Testing | Waiting | Claimed(i: nat) | Fetched(i: nat, fn: A -> R, arg: A) | Ran(i: nat) | Exited
  {
    predicate Busy() { Claimed? || Fetched? || Ran? }
    predicate Holds(j: nat) { (Claimed? || Fetched?) && i == j }
  }

  /** The one caller: outside the pool, waiting on cond_done, about to test again,
      joining the workers, or past pool_destroy. */
  datatype Caller = Idle | Blocked | Woken | Joining | Gone

  datatype Pool<!A, R> = Pool(
    fn: Option<A -> R>, args: seq<A>, ntasks: nat, next: nat, active: int, shutdown: bool,
    workers: seq<Worker<A, R>>, caller: Caller,
    out: seq<Option<R>>, runs: seq<nat>, fault: bool)

  datatype Step<!A, R> =
    | Test(w: nat) | Fetch(w: nat) | Run(w: nat) | Finish(w: nat)
    | Post(fn: A -> R, args: seq<A>) | Recheck | Destroy | Join
    | SpuriousWorker(w: nat) | SpuriousCaller
  {
    predicate Spurious() { SpuriousWorker? || SpuriousCaller? }
  }

  // ---------- steps ----------

  function Initial<A, R>(threads: nat): Pool<A, R> {
    Pool(None, [], 0, 0, 0, false, seq(threads, _ => Testing), Idle, [], [], false)
  }

  /** pthread_cond_broadcast(cond_work). */
  function WakeAll<A, R>(ws: seq<Worker<A, R>>): (r: seq<Worker<A, R>>)
    ensures |r| == |ws|
    ensures forall w | 0 <= w < |ws| :: r[w] == if ws[w].Waiting? then Testing else ws[w]
  {
    seq(|ws|, w requires 0 <= w < |ws| => if ws[w].Waiting? then Testing else ws[w])
  }

  predicate Enabled<A, R>(s: Pool<A, R>, step: Step<A, R>) {
    match step
    case Test(w) => w < |s.workers| && s.workers[w].Testing?
    case Fetch(w) => w < |s.workers| && s.workers[w].Claimed?
    case Run(w) => w < |s.workers| && s.workers[w].Fetched?
    case Finish(w) => w < |s.workers| && s.workers[w].Ran?
    case Post(fn, args) => s.caller.Idle? && |args| > 0
    case Recheck => s.caller.Woken?
    case Destroy => s.caller.Idle?
    case Join => s.caller.Joining? && forall w | 0 <= w < |s.workers| :: s.workers[w].Exited?
    case SpuriousWorker(w) => w < |s.workers| && s.workers[w].Waiting?
    case SpuriousCaller => s.caller.Blocked?
  }

  /** Lock, test, and wait, exit or claim. */
  function TestStep<A, R>(s: Pool<A, R>, w: nat): Pool<A, R>
    requires w < |s.workers|
  {
    if s.shutdown then s.(workers := s.workers[w := Exited])
    else if s.next >= s.ntasks then s.(workers := s.workers[w := Waiting])
    else s.(workers := s.workers[w := Claimed(s.next)], next := s.next + 1)
  }

  /** Read fn and args[i] without the lock: whatever they are by now. Reading what
      is no longer there is a fault. */
  function FetchStep<A, R>(s: Pool<A, R>, w: nat): Pool<A, R>
    requires w < |s.workers| && s.workers[w].Claimed?
  {
    var i := s.workers[w].i;
    if s.fn.Some? && i < |s.args| then s.(workers := s.workers[w := Fetched(i, s.fn.value, s.args[i])])
    else s.(fault := true)
  }

  /** Run the task: its result lands in its own place. */
  function RunStep<A, R>(s: Pool<A, R>, w: nat): Pool<A, R>
    requires w < |s.workers| && s.workers[w].Fetched?
  {
    var Fetched(i, fn, arg) := s.workers[w];
    if i < |s.out| && i < |s.runs| then
      s.(workers := s.workers[w := Ran(i)], out := s.out[i := Some(fn(arg))], runs := s.runs[i := s.runs[i] + 1])
    else s.(fault := true)
  }

  /** Lock, count the task as finished, and signal cond_done with the last one. */
  function FinishStep<A, R>(s: Pool<A, R>, w: nat): Pool<A, R>
    requires w < |s.workers|
  {
    s.(workers := s.workers[w := Testing], active := s.active - 1,
       caller := if s.active - 1 == 0 && s.caller.Blocked? then Woken else s.caller)
  }

  /** pool_run up to its first wait: the batch is published and everyone woken. */
  function PostStep<A, R>(s: Pool<A, R>, fn: A -> R, args: seq<A>): Pool<A, R> {
    s.(fn := Some(fn), args := args, ntasks := |args|, next := 0, active := |args|,
       workers := WakeAll(s.workers), caller := Blocked,
       out := seq(|args|, _ => None), runs := seq(|args|, _ => 0))
  }

  /** The caller tests again: it waits on, or returns and frees the arguments. */
  function RecheckStep<A, R>(s: Pool<A, R>): Pool<A, R> {
    if s.active > 0 then s.(caller := Blocked) else s.(caller := Idle, args := [])
  }

  function DestroyStep<A, R>(s: Pool<A, R>): Pool<A, R> {
    s.(shutdown := true, workers := WakeAll(s.workers), caller := Joining)
  }

  function Apply<A, R>(s: Pool<A, R>, step: Step<A, R>): Pool<A, R>
    requires Enabled(s, step)
  {
    match step
    case Test(w) => TestStep(s, w)
    case Fetch(w) => FetchStep(s, w)
    case Run(w) => RunStep(s, w)
    case Finish(w) => FinishStep(s, w)
    case Post(fn, args) => PostStep(s, fn, args)
    case Recheck => RecheckStep(s)
    case Destroy => DestroyStep(s)
    case Join => s.(caller := Gone)
    case SpuriousWorker(w) => s.(workers := s.workers[w := Testing])
    case SpuriousCaller => s.(caller := Woken)
  }

  /** `states` is a run taking `steps`, one after another. */
  ghost predicate IsRun<A, R>(states: seq<Pool<A, R>>, steps: seq<Step<A, R>>) {
    && |states| == |steps| + 1
    && forall n | 0 <= n < |steps| :: Enabled(states[n], steps[n]) && states[n + 1] == Apply(states[n], steps[n])
  }

  // ---------- the invariant ----------

  function BusyCount<A, R>(ws: seq<Worker<A, R>>): nat {
    if ws == [] then 0 else BusyCount(ws[..|ws| - 1]) + (if ws[|ws| - 1].Busy() then 1 else 0)
  }

  predicate InBatch<A, R>(s: Pool<A, R>) {
    s.caller.Blocked? || s.caller.Woken?
  }

  /** Every task is unclaimed, in some worker's hands, or finished and counted. */
  ghost predicate Counted<A, R>(s: Pool<A, R>) {
    && s.next <= s.ntasks
    && s.active == s.ntasks - s.next + BusyCount(s.workers)
    && (!InBatch(s) ==> s.active == 0)
    && (InBatch(s) ==> s.fn.Some? && |s.args| == |s.out| == |s.runs| == s.ntasks)
  }

  /** What the workers hold belongs to the current batch, and to one worker each. */
  ghost predicate Holding<A, R>(s: Pool<A, R>) {
    && (forall w | 0 <= w < |s.workers| && s.workers[w].Busy() :: s.workers[w].i < s.next)
    && (forall w | 0 <= w < |s.workers| && s.workers[w].Fetched? ::
          && InBatch(s) && s.workers[w].i < |s.args|
          && s.fn == Some(s.workers[w].fn) && s.workers[w].arg == s.args[s.workers[w].i])
    && (forall v, w | 0 <= v < w < |s.workers| && s.workers[v].Busy() && s.workers[w].Busy() ::
          s.workers[v].i != s.workers[w].i)
  }

  ghost predicate Held<A, R>(s: Pool<A, R>, j: nat) {
    exists w :: 0 <= w < |s.workers| && s.workers[w].Holds(j)
  }

  /** Task `j` has run exactly once, with this batch's function and argument, if it
      has been claimed and let go; otherwise it has not run. */
  ghost predicate TaskOk<A, R>(s: Pool<A, R>, j: nat)
    requires s.fn.Some? && j < |s.args| == |s.out| == |s.runs|
  {
    if j < s.next && !Held(s, j) then s.runs[j] == 1 && s.out[j] == Some((s.fn.value)(s.args[j]))
    else s.runs[j] == 0
  }

  ghost predicate TasksOk<A, R>(s: Pool<A, R>) {
    InBatch(s) && s.fn.Some? && |s.args| == |s.out| == |s.runs| ==>
      forall j | 0 <= j < |s.args| :: TaskOk(s, j)
  }

  /** No lost wakeup: whoever waits has something to wait for. */
  ghost predicate WaitsRight<A, R>(s: Pool<A, R>) {
    && (forall w | 0 <= w < |s.workers| && s.workers[w].Waiting? :: s.next >= s.ntasks && !s.shutdown)
    && (s.caller.Blocked? ==> s.active > 0)
    && (s.shutdown <==> s.caller.Joining? || s.caller.Gone?)
    && (forall w | 0 <= w < |s.workers| && s.workers[w].Exited? :: s.shutdown)
    && (s.caller.Gone? ==> forall w | 0 <= w < |s.workers| :: s.workers[w].Exited?)
  }

  ghost predicate Inv<A, R>(s: Pool<A, R>) {
    !s.fault && Counted(s) && Holding(s) && TasksOk(s) && WaitsRight(s)
  }

  lemma {:induction false} BusyUpdate<A, R>(ws: seq<Worker<A, R>>, w: nat, x: Worker<A, R>)
    requires w < |ws|
    ensures BusyCount(ws[w := x])
         == BusyCount(ws) - (if ws[w].Busy() then 1 else 0) + (if x.Busy() then 1 else 0)
  {
    var last := |ws| - 1;
    if w == last {
      assert ws[w := x][..last] == ws[..last];
    } else {
      assert ws[w := x][..last] == ws[..last][w := x];
      BusyUpdate(ws[..last], w, x);
    }
  }

  lemma {:induction false} SameBusy<A, R>(ws: seq<Worker<A, R>>, xs: seq<Worker<A, R>>)
    requires |ws| == |xs| && forall w | 0 <= w < |ws| :: ws[w].Busy() == xs[w].Busy()
    ensures BusyCount(ws) == BusyCount(xs)
  {
    if ws != [] {
      SameBusy(ws[..|ws| - 1], xs[..|xs| - 1]);
    }
  }

  lemma {:induction false} BusyWorkerCounts<A, R>(ws: seq<Worker<A, R>>, w: nat)
    requires w < |ws| && ws[w].Busy()
    ensures BusyCount(ws) >= 1
  {
    if w < |ws| - 1 {
      BusyWorkerCounts(ws[..|ws| - 1], w);
    }
  }

  lemma {:induction false} NobodyBusy<A, R>(ws: seq<Worker<A, R>>)
    requires forall w | 0 <= w < |ws| :: !ws[w].Busy()
    ensures BusyCount(ws) == 0
  {
    if ws != [] {
      NobodyBusy(ws[..|ws| - 1]);
    }
  }

  lemma InitialInv<A, R>(threads: nat)
    ensures Inv(Initial<A, R>(threads))
  {
    NobodyBusy(Initial<A, R>(threads).workers);
  }

  /** A worker with a task in hand means the batch is still on. */
  lemma BusyMeansBatch<A, R>(s: Pool<A, R>, w: nat)
    requires Inv(s) && w < |s.workers| && s.workers[w].Busy()
    ensures InBatch(s) && s.active > 0 && s.workers[w].i < |s.args| && !s.shutdown
  {
    BusyWorkerCounts(s.workers, w);
  }

  // ---------- every step keeps it ----------

  lemma StepKeepsInv<A, R>(s: Pool<A, R>, step: Step<A, R>)
    requires Inv(s) && Enabled(s, step)
    ensures Inv(Apply(s, step))
  {
    hide Inv, TestStep, FetchStep, RunStep, FinishStep, PostStep, RecheckStep, DestroyStep;
    match step
    case Test(w) => TestKeepsInv(s, w);
    case Fetch(w) => FetchKeepsInv(s, w);
    case Run(w) => RunKeepsInv(s, w);
    case Finish(w) => FinishKeepsInv(s, w);
    case Post(fn, args) => PostKeepsInv(s, fn, args);
    case Recheck => RecheckKeepsInv(s);
    case Destroy => DestroyKeepsInv(s);
    case Join => CallerMovesOn(s, Gone);
    case SpuriousWorker(w) => SpuriousKeepsInv(s, w);
    case SpuriousCaller => CallerMovesOn(s, Woken);
  }

  lemma CallerMovesOn<A, R>(s: Pool<A, R>, c: Caller)
    requires Inv(s)
    requires s.caller.Joining? && c.Gone? ==> forall w | 0 <= w < |s.workers| :: s.workers[w].Exited?
    requires (s.caller.Joining? && c.Gone?) || (s.caller.Blocked? && c.Woken?)
    ensures Inv(s.(caller := c))
  {
    var t := s.(caller := c);
    if InBatch(s) {
      forall j | 0 <= j < |s.args| ensures TaskOk(t, j) {
        assert TaskOk(s, j);
        assert Held(t, j) <==> Held(s, j);
      }
    }
  }

  lemma SpuriousKeepsInv<A, R>(s: Pool<A, R>, w: nat)
    requires Inv(s) && w < |s.workers| && s.workers[w].Waiting?
    ensures Inv(s.(workers := s.workers[w := Testing]))
  {
    BusyUpdate(s.workers, w, Testing);
    QuietUpdate(s, w, Testing);
  }

  /** Moving a worker between two states in which it holds nothing. */
  lemma QuietUpdate<A, R>(s: Pool<A, R>, w: nat, x: Worker<A, R>)
    requires Holding(s) && TasksOk(s) && w < |s.workers|
    requires !s.workers[w].Claimed? && !s.workers[w].Fetched? && !x.Busy()
    ensures Holding(s.(workers := s.workers[w := x])) && TasksOk(s.(workers := s.workers[w := x]))
  {
    var t := s.(workers := s.workers[w := x]);
    if InBatch(s) && s.fn.Some? && |s.args| == |s.out| == |s.runs| {
      forall j | 0 <= j < |s.args| ensures TaskOk(t, j) {
        HeldElsewhere(s, t, w, j);
        assert TaskOk(s, j);
      }
    }
  }

  lemma HeldElsewhere<A, R>(s: Pool<A, R>, t: Pool<A, R>, w: nat, j: nat)
    requires |s.workers| == |t.workers| && w < |s.workers|
    requires forall v | 0 <= v < |s.workers| && v != w :: t.workers[v] == s.workers[v]
    requires s.workers[w].Holds(j) <==> t.workers[w].Holds(j)
    ensures Held(t, j) <==> Held(s, j)
  {
    if Held(s, j) {
      var v :| 0 <= v < |s.workers| && s.workers[v].Holds(j);
      assert t.workers[v].Holds(j);
    }
    if Held(t, j) {
      var v :| 0 <= v < |t.workers| && t.workers[v].Holds(j);
      assert s.workers[v].Holds(j);
    }
  }

  lemma TestKeepsInv<A, R>(s: Pool<A, R>, w: nat)
    requires Inv(s) && w < |s.workers| && s.workers[w].Testing?
    ensures Inv(TestStep(s, w))
  {
    if s.shutdown {
      BusyUpdate(s.workers, w, Exited);
      QuietUpdate(s, w, Exited);
    } else if s.next >= s.ntasks {
      BusyUpdate(s.workers, w, Waiting);
      QuietUpdate(s, w, Waiting);
    } else {
      ClaimKeepsTasks(s, w);
      ClaimKeepsRest(s, w);
    }
  }

  lemma ClaimKeepsRest<A, R>(s: Pool<A, R>, w: nat)
    requires Inv(s) && w < |s.workers| && s.workers[w].Testing? && !s.shutdown && s.next < s.ntasks
    ensures var t := TestStep(s, w); !t.fault && Counted(t) && Holding(t) && WaitsRight(t)
  {
    hide TasksOk;
    BusyUpdate(s.workers, w, Claimed(s.next));
  }

  lemma ClaimKeepsTasks<A, R>(s: Pool<A, R>, w: nat)
    requires Inv(s) && w < |s.workers| && s.workers[w].Testing? && !s.shutdown && s.next < s.ntasks
    ensures TasksOk(TestStep(s, w))
  {
    var t := TestStep(s, w);
    if InBatch(s) {
      forall j | 0 <= j < |s.args| ensures TaskOk(t, j) {
        if j == s.next {
          assert t.workers[w].Holds(j);
        } else {
          HeldElsewhere(s, t, w, j);
        }
        assert TaskOk(s, j);
      }
    }
  }

  lemma FetchKeepsInv<A, R>(s: Pool<A, R>, w: nat)
    requires Inv(s) && w < |s.workers| && s.workers[w].Claimed?
    ensures Inv(FetchStep(s, w))
  {
    BusyMeansBatch(s, w);
    var i := s.workers[w].i;
    var t := FetchStep(s, w);
    BusyUpdate(s.workers, w, t.workers[w]);
    forall j | 0 <= j < |s.args| ensures TaskOk(t, j) {
      HeldElsewhere(s, t, w, j);
      assert TaskOk(s, j);
    }
  }

  lemma RunKeepsInv<A, R>(s: Pool<A, R>, w: nat)
    requires Inv(s) && w < |s.workers| && s.workers[w].Fetched?
    ensures Inv(RunStep(s, w))
  {
    BusyMeansBatch(s, w);
    var i := s.workers[w].i;
    var t := RunStep(s, w);
    BusyUpdate(s.workers, w, Ran(i));
    forall j | 0 <= j < |s.args| ensures TaskOk(t, j) {
      assert TaskOk(s, j);
      if j == i {
        assert s.workers[w].Holds(j);
        assert !Held(t, j);
      } else {
        HeldElsewhere(s, t, w, j);
      }
    }
  }

  lemma FinishKeepsInv<A, R>(s: Pool<A, R>, w: nat)
    requires Inv(s) && w < |s.workers| && s.workers[w].Ran?
    ensures Inv(FinishStep(s, w))
  {
    BusyMeansBatch(s, w);
    BusyUpdate(s.workers, w, Testing);
    QuietUpdate(s, w, Testing);
    var t := s.(workers := s.workers[w := Testing]);
    forall j | 0 <= j < |s.args| ensures TaskOk(FinishStep(s, w), j) {
      assert TaskOk(t, j);
      HeldElsewhere(t, FinishStep(s, w), w, j);
    }
  }

  lemma PostKeepsInv<A, R>(s: Pool<A, R>, fn: A -> R, args: seq<A>)
    requires Inv(s) && s.caller.Idle? && |args| > 0
    ensures Inv(PostStep(s, fn, args))
  {
    var t := PostStep(s, fn, args);
    forall w | 0 <= w < |s.workers| ensures !s.workers[w].Busy() {
      if s.workers[w].Busy() {
        BusyWorkerCounts(s.workers, w);
      }
    }
    NobodyBusy(t.workers);
  }

  lemma RecheckKeepsInv<A, R>(s: Pool<A, R>)
    requires Inv(s) && s.caller.Woken?
    ensures Inv(RecheckStep(s))
  {
    var t := RecheckStep(s);
    if s.active > 0 {
      forall j | 0 <= j < |s.args| ensures TaskOk(t, j) {
        assert TaskOk(s, j);
        assert Held(t, j) <==> Held(s, j);
      }
    } else {
      forall w | 0 <= w < |s.workers| ensures !s.workers[w].Busy() {
        if s.workers[w].Busy() {
          BusyWorkerCounts(s.workers, w);
        }
      }
    }
  }

  lemma DestroyKeepsInv<A, R>(s: Pool<A, R>)
    requires Inv(s) && s.caller.Idle?
    ensures Inv(DestroyStep(s))
  {
    SameBusy(s.workers, WakeAll(s.workers));
    forall w | 0 <= w < |s.workers| ensures !s.workers[w].Busy() {
      if s.workers[w].Busy() {
        BusyWorkerCounts(s.workers, w);
      }
    }
  }

  /** Pool safety: the invariant holds in every state of every run, through any
      number of batches. */
  lemma {:induction false} RunKeepsInvThroughout<A, R>(states: seq<Pool<A, R>>, steps: seq<Step<A, R>>, n: nat)
    requires IsRun(states, steps) && Inv(states[0]) && n < |states|
    ensures Inv(states[n])
  {
    if n > 0 {
      RunKeepsInvThroughout(states, steps, n - 1);
      StepKeepsInv(states[n - 1], steps[n - 1]);
    }
  }

  // ---------- what pool_run promises ----------

  /** A batch keeps its function and arguments until pool_run returns, and it
      returns only from a state with no task left. */
  lemma BatchKeepsTask<A, R>(s: Pool<A, R>, step: Step<A, R>)
    requires Inv(s) && InBatch(s) && Enabled(s, step)
    ensures var t := Apply(s, step);
            if InBatch(t) then t.fn == s.fn && t.args == s.args
            else step.Recheck? && s.active == 0 && t.caller.Idle?
  {
  }

  /** When the caller finds nothing active, every task has run exactly once, with
      this batch's function and argument, and no worker still has one in hand. */
  lemma NothingActiveMeansDone<A, R>(s: Pool<A, R>)
    requires Inv(s) && InBatch(s) && s.active == 0
    ensures s.fn.Some? && |s.args| == |s.out| == |s.runs|
    ensures forall j | 0 <= j < |s.args| :: s.runs[j] == 1 && s.out[j] == Some((s.fn.value)(s.args[j]))
    ensures forall w | 0 <= w < |s.workers| :: !s.workers[w].Busy()
  {
    forall w | 0 <= w < |s.workers| ensures !s.workers[w].Busy() {
      if s.workers[w].Busy() {
        BusyWorkerCounts(s.workers, w);
      }
    }
    forall j | 0 <= j < |s.args| ensures s.runs[j] == 1 && s.out[j] == Some((s.fn.value)(s.args[j])) {
      assert TaskOk(s, j);
    }
  }

  /** pool_run, over any interleaving: from the moment it posts a batch to the
      moment it returns, each task index has been run exactly once, and its result
      is that of the posted function on the posted argument. */
  lemma PoolRunCorrect<A, R>(states: seq<Pool<A, R>>, steps: seq<Step<A, R>>, fn: A -> R, args: seq<A>)
    requires IsRun(states, steps) && Inv(states[0])
    requires |steps| > 1 && steps[0] == Post(fn, args)
    requires forall n | 1 <= n < |steps| :: InBatch(states[n])
    requires !InBatch(states[|steps|])
    ensures var t := states[|steps|];
            && |t.out| == |t.runs| == |args|
            && forall j | 0 <= j < |args| :: t.runs[j] == 1 && t.out[j] == Some(fn(args[j]))
  {
    var last := |steps| - 1;
    StepKeepsInv(states[0], steps[0]);
    BatchIsPosted(states, steps, fn, args, last);
    BatchKeepsTask(states[last], steps[last]);
    NothingActiveMeansDone(states[last]);
  }

  lemma {:induction false} BatchIsPosted<A, R>(states: seq<Pool<A, R>>, steps: seq<Step<A, R>>, fn: A -> R,
                                                 args: seq<A>, n: nat)
    requires IsRun(states, steps) && Inv(states[0])
    requires |steps| > 1 && steps[0] == Post(fn, args)
    requires forall n | 1 <= n < |steps| :: InBatch(states[n])
    requires 1 <= n < |steps|
    ensures Inv(states[n]) && states[n].fn == Some(fn) && states[n].args == args
  {
    if n == 1 {
      StepKeepsInv(states[0], steps[0]);
    } else {
      BatchIsPosted(states, steps, fn, args, n - 1);
      StepKeepsInv(states[n - 1], steps[n - 1]);
      BatchKeepsTask(states[n - 1], steps[n - 1]);
    }
  }

  // ---------- progress ----------

  function Weight<A, R>(w: Worker<A, R>): nat {
    match w
    case Testing => 1
    case Waiting => 0
    case Claimed(_) => 5
    case Fetched(_, _, _) => 4
    case Ran(_) => 3
    case Exited => 0
  }

  function WeightSum<A, R>(ws: seq<Worker<A, R>>): nat {
    if ws == [] then 0 else WeightSum(ws[..|ws| - 1]) + Weight(ws[|ws| - 1])
  }

  /** What is left to do: unclaimed tasks, work in hand, threads about to test. */
  function Remaining<A, R>(s: Pool<A, R>): int {
    5 * (s.ntasks - s.next) + WeightSum(s.workers) + (if s.caller.Woken? || s.caller.Joining? then 1 else 0)
  }

  lemma {:induction false} WeightUpdate<A, R>(ws: seq<Worker<A, R>>, w: nat, x: Worker<A, R>)
    requires w < |ws|
    ensures WeightSum(ws[w := x]) == WeightSum(ws) - Weight(ws[w]) + Weight(x)
  {
    var last := |ws| - 1;
    if w == last {
      assert ws[w := x][..last] == ws[..last];
    } else {
      assert ws[w := x][..last] == ws[..last][w := x];
      WeightUpdate(ws[..last], w, x);
    }
  }

  lemma RemainingIsNat<A, R>(s: Pool<A, R>)
    requires Inv(s)
    ensures Remaining(s) >= 0
  {
  }

  /** Every step but a spurious wakeup, a new batch or the shutdown leaves strictly
      less to do; a spurious wakeup adds one test. */
  lemma StepMakesProgress<A, R>(s: Pool<A, R>, step: Step<A, R>)
    requires Inv(s) && Enabled(s, step) && !step.Post? && !step.Destroy?
    ensures Remaining(Apply(s, step)) <= Remaining(s) + (if step.Spurious() then 1 else -1)
  {
    hide Inv, WeightSum, TestStep, FetchStep;
    match step
    case Test(w) => TestMakesProgress(s, w);
    case Fetch(w) =>
      FetchFindsTask(s, w);
      WeightUpdate(s.workers, w, Fetched(s.workers[w].i, s.fn.value, s.args[s.workers[w].i]));
    case Run(w) =>
      RunFindsPlace(s, w);
      WeightUpdate(s.workers, w, Ran(s.workers[w].i));
    case Finish(w) => WeightUpdate(s.workers, w, Testing);
    case Recheck =>
    case Join =>
    case SpuriousWorker(w) => WeightUpdate(s.workers, w, Testing);
    case SpuriousCaller =>
  }

  lemma TestMakesProgress<A, R>(s: Pool<A, R>, w: nat)
    requires w < |s.workers| && s.workers[w].Testing?
    ensures Remaining(TestStep(s, w)) <= Remaining(s) - 1
  {
    hide WeightSum;
    WeightUpdate(s.workers, w, if s.shutdown then Exited else if s.next >= s.ntasks then Waiting else Claimed(s.next));
  }

  /** The unlocked read never faults: the batch it belongs to is still there. */
  lemma FetchFindsTask<A, R>(s: Pool<A, R>, w: nat)
    requires Inv(s) && w < |s.workers| && s.workers[w].Claimed?
    ensures s.fn.Some? && s.workers[w].i < |s.args|
    ensures FetchStep(s, w)
         == s.(workers := s.workers[w := Fetched(s.workers[w].i, s.fn.value, s.args[s.workers[w].i])])
  {
    BusyMeansBatch(s, w);
  }

  lemma RunFindsPlace<A, R>(s: Pool<A, R>, w: nat)
    requires Inv(s) && w < |s.workers| && s.workers[w].Fetched?
    ensures s.workers[w].i < |s.out| == |s.runs|
  {
    hide TasksOk, Holding;
    BusyMeansBatch(s, w);
  }

  function SpuriousCount<A, R>(steps: seq<Step<A, R>>): nat {
    if steps == [] then 0 else SpuriousCount(steps[..|steps| - 1]) + (if steps[|steps| - 1].Spurious() then 1 else 0)
  }

  /** A bound on any run without new batches: what was left at its start, and two
      steps for every spurious wakeup. */
  lemma {:induction false} RunIsBounded<A, R>(states: seq<Pool<A, R>>, steps: seq<Step<A, R>>)
    requires IsRun(states, steps) && Inv(states[0])
    requires forall n | 0 <= n < |steps| :: !steps[n].Post? && !steps[n].Destroy?
    ensures |steps| + Remaining(states[|steps|]) <= Remaining(states[0]) + 2 * SpuriousCount(steps)
    ensures Remaining(states[|steps|]) >= 0
    decreases |steps|
  {
    hide Inv, Remaining;
    var n := |steps|;
    RunKeepsInvThroughout(states, steps, n);
    RemainingIsNat(states[n]);
    if n > 0 {
      RunIsBounded(states[..n], steps[..n - 1]);
      RunKeepsInvThroughout(states, steps, n - 1);
      StepMakesProgress(states[n - 1], steps[n - 1]);
    }
  }

  /** No deadlock: while a batch is on, or the pool is being torn down, some step
      other than a spurious wakeup can be taken. */
  lemma NeverStuck<A, R>(s: Pool<A, R>) returns (step: Step<A, R>)
    requires Inv(s) && |s.workers| > 0
    requires InBatch(s) || s.caller.Joining?
    ensures Enabled(s, step) && !step.Spurious() && !step.Post? && !step.Destroy?
  {
    if s.caller.Woken? {
      step := Recheck;
    } else if w :| 0 <= w < |s.workers| && s.workers[w].Busy() {
      step := match s.workers[w] case Claimed(_) => Fetch(w) case Fetched(_, _, _) => Run(w) case _ => Finish(w);
    } else if w :| 0 <= w < |s.workers| && s.workers[w].Testing? {
      step := Test(w);
    } else {
      NobodyBusy(s.workers);
      assert s.workers[0].Waiting? || s.workers[0].Exited?;
      step := Join;
    }
  }

  /** When nothing but spurious wakeups can happen after pool_destroy, every worker
      has returned and so has the caller. */
  lemma TornDown<A, R>(s: Pool<A, R>)
    requires Inv(s) && |s.workers| > 0 && s.shutdown
    requires forall step: Step<A, R> | Enabled(s, step) :: step.Spurious()
    ensures s.caller.Gone? && forall w | 0 <= w < |s.workers| :: s.workers[w].Exited?
  {
    if s.caller.Joining? {
      var step := NeverStuck(s);
    }
  }
}
