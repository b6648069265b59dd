/** Liveness of the crossing: every non-spurious step brings the end nearer, no
    unfinished state is stuck, and nobody is passed over too often. */
module TrainProgress {
  import opened Basics
  import opened Trains

  // ---------- progress ----------

  function Weight(p: Phase, granted: bool): nat {
    match p
    case Loading => 8
    case Asleep => 5
    case Awake => if granted then 4 else 6
    case OnTrack => 3
    case Off => 0
  }

  function WeightSum(s: State, n: nat): nat
    requires Shaped(s) && n <= |s.trains|
  {
    if n == 0 then 0 else WeightSum(s, n - 1) + Weight(s.phase[n - 1], s.mayCross[n - 1])
  }

  /** What is left to happen. */
  function Remaining(s: State): nat
    requires Shaped(s)
  {
    WeightSum(s, |s.trains|) + (if s.dispatcher.Checking? then 1 else 0)
  }

  lemma {:induction false} WeightChange(s: State, u: State, t: nat, n: nat)
    requires Shaped(s) && Shaped(u) && u.trains == s.trains && t < |s.trains| && n <= |s.trains|
    requires forall x | 0 <= x < |s.trains| && x != t :: u.phase[x] == s.phase[x] && u.mayCross[x] == s.mayCross[x]
    ensures WeightSum(u, n) == WeightSum(s, n)
         + (if t < n then Weight(u.phase[t], u.mayCross[t]) - Weight(s.phase[t], s.mayCross[t]) else 0)
  {
    if n > 0 {
      WeightChange(s, u, t, n - 1);
    }
  }

  lemma {:induction false} WeightSame(s: State, u: State, n: nat)
    requires Shaped(s) && Shaped(u) && u.trains == s.trains && n <= |s.trains|
    requires u.phase == s.phase && u.mayCross == s.mayCross
    ensures WeightSum(u, n) == WeightSum(s, n)
  {
    if n > 0 {
      WeightSame(s, u, n - 1);
    }
  }

  /** Every step leaves strictly less to happen, except a spurious wakeup, which adds one. */
  lemma StepMakesProgress(s: State, step: Step)
    requires Inv(s) && Enabled(s, step)
    ensures Remaining(Apply(s, step)) <= Remaining(s) + (if step.Spurious() then 1 else -1)
  {
    var u := Apply(s, step);
    match step
    case Arrive(t) => WeightChange(s, u, t, |s.trains|);
    case Recheck(t) => WeightChange(s, u, t, |s.trains|);
    case Leave(t) => WeightChange(s, u, t, |s.trains|);
    case Dispatch => DispatchMakesProgress(s);
    case SpuriousTrain(t) => WeightChange(s, u, t, |s.trains|);
    case SpuriousDispatcher => WeightSame(s, u, |s.trains|);
  }

  lemma DispatchMakesProgress(s: State)
    requires Inv(s) && s.dispatcher.Checking?
    ensures Remaining(DispatchStep(s)) < Remaining(s)
  {
    var u := DispatchStep(s);
    if s.crossed < |s.trains| && Granted(s).Some? {
      var q := Granted(s).value;
      assert QueueOk(s, q);
      var t := s.queues[q][0];
      assert t < |s.trains| && Ready(s, t);
      WeightChange(s, u, t, |s.trains|);
    } else {
      WeightSame(s, u, |s.trains|);
    }
  }

  predicate AllDone(s: State) {
    s.dispatcher.Finished? && forall t | 0 <= t < |s.phase| :: s.phase[t].Off?
  }

  predicate CanMove(s: State, t: nat)
    requires Shaped(s)
  {
    t < |s.trains| && (s.phase[t].Loading? || s.phase[t].Awake? || s.phase[t].OnTrack?)
  }

  /** While the dispatcher waits, some train is on its way: a train asleep in a
      queue means the track is busy, and whoever holds it is awake or on it. */
  lemma SomeoneCanMove(s: State) returns (t: nat)
    requires Inv(s) && !AllDone(s) && !s.dispatcher.Checking?
    ensures CanMove(s, t)
  {
    OffBound(s.phase);
    t :| 0 <= t < |s.trains| && !s.phase[t].Off?;
    if s.phase[t].Asleep? {
      assert QueueOk(s, s.trains[t].Slot());
      assert Ready(s, t) && t in s.queues[s.trains[t].Slot()];
      assert s.busy;
      t :| 0 <= t < |s.trains| && Holds(s, t);
    }
  }

  /** Unless everyone is done, some step other than a spurious wakeup can be taken:
      no wakeup was lost and nothing is deadlocked. */
  lemma NeverStuck(s: State) returns (step: Step)
    requires Inv(s) && !AllDone(s)
    ensures Enabled(s, step) && !step.Spurious()
  {
    if s.dispatcher.Checking? {
      step := Dispatch;
    } else {
      var t := SomeoneCanMove(s);
      step := if s.phase[t].Loading? then Arrive(t) else if s.phase[t].Awake? then Recheck(t) else Leave(t);
    }
  }

  /** When nothing but spurious wakeups is left, every train is off, each has been
      counted, and the dispatcher has finished. */
  lemma QuietMeansDone(s: State)
    requires Inv(s)
    requires forall step | Enabled(s, step) :: step.Spurious()
    ensures AllDone(s) && s.crossed == |s.trains|
  {
    if !AllDone(s) {
      var step := NeverStuck(s);
    }
  }

  function SpuriousCount(steps: seq<Step>): nat {
    if steps == [] then 0 else SpuriousCount(steps[..|steps| - 1]) + (if steps[|steps| - 1].Spurious() then 1 else 0)
  }

  /** No run is longer than what was left at its start plus two steps for every
      spurious wakeup. */
  lemma {:induction false} RunIsBounded(states: seq<State>, steps: seq<Step>)
    requires IsRun(states, steps) && Inv(states[0])
    ensures Inv(states[|steps|])
    ensures |steps| + Remaining(states[|steps|]) <= Remaining(states[0]) + 2 * SpuriousCount(steps)
    decreases |steps|
  {
    hide Inv, Remaining;
    var n := |steps|;
    if n > 0 {
      RunIsBounded(states[..n], steps[..n - 1]);
      StepKeepsInv(states[n - 1], steps[n - 1]);
      StepMakesProgress(states[n - 1], steps[n - 1]);
    }
  }

  // ---------- bounded bypass ----------

  predicate IsGrant(s: State, step: Step)
    requires Shaped(s)
  {
    step.Dispatch? && Granted(s).Some?
  }

  /** Grants among the first `n` steps of a run. */
  ghost function Grants(states: seq<State>, steps: seq<Step>, n: nat): nat
    requires IsRun(states, steps) && n <= |steps|
  {
    if n == 0 then 0 else Grants(states, steps, n - 1) + (if IsGrant(states[n - 1], steps[n - 1]) then 1 else 0)
  }

  predicate DirWaits(s: State, d: Bit)
    requires Shaped(s)
  {
    s.queues[d * 2 + LOW] != [] || s.queues[d * 2 + HIGH] != []
  }

  /** How often a waiting direction can still be passed over. */
  function Skips(s: State, d: Bit): nat {
    if s.last == 1 - d then (if s.sameDir >= 2 then 0 else 2 - s.sameDir) else 2
  }

  /** A grant to the other direction uses up one of them. */
  lemma GrantElsewhere(s: State, d: Bit)
    requires Shaped(s) && DirWaits(s, d) && Granted(s).Some? && Granted(s).value / 2 != d
    requires s.last == 1 - d ==> s.sameDir >= 1
    ensures Skips(GrantStep(s, Granted(s).value), d) < Skips(s, d)
  {
  }

  /** same_dir_count is positive once a direction has been recorded. */
  predicate Streak(s: State) {
    s.last >= 0 ==> s.sameDir >= 1
  }

  lemma StepKeepsStreak(s: State, step: Step)
    requires Shaped(s) && Enabled(s, step) && Streak(s)
    ensures Streak(Apply(s, step))
  {
  }

  /** While direction `d` has a train waiting and none of its trains is granted, at
      most two grants happen: one of the next three goes to it. */
  lemma {:induction false} DirectionIsServed(states: seq<State>, steps: seq<Step>, d: Bit, n: nat)
    requires IsRun(states, steps) && n <= |steps| && Streak(states[0]) && DirWaits(states[0], d)
    requires forall m | 0 <= m < n && IsGrant(states[m], steps[m]) :: Granted(states[m]).value / 2 != d
    ensures Streak(states[n]) && DirWaits(states[n], d)
    ensures Grants(states, steps, n) + Skips(states[n], d) <= Skips(states[0], d) <= 2
  {
    if n > 0 {
      DirectionIsServed(states, steps, d, n - 1);
      var s, step := states[n - 1], steps[n - 1];
      StepKeepsStreak(s, step);
      DirStep(s, step, d);
    }
  }

  lemma DirStep(s: State, step: Step, d: Bit)
    requires Shaped(s) && Enabled(s, step) && Streak(s) && DirWaits(s, d)
    requires IsGrant(s, step) ==> Granted(s).value / 2 != d
    ensures var u := Apply(s, step);
            DirWaits(u, d) && Skips(u, d) + (if IsGrant(s, step) then 1 else 0) <= Skips(s, d)
  {
    if IsGrant(s, step) {
      GrantElsewhere(s, d);
    }
  }

  /** How often a HIGH train at position `pos` of its queue can still be passed over. */
  function HighSkips(s: State, d: Bit, pos: nat): nat {
    2 * pos + (if s.last == 1 - d then 0 else 1)
  }

  predicate At(s: State, q: nat, pos: nat, t: nat)
    requires Shaped(s) && q < 4
  {
    pos < |s.queues[q]| && s.queues[q][pos] == t
  }

  /** The train that a granting step lets go. */
  function GrantedTrain(s: State): nat
    requires Shaped(s) && Granted(s).Some?
  {
    s.queues[Granted(s).value][0]
  }

  // ---------- who goes next ----------

  /** The dispatcher's rule, for the train it grants and any other train that waits:
      none of its own direction has a higher priority; one of the other direction
      with a higher priority is passed over only after two grants in a row to that
      direction; one with the same priority only if its own direction did not go
      last; and one with a lower priority has no such claim. */
  lemma GrantRule(s: State, u: nat)
    requires Inv(s) && Granted(s).Some? && u < |s.trains| && Ready(s, u) && -1 <= s.last < 2
    ensures var t := GrantedTrain(s);
            && t < |s.trains| && Ready(s, t)
            && var (mine, its) := (s.trains[t], s.trains[u]);
               if its.dir == mine.dir then its.priority <= mine.priority
               else
                 && (its.priority > mine.priority ==> s.sameDir >= 2 && s.last == its.dir)
                 && (its.priority == mine.priority ==> s.last == its.dir || (s.last < 0 && mine.dir == WEST))
                 && (its.priority < mine.priority ==> !(s.sameDir >= 2 && s.last == mine.dir))
  {
    hide SelectSlot;
    var q, r := Granted(s).value, s.trains[u].Slot();
    GrantedIsOfQueue(s);
    assert QueueOk(s, r);
    SelectedBefore(Nonempty(s.queues), s.last, s.sameDir, q, r);
  }

  /** The same for queues: `q` is selected although `r` is not empty. */
  lemma SelectedBefore(waiting: seq<bool>, last: int, sameDir: nat, q: nat, r: nat)
    requires |waiting| == 4 && r < 4 && waiting[r] && -1 <= last < 2 && SelectSlot(waiting, last, sameDir) == Some(q)
    ensures if r / 2 == q / 2 then r % 2 <= q % 2
            else
              && (r % 2 > q % 2 ==> sameDir >= 2 && last == r / 2)
              && (r % 2 == q % 2 ==> last == r / 2 || (last < 0 && q / 2 == WEST))
              && (r % 2 < q % 2 ==> !(sameDir >= 2 && last == q / 2))
  {
    hide SelectSlot;
    SelectionRule(waiting, last, sameDir, EAST);
    SelectionRule(waiting, last, sameDir, WEST);
    assert r == 0 || r == 1 || r == 2 || r == 3;
    assert q == 0 || q == 1 || q == 2 || q == 3;
  }

  lemma GrantedIsOfQueue(s: State)
    requires Inv(s) && Granted(s).Some?
    ensures var t := GrantedTrain(s);
            t < |s.trains| && Ready(s, t) && s.trains[t].Slot() == Granted(s).value
  {
    hide SelectSlot;
    assert QueueOk(s, Granted(s).value);
  }

  /** The directions of the trains granted in the first `n` steps of a run. */
  ghost function GrantedDirs(states: seq<State>, steps: seq<Step>, n: nat): seq<Bit>
    requires IsRun(states, steps) && n <= |steps|
  {
    if n == 0 then [] else
    var s := states[n - 1];
    GrantedDirs(states, steps, n - 1)
    + (if IsGrant(s, steps[n - 1]) && GrantedTrain(s) < |s.trains| then [s.trains[GrantedTrain(s)].dir] else [])
  }

  /** `sameDir` is the number of grants in a row, up to now, to direction `last`. */
  ghost predicate TrailingRun(dirs: seq<Bit>, last: int, sameDir: nat) {
    if dirs == [] then last == -1 && sameDir == 0 else
    && last == dirs[|dirs| - 1] && 1 <= sameDir <= |dirs|
    && (forall i | |dirs| - sameDir <= i < |dirs| :: dirs[i] == last)
    && (sameDir < |dirs| ==> dirs[|dirs| - sameDir - 1] != last)
  }

  lemma NoRunYet(last: int, sameDir: nat)
    ensures TrailingRun([], last, sameDir) <==> last == -1 && sameDir == 0
  {
  }

  lemma {:induction false} CountersTellHistory(states: seq<State>, steps: seq<Step>, n: nat)
    requires IsRun(states, steps) && n <= |steps| && states[0] == Initial(states[0].trains)
    ensures Inv(states[n]) && TrailingRun(GrantedDirs(states, steps, n), states[n].last, states[n].sameDir)
  {
    hide Inv, Granted, GrantedTrain, TrailingRun, Apply;
    if n == 0 {
      NoRunYet(states[0].last, states[0].sameDir);
      InitialInv(states[0].trains);
    } else {
      CountersTellHistory(states, steps, n - 1);
      StepKeepsInv(states[n - 1], steps[n - 1]);
      CountersStep(states[n - 1], steps[n - 1]);
      var s, dirs := states[n - 1], GrantedDirs(states, steps, n - 1);
      if IsGrant(s, steps[n - 1]) {
        TrailingRunGrows(dirs, s.last, s.sameDir, s.trains[GrantedTrain(s)].dir);
      } else {
        assert dirs + [] == dirs;
      }
    }
  }

  lemma CountersStep(s: State, step: Step)
    requires Shaped(s) && Inv(s) && Enabled(s, step)
    ensures IsGrant(s, step) ==> GrantedTrain(s) < |s.trains|
    ensures var u := Apply(s, step);
            if IsGrant(s, step) then
              var d := s.trains[GrantedTrain(s)].dir;
              u.last == d && u.sameDir == if d == s.last then s.sameDir + 1 else 1
            else u.last == s.last && u.sameDir == s.sameDir
  {
    hide Inv, SelectSlot;
    if IsGrant(s, step) {
      GrantedIsOfQueue(s);
    }
  }

  lemma TrailingRunGrows(dirs: seq<Bit>, last: int, sameDir: nat, d: Bit)
    requires TrailingRun(dirs, last, sameDir)
    ensures TrailingRun(dirs + [d], d, if d == last then sameDir + 1 else 1)
  {
  }

  ghost predicate EndsWithTwo(dirs: seq<Bit>, d: Bit) {
    |dirs| >= 2 && dirs[|dirs| - 1] == dirs[|dirs| - 2] == d
  }

  ghost predicate EndsWith(dirs: seq<Bit>, d: Bit) {
    dirs != [] && dirs[|dirs| - 1] == d
  }

  /** The rule over whole runs, in terms of what has been granted before. */
  lemma GrantsFollowRule(states: seq<State>, steps: seq<Step>, n: nat, u: nat)
    requires IsRun(states, steps) && n < |steps| && states[0] == Initial(states[0].trains)
    requires IsGrant(states[n], steps[n]) && u < |states[n].trains| && Ready(states[n], u)
    ensures var s, t, dirs := states[n], GrantedTrain(states[n]), GrantedDirs(states, steps, n);
            && t < |s.trains| && Ready(s, t)
            && var (mine, its) := (s.trains[t], s.trains[u]);
               if its.dir == mine.dir then its.priority <= mine.priority
               else
                 && (its.priority > mine.priority ==> EndsWithTwo(dirs, its.dir))
                 && (its.priority == mine.priority ==> EndsWith(dirs, its.dir) || (dirs == [] && mine.dir == WEST))
                 && (its.priority < mine.priority ==> !EndsWithTwo(dirs, mine.dir))
  {
    hide Inv, Granted, GrantedTrain, Ready, TrailingRun, EndsWithTwo, EndsWith, GrantedDirs;
    CountersTellHistory(states, steps, n);
    TrailingRunTells(GrantedDirs(states, steps, n), states[n].last, states[n].sameDir);
    GrantRule(states[n], u);
  }

  lemma TrailingRunTells(dirs: seq<Bit>, last: int, sameDir: nat)
    requires TrailingRun(dirs, last, sameDir)
    ensures -1 <= last < 2 && (last < 0 <==> dirs == [])
    ensures forall d: Bit :: EndsWithTwo(dirs, d) <==> sameDir >= 2 && last == d
    ensures forall d: Bit :: EndsWith(dirs, d) <==> last == d
  {
  }

  lemma HighStep(s: State, step: Step, d: Bit, t: nat, pos: nat) returns (p: nat)
    requires Shaped(s) && Enabled(s, step) && At(s, d * 2 + HIGH, pos, t)
    requires IsGrant(s, step) ==> GrantedTrain(s) != t
    ensures var u := Apply(s, step);
            && At(u, d * 2 + HIGH, p, t)
            && HighSkips(u, d, p) + (if IsGrant(s, step) then 1 else 0) <= HighSkips(s, d, pos)
  {
    p := pos;
    if IsGrant(s, step) && Granted(s).value == d * 2 + HIGH {
      p := pos - 1;
    }
  }

  /** A HIGH train with `m` HIGH trains ahead of it is granted by the (2m+2)th
      grant: while it waits, there are at most 2m+1. */
  lemma {:induction false} HighIsServed(states: seq<State>, steps: seq<Step>, d: Bit, t: nat, m: nat, n: nat)
    returns (pos: nat)
    requires IsRun(states, steps) && n <= |steps| && At(states[0], d * 2 + HIGH, m, t)
    requires forall i | 0 <= i < n && IsGrant(states[i], steps[i]) :: GrantedTrain(states[i]) != t
    ensures At(states[n], d * 2 + HIGH, pos, t)
    ensures Grants(states, steps, n) + HighSkips(states[n], d, pos) <= HighSkips(states[0], d, m)
    ensures Grants(states, steps, n) <= 2 * m + 1
  {
    pos := m;
    if n > 0 {
      pos := HighIsServed(states, steps, d, t, m, n - 1);
      pos := HighStep(states[n - 1], steps[n - 1], d, t, pos);
    }
  }

  /** The same for a LOW train, which every HIGH train of its direction precedes. */
  function LowSkips(s: State, d: Bit, pos: nat): nat
    requires Shaped(s)
  {
    3 * (pos + |s.queues[d * 2 + HIGH]|) + Skips(s, d)
  }

  predicate IsHighArrival(s: State, step: Step, d: Bit)
    requires Shaped(s) && Enabled(s, step)
  {
    step.Arrive? && s.trains[step.t] == Train(d, HIGH)
  }

  ghost function HighArrivals(states: seq<State>, steps: seq<Step>, d: Bit, n: nat): nat
    requires IsRun(states, steps) && n <= |steps|
  {
    if n == 0 then 0
    else HighArrivals(states, steps, d, n - 1) + (if IsHighArrival(states[n - 1], steps[n - 1], d) then 1 else 0)
  }

  lemma LowGrant(s: State, d: Bit, t: nat, pos: nat) returns (p: nat)
    requires Shaped(s) && Streak(s) && At(s, d * 2 + LOW, pos, t)
    requires Granted(s).Some? && GrantedTrain(s) != t
    ensures var u := GrantStep(s, Granted(s).value);
            At(u, d * 2 + LOW, p, t) && LowSkips(u, d, p) + 1 <= LowSkips(s, d, pos)
  {
    p := pos;
    if Granted(s).value == d * 2 + LOW {
      p := pos - 1;
    } else if Granted(s).value / 2 != d {
      GrantElsewhere(s, d);
    }
  }

  lemma LowStep(s: State, step: Step, d: Bit, t: nat, pos: nat) returns (p: nat)
    requires Shaped(s) && Enabled(s, step) && Streak(s) && At(s, d * 2 + LOW, pos, t)
    requires IsGrant(s, step) ==> GrantedTrain(s) != t
    ensures var u := Apply(s, step);
            && At(u, d * 2 + LOW, p, t)
            && LowSkips(u, d, p) + (if IsGrant(s, step) then 1 else 0)
               <= LowSkips(s, d, pos) + (if IsHighArrival(s, step, d) then 3 else 0)
  {
    p := pos;
    if IsGrant(s, step) {
      hide LowSkips, At;
      p := LowGrant(s, d, t, pos);
    }
  }

  /** A LOW train with `m` LOW trains ahead, while H trains of its direction are or
      become HIGH and waiting, is granted by the 3(m+H+1)th grant. */
  lemma {:induction false} LowIsServed(states: seq<State>, steps: seq<Step>, d: Bit, t: nat, m: nat, n: nat)
    returns (pos: nat)
    requires IsRun(states, steps) && n <= |steps| && Streak(states[0]) && At(states[0], d * 2 + LOW, m, t)
    requires forall i | 0 <= i < n && IsGrant(states[i], steps[i]) :: GrantedTrain(states[i]) != t
    ensures Streak(states[n]) && At(states[n], d * 2 + LOW, pos, t)
    ensures Grants(states, steps, n) + LowSkips(states[n], d, pos)
         <= LowSkips(states[0], d, m) + 3 * HighArrivals(states, steps, d, n)
    ensures var highs := |states[0].queues[d * 2 + HIGH]| + HighArrivals(states, steps, d, n);
            Grants(states, steps, n) <= 3 * (m + highs) + 2
  {
    pos := m;
    if n > 0 {
      pos := LowIsServed(states, steps, d, t, m, n - 1);
      StepKeepsStreak(states[n - 1], steps[n - 1]);
      pos := LowStep(states[n - 1], steps[n - 1], d, t, pos);
    }
  }
}
