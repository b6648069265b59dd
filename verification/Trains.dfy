/** The train crossing as a state machine: one dispatcher, one thread per train,
    one mutex. A step is one critical section; any interleaving of steps, with
    spurious wakeups of any thread, is a run. */
module Trains {
  import opened Basics

  type Bit = x: int | 0 <= x < 2

  const EAST: Bit := 0
  const WEST: Bit := 1
  const LOW: Bit := 0
  const HIGH: Bit := 1

  datatype Train = Train(dir: Bit, priority: Bit)
  {
    function Slot(): nat { dir * 2 + priority }
  }

  /** A train thread: still loading, waiting on its condition variable, awake and
      about to test may_cross, on the track, or off it. */
  datatype Phase = Loading | Asleep | Awake | OnTrack | Off

  datatype Dispatcher = Checking | Waiting | Finished

  datatype State = State(
    trains: seq<Train>, phase: seq<Phase>, mayCross: seq<bool>,
    queues: seq<seq<nat>>, busy: bool, sameDir: nat, last: int, crossed: nat,
    dispatcher: Dispatcher)

  datatype Step =
    | Arrive(t: nat) | Recheck(t: nat) | Leave(t: nat) | Dispatch
    | SpuriousTrain(t: nat) | SpuriousDispatcher
  {
    predicate Spurious() { SpuriousTrain? || SpuriousDispatcher? }
  }

  // ---------- selection ----------

  /** The queue that best_in_direction looks at first, of those that have trains. */
  function BestIn(waiting: seq<bool>, dir: Bit): (r: Option<nat>)
    requires |waiting| == 4
    ensures r.Some? ==> r.value < 4 && waiting[r.value] && r.value / 2 == dir
  {
    if waiting[dir * 2 + HIGH] then Some(dir * 2 + HIGH)
    else if waiting[dir * 2 + LOW] then Some(dir * 2 + LOW)
    else None
  }

  /** select_next: the queue whose head goes next. */
  function SelectSlot(waiting: seq<bool>, last: int, sameDir: nat): (r: Option<nat>)
    requires |waiting| == 4
    ensures r.Some? ==> r.value < 4 && waiting[r.value]
    ensures r.None? <==> forall q | 0 <= q < 4 :: !waiting[q]
  {
    var east, west := BestIn(waiting, EAST), BestIn(waiting, WEST);
    if east.None? && west.None? then None
    else if east.None? then west
    else if west.None? then east
    else if sameDir >= 2 && last == EAST then west
    else if sameDir >= 2 && last == WEST then east
    else if east.value % 2 != west.value % 2 then (if east.value % 2 > west.value % 2 then east else west)
    else if last == EAST then west
    else if last == WEST then east
    else west
  }

  /** What the selection is for. Queue 2d + 1 holds the HIGH trains of direction d,
      queue 2d its LOW ones. Two grants in a row to one direction give the next to
      the other one if it waits; otherwise a HIGH train goes before a LOW one; among
      equals the direction that did not go last goes, and west at the start. */
  lemma SelectionRule(waiting: seq<bool>, last: int, sameDir: nat, d: Bit)
    requires |waiting| == 4
    ensures var (low, high) := (waiting[2 * d], waiting[2 * d + 1]);
            var (otherLow, otherHigh) := (waiting[2 - 2 * d], waiting[3 - 2 * d]);
            var other := otherLow || otherHigh;
            var granted := SelectSlot(waiting, last, sameDir);
            && (sameDir >= 2 && last == d && other ==> granted.Some? && granted.value / 2 == 1 - d)
            && (high && !otherHigh && !(sameDir >= 2 && last == d && other) ==> granted == Some(2 * d + 1))
            && (low && !high && !other ==> granted == Some(2 * d))
            && (high && otherHigh && last == 1 - d ==> granted == Some(2 * d + 1))
            && (low && otherLow && !high && !otherHigh && last == 1 - d ==> granted == Some(2 * d))
            && (high && otherHigh && last < 0 ==> granted == Some(3))
            && (low && otherLow && !high && !otherHigh && last < 0 ==> granted == Some(2))
            && (granted == Some(2 * d) ==> !high)
  {
    assert d == 0 || d == 1;
  }

  function Nonempty<T>(queues: seq<seq<T>>): (w: seq<bool>)
    ensures |w| == |queues| && forall q | 0 <= q < |queues| :: w[q] == (queues[q] != [])
  {
    seq(|queues|, q requires 0 <= q < |queues| => queues[q] != [])
  }

  // ---------- steps ----------

  function Initial(trains: seq<Train>): State {
    State(trains, seq(|trains|, _ => Loading), seq(|trains|, _ => false), [[], [], [], []],
          false, 0, -1, 0, Checking)
  }

  /** Lists of the right lengths: what the program's arrays guarantee. */
  predicate Shaped(s: State) {
    |s.phase| == |s.mayCross| == |s.trains| && |s.queues| == 4
  }

  predicate Enabled(s: State, step: Step)
    requires Shaped(s)
  {
    match step
    case Arrive(t) => t < |s.trains| && s.phase[t].Loading?
    case Recheck(t) => t < |s.trains| && s.phase[t].Awake?
    case Leave(t) => t < |s.trains| && s.phase[t].OnTrack?
    case Dispatch => s.dispatcher.Checking?
    case SpuriousTrain(t) => t < |s.trains| && s.phase[t].Asleep?
    case SpuriousDispatcher => s.dispatcher.Waiting?
  }

  /** pthread_cond_signal(&dispatcher_cond). */
  function Signalled(d: Dispatcher): Dispatcher {
    if d.Waiting? then Checking else d
  }

  /** Lock, join the queue, signal the dispatcher, and test may_cross. */
  function ArriveStep(s: State, t: nat): State
    requires Shaped(s) && t < |s.trains|
  {
    var q := s.trains[t].Slot();
    s.(queues := s.queues[q := s.queues[q] + [t]],
       phase := s.phase[t := if s.mayCross[t] then OnTrack else Asleep],
       dispatcher := Signalled(s.dispatcher))
  }

  function LeaveStep(s: State, t: nat): State
    requires Shaped(s) && t < |s.trains|
  {
    s.(busy := false, crossed := s.crossed + 1, phase := s.phase[t := Off],
       dispatcher := Signalled(s.dispatcher))
  }

  /** The queue the dispatcher grants from in this pass of its loop, if it grants. */
  function Granted(s: State): (r: Option<nat>)
    requires Shaped(s)
    ensures r.Some? ==> r.value < 4 && s.queues[r.value] != []
  {
    if s.crossed < |s.trains| && !s.busy then SelectSlot(Nonempty(s.queues), s.last, s.sameDir) else None
  }

  function GrantStep(s: State, q: nat): State
    requires Shaped(s) && q < 4 && s.queues[q] != []
  {
    var t := s.queues[q][0];
    var u := s.(queues := s.queues[q := s.queues[q][1..]], busy := true,
                sameDir := if q / 2 == s.last then s.sameDir + 1 else 1, last := q / 2);
    if t < |s.trains| then
      u.(mayCross := s.mayCross[t := true],
         phase := s.phase[t := if s.phase[t].Asleep? then Awake else s.phase[t]])
    else u
  }

  /** One pass of the dispatcher's loop: finish, grant, or wait. */
  function DispatchStep(s: State): State
    requires Shaped(s)
  {
    if s.crossed >= |s.trains| then s.(dispatcher := Finished)
    else if Granted(s).Some? then GrantStep(s, Granted(s).value)
    else s.(dispatcher := Waiting)
  }

  function Apply(s: State, step: Step): (r: State)
    requires Shaped(s) && Enabled(s, step)
    ensures Shaped(r) && r.trains == s.trains
  {
    match step
    case Arrive(t) => ArriveStep(s, t)
    case Recheck(t) => s.(phase := s.phase[t := if s.mayCross[t] then OnTrack else Asleep])
    case Leave(t) => LeaveStep(s, t)
    case Dispatch => DispatchStep(s)
    case SpuriousTrain(t) => s.(phase := s.phase[t := Awake])
    case SpuriousDispatcher => s.(dispatcher := Checking)
  }

  ghost predicate IsRun(states: seq<State>, steps: seq<Step>) {
    && |states| == |steps| + 1
    && (forall n | 0 <= n < |states| :: Shaped(states[n]))
    && forall n | 0 <= n < |steps| :: Enabled(states[n], steps[n]) && states[n + 1] == Apply(states[n], steps[n])
  }

  // ---------- the invariant ----------

  /** Granted the track and not yet off it. */
  predicate Holds(s: State, t: nat)
    requires Shaped(s) && t < |s.trains|
  {
    s.mayCross[t] && !s.phase[t].Off?
  }

  /** Ready to go and not yet granted. */
  predicate Ready(s: State, t: nat)
    requires Shaped(s) && t < |s.trains|
  {
    (s.phase[t].Asleep? || s.phase[t].Awake?) && !s.mayCross[t]
  }

  /** Queue `q` holds, once each, exactly the ready trains of its kind. */
  ghost predicate QueueOk(s: State, q: nat)
    requires Shaped(s) && q < 4
  {
    && (forall i | 0 <= i < |s.queues[q]| ::
          s.queues[q][i] < |s.trains| && s.trains[s.queues[q][i]].Slot() == q && Ready(s, s.queues[q][i]))
    && (forall i, j | 0 <= i < j < |s.queues[q]| :: s.queues[q][i] != s.queues[q][j])
    && (forall t | 0 <= t < |s.trains| && s.trains[t].Slot() == q && Ready(s, t) :: t in s.queues[q])
  }

  /** One train at a time, and track_busy says whether there is one. */
  ghost predicate Exclusive(s: State)
    requires Shaped(s)
  {
    && (forall t, u | 0 <= t < |s.trains| && 0 <= u < |s.trains| && Holds(s, t) && Holds(s, u) :: t == u)
    && (s.busy <==> exists t :: 0 <= t < |s.trains| && Holds(s, t))
  }

  /** Phases agree with grants: loading trains have none, a train on or off the
      track has one, and no sleeping train does - so no grant goes unheard. */
  ghost predicate PhasesOk(s: State)
    requires Shaped(s)
  {
    forall t | 0 <= t < |s.trains| ::
      && (s.phase[t].Loading? || s.phase[t].Asleep? ==> !s.mayCross[t])
      && (s.phase[t].OnTrack? || s.phase[t].Off? ==> s.mayCross[t])
  }

  function OffCount(phase: seq<Phase>): nat {
    if phase == [] then 0 else OffCount(phase[..|phase| - 1]) + (if phase[|phase| - 1].Off? then 1 else 0)
  }

  /** A waiting dispatcher has a reason to wait; a finished one has seen everyone off. */
  ghost predicate DispatcherOk(s: State)
    requires Shaped(s)
  {
    && (s.dispatcher.Waiting? ==> s.crossed < |s.trains| && (s.busy || forall q | 0 <= q < 4 :: s.queues[q] == []))
    && (s.dispatcher.Finished? ==> s.crossed == |s.trains|)
  }

  ghost predicate Inv(s: State) {
    && Shaped(s)
    && (forall q | 0 <= q < 4 :: QueueOk(s, q))
    && Exclusive(s) && PhasesOk(s) && DispatcherOk(s)
    && s.crossed == OffCount(s.phase)
  }

  lemma {:induction false} OffUpdate(phase: seq<Phase>, t: nat, p: Phase)
    requires t < |phase|
    ensures OffCount(phase[t := p])
         == OffCount(phase) - (if phase[t].Off? then 1 else 0) + (if p.Off? then 1 else 0)
  {
    var last := |phase| - 1;
    if t == last {
      assert phase[t := p][..last] == phase[..last];
    } else {
      assert phase[t := p][..last] == phase[..last][t := p];
      OffUpdate(phase[..last], t, p);
    }
  }

  lemma {:induction false} OffBound(phase: seq<Phase>)
    ensures OffCount(phase) <= |phase|
    ensures OffCount(phase) == |phase| ==> forall t | 0 <= t < |phase| :: phase[t].Off?
    ensures OffCount(phase) < |phase| ==> exists t :: 0 <= t < |phase| && !phase[t].Off?
  {
    if phase != [] {
      OffBound(phase[..|phase| - 1]);
      if OffCount(phase[..|phase| - 1]) < |phase| - 1 {
        var t :| 0 <= t < |phase| - 1 && !phase[..|phase| - 1][t].Off?;
        assert !phase[t].Off?;
      } else if !phase[|phase| - 1].Off? {
      }
    }
  }

  lemma {:induction false} NobodyOff(n: nat)
    ensures OffCount(seq(n, _ => Loading)) == 0
  {
    if n > 0 {
      assert seq(n, _ => Loading)[..n - 1] == seq(n - 1, _ => Loading);
      NobodyOff(n - 1);
    }
  }

  lemma InitialInv(trains: seq<Train>)
    ensures Inv(Initial(trains))
  {
    NobodyOff(|trains|);
  }

  // ---------- every step keeps it ----------

  lemma StepKeepsInv(s: State, step: Step)
    requires Inv(s) && Enabled(s, step)
    ensures Inv(Apply(s, step))
  {
    hide Inv, ArriveStep, LeaveStep, DispatchStep;
    InvIsShaped(s);
    match step
    case Arrive(t) => ArriveKeepsInv(s, t);
    case Recheck(t) => RecheckKeepsInv(s, t, if s.mayCross[t] then OnTrack else Asleep);
    case Leave(t) => LeaveKeepsInv(s, t);
    case Dispatch => DispatchKeepsInv(s);
    case SpuriousTrain(t) => RecheckKeepsInv(s, t, Awake);
    case SpuriousDispatcher => SpuriousDispatcherKeepsInv(s);
  }

  lemma InvIsShaped(s: State)
    requires Inv(s)
    ensures Shaped(s)
  {
  }

  lemma ArriveKeepsInv(s: State, t: nat)
    requires Inv(s) && t < |s.trains| && s.phase[t].Loading?
    ensures Inv(ArriveStep(s, t))
  {
    var u := ArriveStep(s, t);
    OffUpdate(s.phase, t, Asleep);
    forall q | 0 <= q < 4 ensures QueueOk(u, q) {
      ArriveKeepsQueue(s, t, q);
    }
    hide QueueOk;
    SameHolders(s, u);
  }

  lemma ArriveKeepsQueue(s: State, t: nat, q: nat)
    requires Inv(s) && t < |s.trains| && s.phase[t].Loading? && q < 4
    ensures QueueOk(ArriveStep(s, t), q)
  {
    hide Exclusive, DispatcherOk, OffCount;
    assert QueueOk(s, q);
    if q == s.trains[t].Slot() {
      forall i | 0 <= i < |s.queues[q]| ensures s.queues[q][i] != t {
        assert Ready(s, s.queues[q][i]);
      }
    }
  }

  /** Steps that change nobody's hold on the track keep it exclusive. */
  lemma SameHolders(s: State, u: State)
    requires Shaped(s) && Shaped(u) && u.trains == s.trains && Exclusive(s) && u.busy == s.busy
    requires forall t | 0 <= t < |s.trains| :: Holds(u, t) == Holds(s, t)
    ensures Exclusive(u)
  {
    if s.busy {
      var t :| 0 <= t < |s.trains| && Holds(s, t);
      assert Holds(u, t);
    }
  }

  lemma RecheckKeepsInv(s: State, t: nat, p: Phase)
    requires Inv(s) && t < |s.trains|
    requires (s.phase[t].Awake? && p == if s.mayCross[t] then OnTrack else Asleep) || (s.phase[t].Asleep? && p.Awake?)
    ensures Inv(s.(phase := s.phase[t := p]))
  {
    var u := s.(phase := s.phase[t := p]);
    OffUpdate(s.phase, t, p);
    forall q | 0 <= q < 4 ensures QueueOk(u, q) {
      assert QueueOk(s, q);
    }
    SameHolders(s, u);
  }

  lemma LeaveKeepsInv(s: State, t: nat)
    requires Inv(s) && t < |s.trains| && s.phase[t].OnTrack?
    ensures Inv(LeaveStep(s, t))
  {
    var u := LeaveStep(s, t);
    OffUpdate(s.phase, t, Off);
    OffBound(s.phase);
    OffBound(u.phase);
    assert Holds(s, t);
    forall x | 0 <= x < |s.trains| ensures !Holds(u, x) {
      assert x != t ==> !Holds(s, x);
    }
    forall q | 0 <= q < 4 ensures QueueOk(u, q) {
      assert QueueOk(s, q);
    }
  }

  lemma SpuriousDispatcherKeepsInv(s: State)
    requires Inv(s)
    ensures Inv(s.(dispatcher := Checking))
  {
    var u := s.(dispatcher := Checking);
    forall q | 0 <= q < 4 ensures QueueOk(u, q) {
      assert QueueOk(s, q);
    }
    SameHolders(s, u);
  }

  lemma DispatchKeepsInv(s: State)
    requires Inv(s) && s.dispatcher.Checking?
    ensures Inv(DispatchStep(s))
  {
    OffBound(s.phase);
    if s.crossed < |s.trains| && Granted(s).Some? {
      GrantKeepsInv(s, Granted(s).value);
    } else {
      var u := DispatchStep(s);
      forall q | 0 <= q < 4 ensures QueueOk(u, q) {
        assert QueueOk(s, q);
      }
      SameHolders(s, u);
      if s.crossed < |s.trains| && !s.busy {
        assert forall q | 0 <= q < 4 :: !Nonempty(s.queues)[q];
      }
    }
  }

  lemma GrantKeepsInv(s: State, q: nat)
    requires Inv(s) && q < 4 && s.queues[q] != [] && !s.busy && s.dispatcher.Checking?
    ensures Inv(GrantStep(s, q))
  {
    var t := s.queues[q][0];
    var u := GrantStep(s, q);
    assert QueueOk(s, q);
    assert t < |s.trains| && Ready(s, t);
    OffUpdate(s.phase, t, u.phase[t]);
    forall p | 0 <= p < 4 ensures QueueOk(u, p) {
      assert QueueOk(s, p);
      if p == q {
        HeadRemoved(s, u, q);
      } else {
        OtherQueueKept(s, u, p, t);
      }
    }
    assert Holds(u, t);
    forall x | 0 <= x < |s.trains| && x != t ensures !Holds(u, x) {
      assert !Holds(s, x);
    }
  }

  /** `u` differs from `s` only in that train `t` is no longer ready. */
  ghost predicate OnlyGranted(s: State, u: State, t: nat)
    requires Shaped(s) && Shaped(u) && u.trains == s.trains && t < |s.trains|
  {
    && !Ready(u, t)
    && forall x | 0 <= x < |s.trains| && x != t :: Ready(u, x) == Ready(s, x)
  }

  lemma HeadRemoved(s: State, u: State, q: nat)
    requires Shaped(s) && Shaped(u) && u.trains == s.trains && q < 4
    requires QueueOk(s, q) && s.queues[q] != [] && u.queues[q] == s.queues[q][1..]
    requires s.queues[q][0] < |s.trains| && OnlyGranted(s, u, s.queues[q][0])
    ensures QueueOk(u, q)
  {
    hide Ready;
    var t := s.queues[q][0];
    assert s.queues[q] == [t] + u.queues[q];
    forall i | 0 <= i < |u.queues[q]|
      ensures var x := u.queues[q][i]; x < |s.trains| && s.trains[x].Slot() == q && Ready(u, x)
    {
      assert u.queues[q][i] == s.queues[q][i + 1] != t;
    }
    forall x | 0 <= x < |s.trains| && s.trains[x].Slot() == q && Ready(u, x) ensures x in u.queues[q] {
      assert x != t && Ready(s, x) && x in s.queues[q];
    }
  }

  lemma OtherQueueKept(s: State, u: State, p: nat, t: nat)
    requires Shaped(s) && Shaped(u) && u.trains == s.trains && p < 4 && t < |s.trains|
    requires QueueOk(s, p) && u.queues[p] == s.queues[p] && s.trains[t].Slot() != p
    requires OnlyGranted(s, u, t)
    ensures QueueOk(u, p)
  {
  }

  /** Every reachable state is safe. */
  lemma {:induction false} RunKeepsInv(states: seq<State>, steps: seq<Step>, n: nat)
    requires IsRun(states, steps) && Inv(states[0]) && n < |states|
    ensures Inv(states[n])
  {
    if n > 0 {
      RunKeepsInv(states, steps, n - 1);
      StepKeepsInv(states[n - 1], steps[n - 1]);
    }
  }
}
