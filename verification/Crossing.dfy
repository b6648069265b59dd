/** The crossing's shared data as the program keeps it: the array of trains with
    their links, four queue heads, and the dispatcher's counters. The linked
    queues refine the sequences of the state machine. */
module Crossing {
  import opened Basics
  import opened Trains

  const NULL: int := -1

  /** Following links from `head` visits exactly `l` and ends at NULL. */
  ghost predicate Linked(head: int, next: seq<int>, l: seq<nat>)
    decreases l
  {
    if l == [] then head == NULL
    else head == l[0] < |next| && Linked(next[l[0]], next, l[1..])
  }

  ghost predicate OfKind(trains: seq<Train>, l: seq<nat>, q: nat) {
    forall i | 0 <= i < |l| :: l[i] < |trains| && trains[l[i]].Slot() == q
  }

  /** Changing the link of a train outside the list leaves the list alone. */
  lemma {:induction false} LinkedElsewhere(head: int, next: seq<int>, l: seq<nat>, x: nat, v: int)
    requires Linked(head, next, l) && x < |next| && x !in l
    ensures Linked(head, next[x := v], l)
    decreases l
  {
    if l != [] {
      assert l[0] in l;
      LinkedElsewhere(next[l[0]], next, l[1..], x, v);
    }
  }

  /** Linking a fresh train behind the last one appends it. */
  lemma {:induction false} LinkedAppend(head: int, next: seq<int>, l: seq<nat>, t: nat)
    requires Linked(head, next, l) && Distinct(l) && l != []
    requires t < |next| && t !in l && next[t] == NULL
    ensures l[|l| - 1] < |next| && Linked(head, next[l[|l| - 1] := t], l + [t])
    decreases l
  {
    if |l| == 1 {
      var after := next[l[0] := t];
      assert (l + [t])[1..] == [t] && [t][1..] == [];
      assert after[t] == NULL;
      assert Linked(after[t], after, [t][1..]);
      assert Linked(t, after, [t]);
    } else {
      LinkedAppend(next[l[0]], next, l[1..], t);
      assert (l + [t])[1..] == l[1..] + [t];
      assert l[1..][|l| - 2] == l[|l| - 1] != l[0];
    }
  }

  /** Queue `q` is a proper list: linked, without repetition, of its own kind. */
  ghost predicate ListOk(trains: seq<Train>, head: int, next: seq<int>, l: seq<nat>, q: nat) {
    Linked(head, next, l) && Distinct(l) && OfKind(trains, l, q)
  }

  ghost predicate AllListsOk(trains: seq<Train>, heads: seq<int>, next: seq<int>, lists: seq<seq<nat>>) {
    && |next| == |trains| && |heads| == |lists| == 4
    && forall q {:trigger ListOk(trains, heads[q], next, lists[q], q)} | 0 <= q < 4 ::
         ListOk(trains, heads[q], next, lists[q], q)
  }

  /** The queues never share a train: its kind decides its queue. */
  lemma OtherListKept(trains: seq<Train>, head: int, next: seq<int>, l: seq<nat>, p: nat, t: nat, v: int)
    requires ListOk(trains, head, next, l, p) && t < |trains| == |next| && trains[t].Slot() != p
    ensures ListOk(trains, head, next[t := v], l, p)
  {
    LinkedElsewhere(head, next, l, t, v);
  }

  lemma EnqueueFirst(trains: seq<Train>, heads: seq<int>, next: seq<int>, lists: seq<seq<nat>>, t: nat)
    requires AllListsOk(trains, heads, next, lists) && t < |trains|
    requires var q := trains[t].Slot(); lists[q] == []
    ensures var q := trains[t].Slot();
            AllListsOk(trains, heads[q := t], next[t := NULL], lists[q := [t]])
  {
    var q := trains[t].Slot();
    var n1 := next[t := NULL];
    var hs, ls := heads[q := t], lists[q := [t]];
    forall p | 0 <= p < 4 ensures ListOk(trains, hs[p], n1, ls[p], p) {
      assert ListOk(trains, heads[p], next, lists[p], p);
      if p == q {
        assert [t][1..] == [] && Linked(n1[t], n1, [t][1..]);
      } else {
        OtherListKept(trains, heads[p], next, lists[p], p, t, NULL);
      }
    }
  }

  lemma EnqueueBehind(trains: seq<Train>, heads: seq<int>, next: seq<int>, lists: seq<seq<nat>>, t: nat)
    requires AllListsOk(trains, heads, next, lists) && t < |trains|
    requires var q := trains[t].Slot(); lists[q] != [] && t !in lists[q]
    ensures var q := trains[t].Slot();
            var l := lists[q];
            && l[|l| - 1] < |trains|
            && AllListsOk(trains, heads, next[t := NULL][l[|l| - 1] := t], lists[q := l + [t]])
  {
    var q := trains[t].Slot();
    var l, n1 := lists[q], next[t := NULL];
    assert ListOk(trains, heads[q], next, l, q);
    var last := l[|l| - 1];
    assert trains[last].Slot() == q;
    var n2, ls := n1[last := t], lists[q := l + [t]];
    forall p | 0 <= p < 4 ensures ListOk(trains, heads[p], n2, ls[p], p) {
      assert ListOk(trains, heads[p], next, lists[p], p);
      if p == q {
        LinkedElsewhere(heads[q], next, l, t, NULL);
        LinkedAppend(heads[q], n1, l, t);
      } else {
        OtherListKept(trains, heads[p], next, lists[p], p, t, NULL);
        OtherListKept(trains, heads[p], n1, lists[p], p, last, t);
      }
    }
  }

  lemma DequeueHead(trains: seq<Train>, heads: seq<int>, next: seq<int>, lists: seq<seq<nat>>, t: nat)
    requires AllListsOk(trains, heads, next, lists) && t < |trains|
    requires var q := trains[t].Slot(); lists[q] != [] && lists[q][0] == t
    ensures var q := trains[t].Slot();
            AllListsOk(trains, heads[q := next[t]], next[t := NULL], lists[q := lists[q][1..]])
  {
    var q := trains[t].Slot();
    var l := lists[q];
    var hs, n1, ls := heads[q := next[t]], next[t := NULL], lists[q := l[1..]];
    forall p | 0 <= p < 4 ensures ListOk(trains, hs[p], n1, ls[p], p) {
      assert ListOk(trains, heads[p], next, lists[p], p);
      if p == q {
        assert t !in l[1..];
        LinkedElsewhere(next[t], next, l[1..], t, NULL);
      } else {
        OtherListKept(trains, heads[p], next, lists[p], p, t, NULL);
      }
    }
  }

  /** The shared variables of the program, with where each thread waits. */
  class Station {
    const trains: seq<Train>
    const next: array<int>
    const mayCross: array<bool>
    const queues: array<int>
    var trackBusy: bool
    var sameDirCount: nat
    var lastDirection: int
    var crossed: nat
    var phase: seq<Phase>
    var dispatcher: Dispatcher
    ghost var lists: seq<seq<nat>>

    ghost predicate Valid()
      reads this, queues, next
    {
      && queues != next && queues.Length == |lists| == 4
      && next.Length == mayCross.Length == |trains| == |phase|
      && AllListsOk(trains, queues[..], next[..], lists)
    }

    /** The state of the state machine that this object is in. */
    ghost function Now(): (s: State)
      requires Valid()
      reads this, queues, next, mayCross
      ensures Shaped(s)
    {
      State(trains, phase, mayCross[..], lists, trackBusy, sameDirCount, lastDirection, crossed, dispatcher)
    }

    constructor (trains: seq<Train>)
      ensures Valid() && fresh(queues) && fresh(next) && fresh(mayCross)
      ensures Now() == Initial(trains) && Inv(Now())
    {
      this.trains := trains;
      next := new int[|trains|](_ => NULL);
      mayCross := new bool[|trains|](_ => false);
      queues := new int[4](_ => NULL);
      trackBusy, sameDirCount, lastDirection, crossed := false, 0, -1, 0;
      phase, dispatcher := seq(|trains|, _ => Loading), Checking;
      lists := [[], [], [], []];
      new;
      InitialInv(trains);
      assert mayCross[..] == Initial(trains).mayCross;
    }

    /** Append a train at the end of its queue, walking to the last one. */
    method Enqueue(t: nat)
      requires Valid() && t < |trains| && t !in lists[trains[t].Slot()]
      modifies `lists, queues, next
      ensures Valid()
      ensures var q := trains[t].Slot(); lists == old(lists)[q := old(lists[q]) + [t]]
    {
      var q: nat := trains[t].dir * 2 + trains[t].priority;
      ghost var heads, links, l := queues[..], next[..], lists[q];
      assert ListOk(trains, heads[q], links, l, q);
      LinkedElsewhere(heads[q], links, l, t, NULL);
      next[t] := NULL;
      assert next[..] == links[t := NULL];
      if queues[q] == NULL {
        queues[q] := t;
        EnqueueFirst(trains, heads, links, lists, t);
        assert l + [t] == [t] && queues[..] == heads[q := t];
      } else {
        var last := LastOf(queues[q], l);
        next[last] := t;
        EnqueueBehind(trains, heads, links, lists, t);
        assert next[..] == links[t := NULL][last := t] && queues[..] == heads;
      }
      lists := lists[q := l + [t]];
    }

    /** The walk to the end of a queue. */
    method LastOf(head: int, ghost l: seq<nat>) returns (cur: nat)
      requires l != [] && Linked(head, next[..], l)
      ensures cur == l[|l| - 1] && cur < next.Length
    {
      cur := head;
      ghost var i := 0;
      while next[cur] != NULL
        invariant 0 <= i < |l| && cur == l[i] && cur < next.Length
        invariant Linked(cur, next[..], l[i..])
        decreases |l| - i
      {
        assert l[i..][1..] == l[i + 1..];
        assert next[..][cur] == next[cur];
        cur := next[cur];
        i := i + 1;
      }
      assert l[i..][1..] == l[i + 1..];
      assert next[..][cur] == next[cur];
    }

    /** Remove the head of a queue. */
    method Dequeue(t: nat)
      requires Valid() && t < |trains|
      requires var q := trains[t].Slot(); lists[q] != [] && lists[q][0] == t
      modifies `lists, queues, next
      ensures Valid() && next[t] == NULL
      ensures var q := trains[t].Slot(); lists == old(lists)[q := old(lists[q])[1..]]
    {
      var q: nat := trains[t].dir * 2 + trains[t].priority;
      ghost var heads, links := queues[..], next[..];
      DequeueHead(trains, heads, links, lists, t);
      queues[q] := next[t];
      next[t] := NULL;
      assert queues[..] == heads[q := links[t]] && next[..] == links[t := NULL];
      lists := lists[q := lists[q][1..]];
    }

    /** What a queue's head says about the queue. */
    lemma HeadOf(q: nat)
      requires Valid() && q < 4
      ensures if lists[q] == [] then queues[q] == NULL
              else queues[q] == lists[q][0] < |trains| && trains[lists[q][0]].Slot() == q
    {
      assert ListOk(trains, queues[..][q], next[..], lists[q], q);
    }

    method BestInDirection(dir: Bit) returns (t: int)
      requires Valid()
      ensures var best := BestIn(Nonempty(lists), dir);
              if best.None? then t == NULL
              else t == lists[best.value][0] < |trains| && t != NULL && trains[t].priority == best.value % 2
    {
      var high, low := dir * 2 + HIGH, dir * 2 + LOW;
      hide AllListsOk;
      HeadOf(high);
      HeadOf(low);
      if queues[high] != NULL {
        t := queues[high];
      } else if queues[low] != NULL {
        t := queues[low];
      } else {
        t := NULL;
      }
    }

    /** The train that goes next: the head of the queue that the state machine selects. */
    method SelectNext() returns (t: int)
      requires Valid()
      ensures t == match SelectSlot(Nonempty(lists), lastDirection, sameDirCount)
                   case None => NULL
                   case Some(q) => lists[q][0]
    {
      hide AllListsOk, BestIn, Nonempty;
      var eastBest := BestInDirection(EAST);
      var westBest := BestInDirection(WEST);
      if eastBest == NULL && westBest == NULL {
        return NULL;
      }
      if eastBest == NULL {
        return westBest;
      }
      if westBest == NULL {
        return eastBest;
      }
      if sameDirCount >= 2 {
        if lastDirection == EAST {
          return westBest;
        }
        if lastDirection == WEST {
          return eastBest;
        }
      }
      if trains[eastBest].priority != trains[westBest].priority {
        if trains[eastBest].priority > trains[westBest].priority {
          return eastBest;
        }
        return westBest;
      }
      if lastDirection == EAST {
        return westBest;
      }
      if lastDirection == WEST {
        return eastBest;
      }
      return westBest;
    }

    /** pthread_cond_signal on the dispatcher's condition variable. */
    method SignalDispatcher()
      modifies `dispatcher
      ensures dispatcher == Signalled(old(dispatcher))
    {
      if dispatcher.Waiting? {
        dispatcher := Checking;
      }
    }

    /** A loaded train joins its queue, signals the dispatcher and tests may_cross. */
    method Arrive(t: nat)
      requires Valid() && Inv(Now()) && Enabled(Now(), Step.Arrive(t))
      modifies this, queues, next
      ensures Valid() && Inv(Now()) && Now() == Apply(old(Now()), Step.Arrive(t))
    {
      ArrivingIsNotQueued(Now(), t);
      StepKeepsInv(Now(), Step.Arrive(t));
      hide Inv, AllListsOk;
      Enqueue(t);
      SignalDispatcher();
      phase := phase[t := if mayCross[t] then OnTrack else Asleep];
    }

    /** A woken train tests may_cross again. */
    method Recheck(t: nat)
      requires Valid() && Inv(Now()) && Enabled(Now(), Step.Recheck(t))
      modifies `phase
      ensures Valid() && Inv(Now()) && Now() == Apply(old(Now()), Step.Recheck(t))
    {
      StepKeepsInv(Now(), Step.Recheck(t));
      hide Inv, AllListsOk;
      phase := phase[t := if mayCross[t] then OnTrack else Asleep];
    }

    /** One pass of the dispatcher's loop: finish, grant the selected train, or wait. */
    method DispatchOnce()
      requires Valid() && Inv(Now()) && Enabled(Now(), Step.Dispatch)
      modifies this, queues, next, mayCross
      ensures Valid() && Inv(Now()) && Now() == Apply(old(Now()), Step.Dispatch)
    {
      StepKeepsInv(Now(), Step.Dispatch);
      hide Inv, AllListsOk, SelectSlot;
      if crossed >= |trains| {
        dispatcher := Finished;
        return;
      }
      var t := NULL;
      if !trackBusy {
        t := SelectNext();
      }
      if t != NULL {
        HeadOf(SelectSlot(Nonempty(lists), lastDirection, sameDirCount).value);
        Grant(t);
      } else {
        dispatcher := Waiting;
      }
    }

    /** Take `t` off its queue and give it the track. */
    method Grant(t: nat)
      requires Valid() && t < |trains|
      requires var q := trains[t].Slot(); lists[q] != [] && lists[q][0] == t
      modifies this, queues, next, mayCross
      ensures Valid() && Now() == GrantStep(old(Now()), trains[t].Slot())
    {
      hide AllListsOk;
      ghost var was := mayCross[..];
      Dequeue(t);
      trackBusy := true;
      if trains[t].dir == lastDirection {
        sameDirCount := sameDirCount + 1;
      } else {
        sameDirCount := 1;
        lastDirection := trains[t].dir;
      }
      mayCross[t] := true;
      assert mayCross[..] == was[t := true];
      if phase[t].Asleep? {
        phase := phase[t := Awake];
      }
    }

    /** A train reports off the track. */
    method Leave(t: nat)
      requires Valid() && Inv(Now()) && Enabled(Now(), Step.Leave(t))
      modifies `trackBusy, `crossed, `phase, `dispatcher
      ensures Valid() && Inv(Now()) && Now() == Apply(old(Now()), Step.Leave(t))
    {
      StepKeepsInv(Now(), Step.Leave(t));
      hide Inv, AllListsOk;
      trackBusy := false;
      crossed := crossed + 1;
      SignalDispatcher();
      phase := phase[t := Off];
    }
  }

  /** A train that is still loading is in no queue. */
  lemma ArrivingIsNotQueued(s: State, t: nat)
    requires Inv(s) && t < |s.trains| && s.phase[t].Loading?
    ensures t !in s.queues[s.trains[t].Slot()]
  {
    assert QueueOk(s, s.trains[t].Slot());
  }
}
