/** The main results about the queue: delivery, wake-ups, where calls get stuck, and when they cannot. */
module QueueProgress {
  import opened Ring
  import opened QueueSteps
  import opened QueueInvariant

  // ----- runs -----

  ghost predicate StepAt(states: seq<State>, who: seq<nat>, i: nat)
    requires |states| == |who| + 1 && i < |who|
  {
    Next(states[i], states[i + 1], who[i])
  }

  /** `states` is an interleaving; thread `who[i]` takes step `i`. */
  ghost predicate Execution(states: seq<State>, who: seq<nat>) {
    && |states| == |who| + 1
    && forall i {:trigger StepAt(states, who, i)} :: 0 <= i < |who| ==> StepAt(states, who, i)
  }

  lemma {:induction false} InvAlways(states: seq<State>, who: seq<nat>, i: nat)
    requires Execution(states, who) && Inv(states[0]) && i < |states|
    ensures Inv(states[i])
  {
    if i > 0 {
      InvAlways(states, who, i - 1);
      assert StepAt(states, who, i - 1);
      NextKeepsInv(states[i - 1], states[i], who[i - 1]);
    }
  }

  /** The element in the hands of the thread that holds `pcq_tail_lock`, after it was counted out. */
  function InHand(s: State): seq<Elem> {
    match HolderPc(s)
    case DeqSignal(r) => [r]
    case DeqUnlockTail(r) => [r]
    case _ => []
  }

  /**
   First in, first out, each delivered exactly once.  In every state of every interleaving
   the elements enqueued, in the order in which they were counted in, are the elements
   returned by `pcq_dequeue`, in the order of return, then the one being returned, if any,
   then what the queue still holds; with `pcq_tail_lock` free the latter is the ring.
   */
  lemma FifoConservation(buf: seq<Elem>, n: nat, states: seq<State>, who: seq<nat>, i: nat)
    requires |buf| > 0 && Execution(states, who) && states[0] == Created(buf, n) && i < |states|
    ensures var s := states[i];
      && Bounds(s)
      && s.taken == Values(s.returned) + InHand(s)
      && s.taken <= s.put && |s.put| - |s.taken| <= s.Cap()
      && (s.tailLock == None ==>
            s.tail == (s.head + s.size) % s.Cap() && s.put == Values(s.returned) + Queued(s))
  {
    CreatedOk(buf, n);
    InvAlways(states, who, i);
    assert Values(states[i].returned) + [] == Values(states[i].returned);
  }

  /** No lost wake-up, for any number of threads and with spurious wake-ups. */
  lemma NoLostWakeUp(buf: seq<Elem>, n: nat, states: seq<State>, who: seq<nat>, i: nat)
    requires |buf| > 0 && Execution(states, who) && states[0] == Created(buf, n) && i < |states|
    requires states[i].tailLock == None && Sleepers(states[i].threads) != {}
    ensures states[i].size <= |Woken(states[i].threads)|
  {
    CreatedOk(buf, n);
    InvAlways(states, who, i);
  }

  // ----- quiescence -----

  ghost predicate Quiescent(s: State) {
    forall t :: 0 <= t < |s.threads| ==> !CanMove(s, t)
  }

  predicate AllReturned(s: State) {
    forall t :: 0 <= t < |s.threads| ==> s.threads[t] == Idle
  }

  /** Every unfinished call is a dequeue asleep on an empty queue. */
  predicate StarvedDequeuers(s: State) {
    s.size == 0 && forall t :: 0 <= t < |s.threads| ==> s.threads[t] == Idle || s.threads[t] == DeqAsleep
  }

  /** A producer is parked on a full queue. */
  predicate ParkedProducer(s: State) {
    s.size == s.Cap() && exists t :: 0 <= t < |s.threads| && s.threads[t].EnqAsleep?
  }

  /** `CanMove` says whether there is a step. */
  lemma CanMoveIff(s: State, t: nat)
    requires Inv(s) && t < |s.threads|
    ensures CanMove(s, t) <==> exists s' :: Move(s, s', t)
  {
    if CanMove(s, t) {
      var woken := if s.threads[t].EnqSignal? then Sleepers(s.threads) else Parked(s.threads);
      assert Move(s, Moved(s, t, woken), t);
    }
  }

  /** An idle thread can make either call, with any argument. */
  lemma AnyCallCanBegin(s: State, t: nat, v: Elem)
    requires t < |s.threads| && s.threads[t] == Idle
    ensures Next(s, s.(threads := s.threads[t := EnqLockSize(v)]), t)
    ensures Next(s, s.(threads := s.threads[t := DeqLockTail]), t)
  {
    assert Begin(s, At(s, t, EnqLockSize(v)), t) && Begin(s, At(s, t, DeqLockTail), t);
  }

  /** `s'` is `s` after thread `t` moved on and exactly the threads of `woken` woke up. */
  predicate WokeExactly(s: State, s': State, t: nat, woken: set<nat>) {
    && |s'.threads| == |s.threads|
    && forall u :: 0 <= u < |s.threads| && u != t ==> s'.threads[u] == if u in woken then DeqWoken else s.threads[u]
  }

  /** The signal of `pcq_enqueue` may wake any of the sleeping dequeuers, as long as it wakes one. */
  lemma AnyWakeUpCanHappen(s: State, t: nat, woken: set<nat>)
    requires Inv(s) && t < |s.threads| && s.threads[t].EnqSignal?
    requires woken <= Sleepers(s.threads) && (woken == {} ==> Sleepers(s.threads) == {})
    ensures exists s' :: Move(s, s', t) && WokeExactly(s, s', t, woken)
  {
    var s' := Moved(s, t, woken);
    assert Move(s, s', t) && WokeExactly(s, s', t, woken);
  }

  /** A sleeping thread may wake up for no reason, on either condition variable, and nothing else changes. */
  lemma AnyoneCanWakeUp(s: State, t: nat)
    requires t < |s.threads|
    ensures s.threads[t] == DeqAsleep ==> Next(s, s.(threads := s.threads[t := DeqWoken]), t)
    ensures s.threads[t].EnqAsleep? ==> Next(s, s.(threads := s.threads[t := EnqWoken(s.threads[t].v)]), t)
  {
    if s.threads[t] == DeqAsleep {
      assert Spurious(s, s.(threads := s.threads[t := DeqWoken]), t);
    } else if s.threads[t].EnqAsleep? {
      assert Spurious(s, s.(threads := s.threads[t := EnqWoken(s.threads[t].v)]), t);
    }
  }

  lemma HolderMoves(s: State, t: nat)
    requires LocksOk(s) && s.tailLock == Some(t) && !s.threads[t].EnqAsleep?
    ensures CanMove(s, t)
  {
    if s.threads[t].EnqLockPusher? || s.threads[t].EnqWoken? {
      if s.pusherLock.Some? {
        var u := s.pusherLock.value;
        assert HoldsPusher(s.threads[u]) && u == t;
      }
    }
  }

  lemma SizeHolderMoves(s: State)
    requires LocksOk(s) && s.tailLock == None && s.sizeLock.Some?
    ensures HoldsSize(s.threads[s.sizeLock.value]) && CanMove(s, s.sizeLock.value)
  {
    assert !HoldsTail(s.threads[s.sizeLock.value]);
  }

  lemma QuiescentShape(s: State)
    requires Inv(s) && Quiescent(s) && !AllReturned(s)
    ensures ParkedProducer(s) || StarvedDequeuers(s)
  {
    if s.tailLock.Some? {
      var t := s.tailLock.value;
      if !s.threads[t].EnqAsleep? {
        HolderMoves(s, t);
      }
      assert HolderPc(s).EnqAsleep?;
    } else {
      if s.sizeLock.Some? {
        SizeHolderMoves(s);
      }
      forall t | 0 <= t < |s.threads| ensures s.threads[t] == Idle || s.threads[t] == DeqAsleep {
        assert !CanMove(s, t);
      }
      AsleepOnEmpty(s);
      var t :| 0 <= t < |s.threads| && s.threads[t] != Idle;
      assert t in Sleepers(s.threads);
    }
  }

  lemma AsleepOnEmpty(s: State)
    requires Inv(s) && s.tailLock == None
    requires forall t :: 0 <= t < |s.threads| ==> s.threads[t] == Idle || s.threads[t] == DeqAsleep
    ensures Sleepers(s.threads) != {} ==> s.size == 0
  {
    assert Woken(s.threads) == {};
  }

  /**
   The only ways to get stuck.  With some call unfinished, no thread can move without a
   spurious wake-up exactly when all unfinished calls are dequeues asleep on an empty queue,
   or a producer is parked on a full one.
   */
  lemma QuiescentIff(s: State)
    requires Inv(s) && !AllReturned(s)
    ensures Quiescent(s) <==> StarvedDequeuers(s) || ParkedProducer(s)
  {
    if Quiescent(s) {
      QuiescentShape(s);
    } else if ParkedProducer(s) {
      var t :| 0 <= t < |s.threads| && s.threads[t].EnqAsleep?;
      ParkedBlocksAll(s, t);
    }
  }

  /** While a producer is parked no other thread is inside the queue, and none can get in. */
  lemma ParkedBlocksAll(s: State, t: nat)
    requires LocksOk(s) && t < |s.threads| && s.threads[t].EnqAsleep?
    ensures Quiescent(s)
  {
    forall u | 0 <= u < |s.threads| ensures !CanMove(s, u) {
      assert s.sizeLock == Some(t) && s.tailLock == Some(t);
    }
  }

  // ----- the parked state is for ever -----

  /** Thread `t` is in the wait loop of `pcq_enqueue` on a full queue. */
  predicate InWaitLoop(s: State, t: nat) {
    && t < |s.threads| && s.size >= s.Cap()
    && (s.threads[t].EnqAsleep? || s.threads[t].EnqWoken? || s.threads[t].EnqTest?)
  }

  /** The shared queue and everything recorded about it. */
  predicate SameQueue(s: State, s': State) {
    && s'.buf == s.buf && s'.head == s.head && s'.tail == s.tail && s'.size == s.size
    && s'.put == s.put && s'.taken == s.taken && s'.returned == s.returned
  }

  lemma WaitLoopStep(s: State, s': State, t: nat, u: nat)
    requires LocksOk(s) && InWaitLoop(s, t) && Next(s, s', u)
    ensures InWaitLoop(s', t) && SameQueue(s, s')
    ensures s'.sizeLock == Some(t) && s'.tailLock == Some(t)
  {
    assert s.sizeLock == Some(t) && s.tailLock == Some(t);
    assert u != t ==> !HoldsSize(s.threads[u]) && !HoldsTail(s.threads[u]);
  }

  /**
   Once a producer waits on a full queue it holds `pcq_tail_lock` and
   `pcq_current_size_lock` in every continuation, spurious wake-ups and new calls included;
   the queue never changes again and no further dequeue returns.
   */
  lemma {:induction false} ParkedForEver(states: seq<State>, who: seq<nat>, t: nat, i: nat)
    requires Execution(states, who) && Inv(states[0]) && InWaitLoop(states[0], t) && i < |states|
    ensures InWaitLoop(states[i], t) && SameQueue(states[0], states[i])
    ensures states[i].sizeLock == Some(t) && states[i].tailLock == Some(t)
  {
    if i > 0 {
      ParkedForEver(states, who, t, i - 1);
      InvAlways(states, who, i - 1);
      assert StepAt(states, who, i - 1);
      WaitLoopStep(states[i - 1], states[i], t, who[i - 1]);
    }
  }

  // ----- every run without spurious wake-ups ends -----

  /** Steps a thread may still take; a signal may send each of `n` threads back two steps. */
  function Rank(pc: Pc, n: nat): nat {
    match pc
    case Idle => 0
    case EnqLockSize(_) => 2 * n + 11
    case EnqLockTail(_) => 2 * n + 10
    case EnqLockPusher(_) => 2 * n + 9
    case EnqWoken(_) => 2 * n + 9
    case EnqTest(_) => 2 * n + 8
    case EnqAsleep(_) => 2 * n + 7
    case EnqStore(_) => 2 * n + 7
    case EnqMoveTail(_) => 2 * n + 6
    case EnqGrow(_) => 2 * n + 5
    case EnqSignal => 2 * n + 4
    case EnqUnlockPusher => 3
    case EnqUnlockTail => 2
    case EnqUnlockSize => 1
    case DeqLockTail => 8
    case DeqWoken => 8
    case DeqTest => 7
    case DeqAsleep => 6
    case DeqLoad => 5
    case DeqMoveHead(_) => 4
    case DeqShrink(_) => 3
    case DeqSignal(_) => 2
    case DeqUnlockTail(_) => 1
  }

  function Sum(threads: seq<Pc>, f: Pc -> nat): nat {
    if threads == [] then 0 else Sum(threads[..|threads| - 1], f) + f(threads[|threads| - 1])
  }

  lemma {:induction false} SumUpdate(threads: seq<Pc>, t: nat, pc: Pc, f: Pc -> nat)
    requires t < |threads|
    ensures Sum(threads[t := pc], f) == Sum(threads, f) - f(threads[t]) + f(pc)
  {
    var last := |threads| - 1;
    if t == last {
      assert threads[t := pc][..last] == threads[..last];
    } else {
      SumUpdate(threads[..last], t, pc, f);
      assert threads[t := pc][..last] == threads[..last][t := pc];
    }
  }

  lemma WakeFront(threads: seq<Pc>, woken: set<nat>)
    requires threads != []
    ensures var last := |threads| - 1;
      && Wake(threads, woken)[..last] == Wake(threads[..last], woken)
      && Wake(threads, woken)[last] == if last in woken then WakeUp(threads[last]) else threads[last]
  {
  }

  /** `f` does not tell a sleeping thread from a woken one. */
  ghost predicate WakeSame(f: Pc -> nat) {
    forall pc {:trigger WakeUp(pc)} :: f(WakeUp(pc)) == f(pc)
  }

  lemma {:induction false} SumWake(threads: seq<Pc>, woken: set<nat>, f: Pc -> nat)
    requires WakeSame(f)
    ensures Sum(Wake(threads, woken), f) == Sum(threads, f)
  {
    if threads != [] {
      SumWake(threads[..|threads| - 1], woken, f);
      WakeFront(threads, woken);
    }
  }

  function RankOf(n: nat): Pc -> nat {
    pc => Rank(pc, n)
  }

  lemma {:induction false} RankWake(threads: seq<Pc>, woken: set<nat>, n: nat)
    ensures Sum(Wake(threads, woken), RankOf(n)) <= Sum(threads, RankOf(n)) + 2 * |threads|
  {
    if threads != [] {
      RankWake(threads[..|threads| - 1], woken, n);
      WakeFront(threads, woken);
    }
  }

  function Measure(s: State): nat {
    Sum(s.threads, RankOf(|s.threads|))
  }

  /** No producer is asleep while a dequeuer holds `pcq_tail_lock`: the signal at the end of `pcq_dequeue` wakes nobody. */
  lemma DequeueSignalsNobody(s: State, t: nat)
    requires LocksOk(s) && t < |s.threads| && s.threads[t].DeqSignal?
    ensures Parked(s.threads) == {}
  {
    assert s.tailLock == Some(t);
    assert forall u :: u in Parked(s.threads) ==> HoldsTail(s.threads[u]);
  }

  lemma SignalShape(s: State, s': State, t: nat, woken: set<nat>)
    requires Bounds(s) && t < |s.threads| && s' == Moved(s, t, woken)
    requires s.threads[t].EnqSignal? || s.threads[t].DeqSignal?
    ensures Wake(s.threads, woken)[t] == s.threads[t]
    ensures s'.threads == Wake(s.threads, woken)[t := s'.threads[t]]
    ensures s'.size == s.size && s'.Cap() == s.Cap()
    ensures forall n: nat :: Rank(s.threads[t], n) == if s.threads[t].EnqSignal? then 2 * n + 4 else 2
    ensures forall n: nat :: Rank(s'.threads[t], n) == if s.threads[t].EnqSignal? then 3 else 1
    ensures s'.threads[t].EnqUnlockPusher? || s'.threads[t].DeqUnlockTail?
  {
  }

  lemma SignalDecreases(s: State, s': State, t: nat, woken: set<nat>)
    requires LocksOk(s) && Bounds(s) && t < |s.threads| && s' == Moved(s, t, woken)
    requires s.threads[t].EnqSignal? || s.threads[t].DeqSignal?
    requires s.threads[t].DeqSignal? ==> Signals(Parked(s.threads), woken)
    ensures Measure(s') < Measure(s)
  {
    SignalShape(s, s', t, woken);
    SumUpdate(Wake(s.threads, woken), t, s'.threads[t], RankOf(|s.threads|));
    if s.threads[t].EnqSignal? {
      RankWake(s.threads, woken, |s.threads|);
    } else {
      DequeueSignalsNobody(s, t);
      assert woken == {} && Wake(s.threads, woken) == s.threads;
    }
  }

  lemma RankDecreases(s: State, s': State, t: nat, woken: set<nat>, n: nat)
    requires Bounds(s) && t < |s.threads| && CanMove(s, t) && s' == Moved(s, t, woken)
    requires !s.threads[t].EnqSignal? && !s.threads[t].DeqSignal?
    ensures s'.threads == s.threads[t := s'.threads[t]] && Rank(s'.threads[t], n) < Rank(s.threads[t], n)
  {
  }

  lemma StepDecreases(s: State, s': State, t: nat, woken: set<nat>)
    requires Bounds(s) && t < |s.threads| && CanMove(s, t) && s' == Moved(s, t, woken)
    requires !s.threads[t].EnqSignal? && !s.threads[t].DeqSignal?
    ensures Measure(s') < Measure(s)
  {
    RankDecreases(s, s', t, woken, |s.threads|);
    SumUpdate(s.threads, t, s'.threads[t], RankOf(|s.threads|));
  }

  /** Every step but a spurious wake-up or a new call decreases the measure. */
  lemma MoveDecreases(s: State, s': State, t: nat)
    requires Inv(s) && Move(s, s', t)
    ensures Measure(s') < Measure(s)
  {
    var woken :|
      && (s.threads[t].EnqSignal? ==> Signals(Sleepers(s.threads), woken))
      && (s.threads[t].DeqSignal? ==> Signals(Parked(s.threads), woken))
      && s' == Moved(s, t, woken);
    if s.threads[t].EnqSignal? || s.threads[t].DeqSignal? {
      SignalDecreases(s, s', t, woken);
    } else {
      StepDecreases(s, s', t, woken);
    }
  }

  /** A run in which the calls in progress move on, with no spurious wake-up. */
  ghost predicate Progress(states: seq<State>, who: seq<nat>) {
    && |states| == |who| + 1
    && forall i {:trigger who[i]} :: 0 <= i < |who| ==> Move(states[i], states[i + 1], who[i])
  }

  /** Such a run is no longer than the measure at its start. */
  lemma {:induction false} ProgressEnds(states: seq<State>, who: seq<nat>, i: nat)
    requires Progress(states, who) && Inv(states[0]) && i < |states|
    ensures Inv(states[i]) && i + Measure(states[i]) <= Measure(states[0])
  {
    if i > 0 {
      ProgressEnds(states, who, i - 1);
      NextKeepsInv(states[i - 1], states[i], who[i - 1]);
      MoveDecreases(states[i - 1], states[i], who[i - 1]);
    }
  }
}
