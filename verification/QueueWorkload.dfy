/** Workloads of the queue: when every call returns, and when some run gets stuck for ever. */
module QueueWorkload {
  import opened Ring
  import opened QueueSteps
  import opened QueueInvariant
  import opened QueueProgress

  /** In `pcq_enqueue`, element not yet counted in. */
  predicate Entering(pc: Pc) {
    pc.EnqLockSize? || pc.EnqLockTail? || pc.EnqLockPusher? || pc.EnqTest? || pc.EnqAsleep? || pc.EnqWoken?
    || pc.EnqStore? || pc.EnqMoveTail? || pc.EnqGrow?
  }

  /** In `pcq_dequeue`, element not yet counted out. */
  predicate Leaving(pc: Pc) {
    pc.DeqLockTail? || pc.DeqTest? || pc.DeqAsleep? || pc.DeqWoken? || pc.DeqLoad? || pc.DeqMoveHead? || pc.DeqShrink?
  }

  const ENTERING: Pc -> nat := pc => if Entering(pc) then 1 else 0

  const LEAVING: Pc -> nat := pc => if Leaving(pc) then 1 else 0

  function Producers(s: State): nat {
    Sum(s.threads, ENTERING)
  }

  function Consumers(s: State): nat {
    Sum(s.threads, LEAVING)
  }

  /** Elements in the queue or on their way in. */
  function Supply(s: State): nat {
    s.size + Producers(s)
  }

  /** What of them is not yet promised to a dequeue under way. */
  function Surplus(s: State): int {
    Supply(s) - Consumers(s)
  }

  lemma CountLocal(s: State, s': State, t: nat, woken: set<nat>)
    requires Bounds(s) && t < |s.threads| && CanMove(s, t) && s' == Moved(s, t, woken)
    requires !s.threads[t].EnqSignal? && !s.threads[t].DeqSignal?
    requires s.threads[t].DeqShrink? ==> s.size > 0
    ensures s'.threads == s.threads[t := s'.threads[t]] && s'.Cap() == s.Cap()
    ensures var pc, pc' := s.threads[t], s'.threads[t];
      && (if pc.DeqShrink? then s'.size + ENTERING(pc') < s.size + ENTERING(pc)
          else s'.size + ENTERING(pc') == s.size + ENTERING(pc))
      && s'.size + ENTERING(pc') - LEAVING(pc') == s.size + ENTERING(pc) - LEAVING(pc)
  {
  }

  lemma CountsWake()
    ensures WakeSame(ENTERING) && WakeSame(LEAVING)
  {
  }

  lemma CountSignal(s: State, s': State, t: nat, woken: set<nat>)
    requires Bounds(s) && t < |s.threads| && s' == Moved(s, t, woken)
    requires s.threads[t].EnqSignal? || s.threads[t].DeqSignal?
    ensures Supply(s') == Supply(s) && Surplus(s') == Surplus(s) && s'.Cap() == s.Cap()
  {
    var mid := Wake(s.threads, woken);
    SignalShape(s, s', t, woken);
    CountsWake();
    SumWake(s.threads, woken, ENTERING);
    SumWake(s.threads, woken, LEAVING);
    SumUpdate(mid, t, s'.threads[t], ENTERING);
    SumUpdate(mid, t, s'.threads[t], LEAVING);
  }

  lemma CountMove(s: State, s': State, t: nat, woken: set<nat>)
    requires Bounds(s) && t < |s.threads| && CanMove(s, t) && s' == Moved(s, t, woken)
    requires s.threads[t].DeqShrink? ==> s.size > 0
    ensures Supply(s') <= Supply(s) && Surplus(s') == Surplus(s) && s'.Cap() == s.Cap()
    ensures !s.threads[t].DeqShrink? ==> Supply(s') == Supply(s)
  {
    if s.threads[t].EnqSignal? || s.threads[t].DeqSignal? {
      CountSignal(s, s', t, woken);
    } else {
      CountLocal(s, s', t, woken);
      SumUpdate(s.threads, t, s'.threads[t], ENTERING);
      SumUpdate(s.threads, t, s'.threads[t], LEAVING);
    }
  }

  /** Calls in progress never add to the supply, and keep the surplus. */
  lemma SupplyStep(s: State, s': State, t: nat)
    requires Inv(s) && (Move(s, s', t) || Spurious(s, s', t))
    ensures Supply(s') <= Supply(s) && Surplus(s') == Surplus(s) && s'.Cap() == s.Cap()
  {
    if Move(s, s', t) {
      var woken :| s' == Moved(s, t, woken);
      CountMove(s, s', t, woken);
    } else {
      SumUpdate(s.threads, t, s'.threads[t], ENTERING);
      SumUpdate(s.threads, t, s'.threads[t], LEAVING);
    }
  }

  lemma {:induction false} SumPositive(threads: seq<Pc>, t: nat, f: Pc -> nat)
    requires t < |threads|
    ensures Sum(threads, f) >= f(threads[t])
  {
    if t < |threads| - 1 {
      SumPositive(threads[..|threads| - 1], t, f);
    }
  }

  lemma {:induction false} SumZero(threads: seq<Pc>, f: Pc -> nat)
    requires forall t :: 0 <= t < |threads| ==> f(threads[t]) == 0
    ensures Sum(threads, f) == 0
  {
    if threads != [] {
      SumZero(threads[..|threads| - 1], f);
    }
  }

  /** At most as many elements as there is room for, and one for every dequeue. */
  predicate Bounded(s: State) {
    Supply(s) <= s.Cap() && Surplus(s) >= 0
  }

  /** A bounded workload never gets stuck. */
  lemma BoundedNotStuck(s: State)
    requires Inv(s) && Bounded(s) && Quiescent(s)
    ensures AllReturned(s)
  {
    if !AllReturned(s) {
      QuiescentIff(s);
      if ParkedProducer(s) {
        var t :| 0 <= t < |s.threads| && s.threads[t].EnqAsleep?;
        SumPositive(s.threads, t, ENTERING);
      } else {
        var t :| 0 <= t < |s.threads| && s.threads[t] != Idle;
        SumPositive(s.threads, t, LEAVING);
        SumZero(s.threads, ENTERING);
      }
    }
  }

  lemma {:induction false} CountsAlways(states: seq<State>, who: seq<nat>, i: nat)
    requires Progress(states, who) && Inv(states[0]) && i < |states|
    ensures Supply(states[i]) <= Supply(states[0]) && Surplus(states[i]) == Surplus(states[0])
    ensures states[i].Cap() == states[0].Cap()
  {
    if i > 0 {
      CountsAlways(states, who, i - 1);
      ProgressEnds(states, who, i - 1);
      var s, s' := states[i - 1], states[i];
      assert Move(s, s', who[i - 1]);
      SupplyStep(s, s', who[i - 1]);
    }
  }

  /**
   Bounded workloads terminate.  With at most as many elements queued or on their way in as
   the queue holds, and no more dequeues than that, every run of the calls in progress is
   finite, and when no thread can move every call has returned.
   */
  lemma BoundedWorkloadReturns(states: seq<State>, who: seq<nat>)
    requires Progress(states, who) && Inv(states[0]) && Bounded(states[0])
    ensures |who| <= Measure(states[0])
    ensures Quiescent(states[|who|]) ==> AllReturned(states[|who|])
  {
    ProgressEnds(states, who, |who|);
    CountsAlways(states, who, |who|);
    if Quiescent(states[|who|]) {
      BoundedNotStuck(states[|who|]);
    }
  }

  // ----- the bound is exact -----

  /** Calls that were made but have not taken any lock. */
  predicate JustMade(pc: Pc) {
    pc.Idle? || pc.EnqLockSize? || pc.DeqLockTail?
  }

  /** A new queue with some enqueue and dequeue calls just made on it. */
  predicate Fresh(s: State, buf: seq<Elem>) {
    && |buf| > 0 && s == Created(buf, |s.threads|).(threads := s.threads)
    && forall t :: 0 <= t < |s.threads| ==> JustMade(s.threads[t])
  }

  lemma FreshOk(s: State, buf: seq<Elem>)
    requires Fresh(s, buf)
    ensures Inv(s)
  {
    SlotIs(0, 0, |buf|);
    assert Sleepers(s.threads) == {};
  }

  /** A run of the calls in progress that starts in `s` and ends in `end`. */
  ghost predicate RunTo(s: State, end: State, states: seq<State>, who: seq<nat>) {
    Progress(states, who) && states[0] == s && states[|who|] == end
  }

  lemma Prepend(s: State, t: nat, s1: State, end: State, states: seq<State>, who: seq<nat>)
    requires Move(s, s1, t) && RunTo(s1, end, states, who)
    ensures RunTo(s, end, [s] + states, [t] + who)
  {
    var states', who' := [s] + states, [t] + who;
    assert states'[0] == s && states'[1] == s1 && who'[0] == t;
    forall i | 0 <= i < |who'| ensures Move(states'[i], states'[i + 1], who'[i]) {
      if i > 0 {
        assert Move(states[i - 1], states[i - 1 + 1], who[i - 1]);
      }
    }
  }

  /** Some run of the calls in progress goes on until no thread can move. */
  lemma {:induction false} MaximalRun(s: State) returns (end: State, states: seq<State>, who: seq<nat>)
    requires Inv(s)
    ensures RunTo(s, end, states, who) && Quiescent(end)
    decreases Measure(s)
  {
    if Quiescent(s) {
      end, states, who := s, [s], [];
    } else {
      var t :| 0 <= t < |s.threads| && CanMove(s, t);
      CanMoveIff(s, t);
      var s1 :| Move(s, s1, t);
      MoveDecreases(s, s1, t);
      NextKeepsInv(s, s1, t);
      end, states, who := MaximalRun(s1);
      Prepend(s, t, s1, end, states, who);
      states, who := [s] + states, [t] + who;
    }
  }

  /** No dequeue call has got past its first line. */
  predicate DequeuersWait(s: State) {
    forall t :: 0 <= t < |s.threads| ==>
      s.threads[t].Idle? || s.threads[t].DeqLockTail? || s.threads[t].EnqLockSize? || HoldsSize(s.threads[t])
  }

  lemma ProducerStep(s: State, t: nat) returns (s1: State)
    requires Inv(s) && DequeuersWait(s) && t < |s.threads| && CanMove(s, t)
    requires s.threads[t].EnqLockSize? || HoldsSize(s.threads[t])
    ensures Move(s, s1, t) && DequeuersWait(s1) && Supply(s1) == Supply(s) && s1.Cap() == s.Cap()
  {
    assert Sleepers(s.threads) == {};
    s1 := Moved(s, t, {});
    assert Move(s, s1, t);
    CountMove(s, s1, t, {});
    assert Wake(s.threads, {}) == s.threads;
  }

  /** When no producer can move and some element has no room, a producer is parked. */
  lemma ProducersStuck(s: State)
    requires Inv(s) && DequeuersWait(s) && Supply(s) > s.Cap()
    requires forall t :: 0 <= t < |s.threads| && (s.threads[t].EnqLockSize? || HoldsSize(s.threads[t])) ==> !CanMove(s, t)
    ensures ParkedProducer(s)
  {
    if s.tailLock.Some? {
      var t := s.tailLock.value;
      if !s.threads[t].EnqAsleep? {
        HolderMoves(s, t);
      }
      assert HolderPc(s).EnqAsleep?;
    } else if s.sizeLock.Some? {
      SizeHolderMoves(s);
    } else {
      forall t | 0 <= t < |s.threads| ensures ENTERING(s.threads[t]) == 0 {
        assert !HoldsSize(s.threads[t]);
      }
      SumZero(s.threads, ENTERING);
    }
  }

  /** With more elements than room, letting the producers run first parks one of them. */
  lemma {:induction false} ProducersFirst(s: State) returns (end: State, states: seq<State>, who: seq<nat>)
    requires Inv(s) && DequeuersWait(s) && Supply(s) > s.Cap()
    ensures RunTo(s, end, states, who) && Inv(end) && ParkedProducer(end)
    decreases Measure(s)
  {
    if t: nat :| t < |s.threads| && (s.threads[t].EnqLockSize? || HoldsSize(s.threads[t])) && CanMove(s, t) {
      var s1 := ProducerStep(s, t);
      MoveDecreases(s, s1, t);
      NextKeepsInv(s, s1, t);
      end, states, who := ProducersFirst(s1);
      Prepend(s, t, s1, end, states, who);
      states, who := [s] + states, [t] + who;
    } else {
      ProducersStuck(s);
      end, states, who := s, [s], [];
    }
  }

  /** Every run of the calls in progress that cannot go on has returned from all of them. */
  ghost predicate AlwaysReturns(s: State) {
    forall end, states, who :: RunTo(s, end, states, who) && Quiescent(end) ==> AllReturned(end)
  }

  lemma BoundedAlwaysReturns(s: State)
    requires Inv(s) && Bounded(s)
    ensures AlwaysReturns(s)
  {
    forall end, states, who | RunTo(s, end, states, who) && Quiescent(end) ensures AllReturned(end) {
      BoundedWorkloadReturns(states, who);
    }
  }

  lemma TooManyDequeuers(s: State)
    requires Inv(s) && Surplus(s) < 0
    ensures !AlwaysReturns(s)
  {
    var end, states, who := MaximalRun(s);
    CountsAlways(states, who, |who|);
    if AllReturned(end) {
      SumZero(end.threads, LEAVING);
    }
  }

  lemma TooManyEnqueuers(s: State)
    requires Inv(s) && DequeuersWait(s) && Supply(s) > s.Cap()
    ensures !AlwaysReturns(s)
  {
    var end, states, who := ProducersFirst(s);
    var t :| 0 <= t < |end.threads| && end.threads[t].EnqAsleep?;
    ParkedBlocksAll(end, t);
  }

  /**
   When every call returns.  Of calls just made on a new queue, all return in every run
   without spurious wake-ups if and only if there are at most as many enqueues as the queue
   holds, and at most as many dequeues as enqueues.
   */
  lemma AlwaysReturnsIff(s: State, buf: seq<Elem>)
    requires Fresh(s, buf)
    ensures AlwaysReturns(s) <==> Producers(s) <= |buf| && Consumers(s) <= Producers(s)
  {
    FreshOk(s, buf);
    if Producers(s) > |buf| {
      TooManyEnqueuers(s);
    } else if Consumers(s) > Producers(s) {
      TooManyDequeuers(s);
    } else {
      BoundedAlwaysReturns(s);
    }
  }
}
