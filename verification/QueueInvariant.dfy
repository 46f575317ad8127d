/** What every interleaving of the queue keeps: lock ownership, the ring contents, and wake-ups. */
module QueueInvariant {
  import opened Ring
  import opened QueueSteps

  // ----- which thread holds what -----

  predicate HoldsSize(pc: Pc) {
    pc.EnqLockTail? || pc.EnqUnlockSize? || EnqInside(pc)
  }

  /** Between locking and unlocking `pcq_tail_lock` in `pcq_enqueue`; a parked producer keeps it. */
  predicate EnqInside(pc: Pc) {
    pc.EnqLockPusher? || pc.EnqAsleep? || pc.EnqWoken? || pc.EnqUnlockTail? || HoldsPusher(pc)
  }

  predicate HoldsPusher(pc: Pc) {
    pc.EnqTest? || pc.EnqStore? || pc.EnqMoveTail? || pc.EnqGrow? || pc.EnqSignal? || pc.EnqUnlockPusher?
  }

  predicate DeqInside(pc: Pc) {
    pc.DeqTest? || pc.DeqLoad? || pc.DeqMoveHead? || pc.DeqShrink? || pc.DeqSignal? || pc.DeqUnlockTail?
  }

  predicate HoldsTail(pc: Pc) {
    EnqInside(pc) || DeqInside(pc)
  }

  predicate OwnerIn(lock: Option<nat>, threads: seq<Pc>) {
    lock.Some? ==> lock.value < |threads|
  }

  /** Each lock is owned by exactly the thread whose position says so. */
  ghost predicate LocksOk(s: State) {
    && OwnerIn(s.sizeLock, s.threads) && OwnerIn(s.tailLock, s.threads) && OwnerIn(s.pusherLock, s.threads)
    && (forall t :: 0 <= t < |s.threads| ==>
          && (HoldsSize(s.threads[t]) <==> s.sizeLock == Some(t))
          && (HoldsTail(s.threads[t]) <==> s.tailLock == Some(t))
          && (HoldsPusher(s.threads[t]) <==> s.pusherLock == Some(t)))
  }

  // ----- the ring -----

  predicate Bounds(s: State) {
    s.Cap() > 0 && s.head < s.Cap() && s.tail < s.Cap() && s.size <= s.Cap()
  }

  /** Elements in the ring, oldest first. */
  function Queued(s: State): seq<Elem>
    requires Bounds(s)
  {
    Contents(s.buf, s.head, s.size)
  }

  function Values(ds: seq<Delivery>): seq<Elem> {
    seq(|ds|, i requires 0 <= i < |ds| => ds[i].v)
  }

  /** Nothing is half done: what went in is what came out, then what is in the ring. */
  predicate Consistent(s: State)
    requires Bounds(s)
  {
    && s.tail == Slot(s.head, s.size, s.Cap())
    && s.put == s.taken + Queued(s)
  }

  /** The ring while the thread that holds `pcq_tail_lock` is at `pc`. */
  predicate RingAt(s: State, pc: Pc)
    requires Bounds(s)
  {
    match pc
    case EnqAsleep(_) => Consistent(s) && s.size == s.Cap()
    case EnqWoken(_) => Consistent(s) && s.size == s.Cap()
    case EnqStore(_) => Consistent(s) && s.size < s.Cap()
    case EnqMoveTail(v) => Consistent(s) && s.size < s.Cap() && s.buf[s.tail] == v
    case EnqGrow(v) =>
      && s.size < s.Cap()
      && s.tail == Slot(s.head, s.size + 1, s.Cap())
      && s.buf[Slot(s.head, s.size, s.Cap())] == v
      && s.put == s.taken + Queued(s)
    case DeqLoad => Consistent(s) && s.size > 0
    case DeqMoveHead(r) => Consistent(s) && s.size > 0 && r == s.buf[s.head]
    case DeqShrink(r) =>
      && s.size > 0
      && s.tail == Slot(s.head, s.size - 1, s.Cap())
      && s.put == s.taken + ([r] + Contents(s.buf, s.head, s.size - 1))
    case _ => Consistent(s)
  }

  /** Every element counted out has been returned, but for the one in the hands of the lock holder. */
  predicate ReturnedAt(s: State, pc: Pc) {
    match pc
    case DeqSignal(r) => s.taken == Values(s.returned) + [r]
    case DeqUnlockTail(r) => s.taken == Values(s.returned) + [r]
    case _ => s.taken == Values(s.returned)
  }

  /** Position of the thread that holds `pcq_tail_lock`. */
  function HolderPc(s: State): Pc {
    if s.tailLock.Some? && s.tailLock.value < |s.threads| then s.threads[s.tailLock.value] else Idle
  }

  predicate RingOk(s: State) {
    Bounds(s) && RingAt(s, HolderPc(s)) && ReturnedAt(s, HolderPc(s))
  }

  // ----- wake-ups -----

  /** An element that has been counted in but not yet announced, or is about to be taken out. */
  predicate Pending(pc: Pc) {
    pc.EnqSignal? || pc.DeqTest? || pc.DeqLoad? || pc.DeqMoveHead? || pc.DeqShrink?
  }

  function Slack(s: State): nat {
    if Pending(HolderPc(s)) then 1 else 0
  }

  /** While a dequeuer sleeps, every element in the queue has a woken dequeuer of its own. */
  ghost predicate WakeOk(s: State) {
    Sleepers(s.threads) != {} ==> s.size <= |Woken(s.threads)| + Slack(s)
  }

  ghost predicate Inv(s: State) {
    LocksOk(s) && RingOk(s) && WakeOk(s)
  }

  lemma CreatedOk(buf: seq<Elem>, n: nat)
    requires |buf| > 0
    ensures Inv(Created(buf, n))
  {
    SlotIs(0, 0, |buf|);
    assert Sleepers(Created(buf, n).threads) == {};
  }

  // ----- preservation -----

  /** Only thread `t` took or released the lock. */
  predicate LockBy(lock: Option<nat>, lock': Option<nat>, t: nat) {
    lock' == lock || ((lock == None || lock == Some(t)) && (lock' == None || lock' == Some(t)))
  }

  /** The locks agree with the position of thread `t`. */
  predicate LocksAt(s: State, t: nat)
    requires t < |s.threads|
  {
    && (HoldsSize(s.threads[t]) <==> s.sizeLock == Some(t))
    && (HoldsTail(s.threads[t]) <==> s.tailLock == Some(t))
    && (HoldsPusher(s.threads[t]) <==> s.pusherLock == Some(t))
  }

  /** `s'` is `s` after thread `t` alone acted on the locks. */
  ghost predicate LocalStep(s: State, s': State, t: nat) {
    && t < |s.threads| == |s'.threads|
    && (forall u :: 0 <= u < |s.threads| && u != t ==>
          s'.threads[u] == s.threads[u] || s'.threads[u] == WakeUp(s.threads[u]))
    && LockBy(s.sizeLock, s'.sizeLock, t) && LockBy(s.tailLock, s'.tailLock, t) && LockBy(s.pusherLock, s'.pusherLock, t)
    && LocksAt(s', t)
  }

  lemma EnqIsLocal(s: State, s': State, t: nat, woken: set<nat>)
    requires t < |s.threads| && CanMove(s, t) && Bounds(s) && LocksAt(s, t) && s' == Moved(s, t, woken)
    requires HoldsSize(s.threads[t]) || s.threads[t].EnqLockSize?
    ensures LocalStep(s, s', t)
  {
  }

  lemma DeqWaitIsLocal(s: State, s': State, t: nat, woken: set<nat>)
    requires t < |s.threads| && CanMove(s, t) && Bounds(s) && LocksAt(s, t) && s' == Moved(s, t, woken)
    requires s.threads[t].DeqTest? || s.threads[t].DeqLockTail? || s.threads[t].DeqWoken?
    ensures LocalStep(s, s', t)
  {
  }

  lemma DeqTakeIsLocal(s: State, s': State, t: nat, woken: set<nat>)
    requires t < |s.threads| && CanMove(s, t) && Bounds(s) && LocksAt(s, t) && s' == Moved(s, t, woken)
    requires DeqInside(s.threads[t]) && !s.threads[t].DeqTest?
    ensures LocalStep(s, s', t)
  {
  }

  lemma NextIsLocal(s: State, s': State, t: nat)
    requires t < |s.threads| && Bounds(s) && LocksAt(s, t) && Next(s, s', t)
    ensures LocalStep(s, s', t)
  {
    if Move(s, s', t) {
      var woken :| s' == Moved(s, t, woken);
      if HoldsSize(s.threads[t]) || s.threads[t].EnqLockSize? {
        EnqIsLocal(s, s', t, woken);
      } else if DeqInside(s.threads[t]) && !s.threads[t].DeqTest? {
        DeqTakeIsLocal(s, s', t, woken);
      } else {
        DeqWaitIsLocal(s, s', t, woken);
      }
    }
  }

  lemma LocksKept(s: State, s': State, t: nat)
    requires LocksOk(s) && LocalStep(s, s', t)
    ensures LocksOk(s')
  {
  }

  lemma RingKeptEnq(s: State, s': State, t: nat, woken: set<nat>)
    requires RingOk(s) && t < |s.threads| && LocksAt(s, t) && s' == Moved(s, t, woken)
    requires s.threads[t].EnqStore? || s.threads[t].EnqMoveTail? || s.threads[t].EnqGrow?
    ensures RingOk(s')
  {
    match s.threads[t] {
      case EnqStore(v) =>
        ContentsAppend(s.buf, s.head, s.size, v);
      case EnqMoveTail(v) =>
        SlotNext(s.head, s.size, s.Cap());
      case EnqGrow(v) =>
        ContentsExtend(s.buf, s.head, s.size);
        assert s.put + [v] == s.taken + (Queued(s) + [v]);
    }
  }

  lemma RingKeptDeq(s: State, s': State, t: nat, woken: set<nat>)
    requires RingOk(s) && t < |s.threads| && LocksAt(s, t) && s' == Moved(s, t, woken)
    requires s.threads[t].DeqMoveHead? || s.threads[t].DeqShrink?
    ensures RingOk(s')
  {
    match s.threads[t] {
      case DeqMoveHead(r) =>
        ContentsDrop(s.buf, s.head, s.size);
        SlotShift(s.head, s.size - 1, s.Cap());
      case DeqShrink(r) =>
        var rest := Contents(s.buf, s.head, s.size - 1);
        assert s.taken + ([r] + rest) == s.taken + [r] + rest;
    }
  }

  lemma RingKeptReturn(s: State, s': State, t: nat, woken: set<nat>)
    requires RingOk(s) && t < |s.threads| && LocksAt(s, t) && s' == Moved(s, t, woken)
    requires s.threads[t].DeqUnlockTail?
    ensures RingOk(s')
  {
    var r := s.threads[t].r;
    assert Values(s.returned + [Delivery(t, r)]) == Values(s.returned) + [r];
  }

  /** Outside the accesses the shared queue is untouched, and `pcq_tail_lock` stays or changes hands at rest. */
  lemma RingKeptEnqWaits(s: State, s': State, t: nat, woken: set<nat>)
    requires RingOk(s) && t < |s.threads| && LocksAt(s, t) && CanMove(s, t) && s' == Moved(s, t, woken)
    requires var pc := s.threads[t];
      (HoldsSize(pc) || pc.EnqLockSize?) && !pc.EnqStore? && !pc.EnqMoveTail? && !pc.EnqGrow?
    ensures RingOk(s')
  {
    assert Queued(s') == Queued(s);
  }

  lemma RingKeptDeqWaits(s: State, s': State, t: nat, woken: set<nat>)
    requires RingOk(s) && t < |s.threads| && LocksAt(s, t) && CanMove(s, t) && s' == Moved(s, t, woken)
    requires var pc := s.threads[t];
      !HoldsSize(pc) && !pc.EnqLockSize? && !pc.DeqMoveHead? && !pc.DeqShrink? && !pc.DeqUnlockTail?
    ensures RingOk(s')
  {
    assert Queued(s') == Queued(s);
  }

  lemma RingKeptSleepers(s: State, s': State, t: nat)
    requires RingOk(s) && t < |s.threads| && LocksAt(s, t) && (Spurious(s, s', t) || Begin(s, s', t))
    ensures RingOk(s')
  {
    assert Queued(s') == Queued(s);
    assert HolderPc(s') == HolderPc(s) || (HolderPc(s).EnqAsleep? && HolderPc(s').EnqWoken?);
  }

  lemma RingKept(s: State, s': State, t: nat)
    requires RingOk(s) && t < |s.threads| && LocksAt(s, t) && Next(s, s', t)
    ensures RingOk(s')
  {
    if Move(s, s', t) {
      var woken :| s' == Moved(s, t, woken);
      var pc := s.threads[t];
      if pc.EnqStore? || pc.EnqMoveTail? || pc.EnqGrow? {
        RingKeptEnq(s, s', t, woken);
      } else if pc.DeqMoveHead? || pc.DeqShrink? {
        RingKeptDeq(s, s', t, woken);
      } else if pc.DeqUnlockTail? {
        RingKeptReturn(s, s', t, woken);
      } else if HoldsSize(pc) || pc.EnqLockSize? {
        RingKeptEnqWaits(s, s', t, woken);
      } else {
        RingKeptDeqWaits(s, s', t, woken);
      }
    } else {
      RingKeptSleepers(s, s', t);
    }
  }

  // ----- counting sleepers -----

  lemma MoveOne(threads: seq<Pc>, t: nat, pc: Pc)
    requires t < |threads|
    ensures Sleepers(threads[t := pc]) == Sleepers(threads) - {t} + (if pc == DeqAsleep then {t} else {})
    ensures Woken(threads[t := pc]) == Woken(threads) - {t} + (if pc == DeqWoken then {t} else {})
  {
  }

  lemma WakeSome(threads: seq<Pc>, woken: set<nat>)
    requires woken <= Sleepers(threads)
    ensures Sleepers(Wake(threads, woken)) == Sleepers(threads) - woken
    ensures Woken(Wake(threads, woken)) == Woken(threads) + woken
    ensures |Woken(Wake(threads, woken))| == |Woken(threads)| + |woken|
  {
    assert Woken(threads) !! woken;
    assert Woken(Wake(threads, woken)) == Woken(threads) + woken;
  }

  lemma WakeProducers(threads: seq<Pc>, woken: set<nat>)
    requires woken <= Parked(threads)
    ensures Sleepers(Wake(threads, woken)) == Sleepers(threads)
    ensures Woken(Wake(threads, woken)) == Woken(threads)
  {
  }

  lemma RemoveOne(a: set<nat>, t: nat)
    ensures |a - {t}| == if t in a then |a| - 1 else |a|
    ensures |a - {t} + {t}| == |a - {t}| + 1
  {
    if t in a {
      assert a == a - {t} + {t};
    } else {
      assert a - {t} == a;
    }
  }

  lemma WakeKeptSignal(s: State, s': State, t: nat, woken: set<nat>)
    requires Inv(s) && t < |s.threads| && CanMove(s, t) && s' == Moved(s, t, woken)
    requires s.threads[t].EnqSignal? || s.threads[t].DeqSignal?
    requires s.threads[t].EnqSignal? ==> Signals(Sleepers(s.threads), woken)
    requires s.threads[t].DeqSignal? ==> Signals(Parked(s.threads), woken)
    ensures WakeOk(s')
  {
    var mid := Wake(s.threads, woken);
    MoveOne(mid, t, s'.threads[t]);
    RemoveOne(Woken(mid), t);
    if s.threads[t].EnqSignal? {
      WakeSome(s.threads, woken);
      assert woken != {} ==> |woken| >= 1;
      assert t !in Woken(mid);
    } else {
      WakeProducers(s.threads, woken);
      assert t !in Woken(mid);
    }
  }

  /** How the size and the slack change together, outside the two signals. */
  lemma SlackMove(s: State, s': State, t: nat, woken: set<nat>)
    requires t < |s.threads| && CanMove(s, t) && Bounds(s) && LocksAt(s, t) && s' == Moved(s, t, woken)
    requires !s.threads[t].EnqSignal? && !s.threads[t].DeqSignal?
    requires s.threads[t].DeqShrink? ==> s.size > 0
    ensures s'.threads[t] != DeqWoken && s'.threads == s.threads[t := s'.threads[t]]
    ensures if s'.threads[t] == DeqAsleep then s'.size == 0
            else s'.size + Slack(s) + (if s.threads[t] == DeqWoken then 1 else 0) <= s.size + Slack(s')
  {
  }

  lemma WakeKeptMove(s: State, s': State, t: nat, woken: set<nat>)
    requires WakeOk(s) && t < |s.threads| && CanMove(s, t) && Bounds(s) && LocksAt(s, t) && s' == Moved(s, t, woken)
    requires !s.threads[t].EnqSignal? && !s.threads[t].DeqSignal?
    requires s.threads[t].DeqShrink? ==> s.size > 0
    ensures WakeOk(s')
  {
    SlackMove(s, s', t, woken);
    MoveOne(s.threads, t, s'.threads[t]);
    RemoveOne(Woken(s.threads), t);
    assert t in Woken(s.threads) <==> s.threads[t] == DeqWoken;
    assert t in Sleepers(s.threads) <==> s.threads[t] == DeqAsleep;
  }

  lemma SlackSame(s: State, s': State, t: nat)
    requires t < |s.threads| && LocksAt(s, t) && (Spurious(s, s', t) || Begin(s, s', t))
    ensures Slack(s') == Slack(s) && s'.size == s.size && s'.threads == s.threads[t := s'.threads[t]]
    ensures s'.threads[t] != DeqAsleep && s.threads[t] != DeqWoken
    ensures s.threads[t] == DeqAsleep ==> s'.threads[t] == DeqWoken
  {
  }

  lemma WakeKeptSleepers(s: State, s': State, t: nat)
    requires WakeOk(s) && t < |s.threads| && LocksAt(s, t) && (Spurious(s, s', t) || Begin(s, s', t))
    ensures WakeOk(s')
  {
    SlackSame(s, s', t);
    MoveOne(s.threads, t, s'.threads[t]);
    RemoveOne(Woken(s.threads), t);
  }

  /** Every step of every thread keeps the invariant. */
  lemma NextKeepsInv(s: State, s': State, t: nat)
    requires Inv(s) && Next(s, s', t)
    ensures Inv(s')
  {
    NextIsLocal(s, s', t);
    LocksKept(s, s', t);
    RingKept(s, s', t);
    if Move(s, s', t) {
      var woken :|
        && (s.threads[t].EnqSignal? ==> Signals(Sleepers(s.threads), woken))
        && (s.threads[t].DeqSignal? ==> Signals(Parked(s.threads), woken))
        && s' == Moved(s, t, woken);
      if s.threads[t].EnqSignal? || s.threads[t].DeqSignal? {
        WakeKeptSignal(s, s', t, woken);
      } else {
        assert s.threads[t].DeqShrink? ==> s.size > 0;
        WakeKeptMove(s, s', t, woken);
      }
    } else {
      WakeKeptSleepers(s, s', t);
    }
  }
}
