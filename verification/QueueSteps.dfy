/**
 producer-consumer/producer-consumer.c as a transition system: one step of one thread is
 one lock operation, one wait, one signal, or one access to the shared queue.
 */
module QueueSteps {
  import opened Ring

  /** What decrementing a `size_t` zero would give. */
  const SIZE_MAX: nat := 0xFFFF_FFFF_FFFF_FFFF

  datatype Option<T> = None | Some(value: T)

  /** Where a thread is; the first group is `pcq_enqueue`, the second `pcq_dequeue`. */
  datatype Pc =
    | Idle
    | EnqLockSize(v: Elem)     // about to lock pcq_current_size_lock
    | EnqLockTail(v: Elem)     // about to lock pcq_tail_lock
    | EnqLockPusher(v: Elem)   // about to lock pcq_pusher_condvar_lock
    | EnqTest(v: Elem)         // about to test whether the queue is full
    | EnqAsleep(v: Elem)       // parked on pcq_pusher_condvar
    | EnqWoken(v: Elem)        // woken, about to re-acquire pcq_pusher_condvar_lock
    | EnqStore(v: Elem)        // about to store the element
    | EnqMoveTail(v: Elem)     // about to advance the tail
    | EnqGrow(v: Elem)         // about to increment the size
    | EnqSignal                // about to signal pcq_popper_condvar
    | EnqUnlockPusher
    | EnqUnlockTail
    | EnqUnlockSize
    | DeqLockTail              // about to lock pcq_tail_lock
    | DeqTest                  // about to test whether the queue is empty
    | DeqAsleep                // asleep on pcq_popper_condvar
    | DeqWoken                 // woken, about to re-acquire pcq_tail_lock
    | DeqLoad                  // about to read the element
    | DeqMoveHead(r: Elem)     // about to advance the head
    | DeqShrink(r: Elem)       // about to decrement the size
    | DeqSignal(r: Elem)       // about to signal pcq_pusher_condvar
    | DeqUnlockTail(r: Elem)   // about to unlock pcq_tail_lock and return r

  /** An element that `pcq_dequeue` returned to thread `t`. */
  datatype Delivery = Delivery(t: nat, v: Elem)

  /**
   The queue, the owners of its locks and the threads.  `put`, `taken` and `returned` record
   the elements counted in, the elements counted out, and the calls that returned one.
   */
  datatype State = State(
    buf: seq<Elem>, head: nat, tail: nat, size: nat,
    sizeLock: Option<nat>, tailLock: Option<nat>, pusherLock: Option<nat>,
    threads: seq<Pc>,
    put: seq<Elem>, taken: seq<Elem>, returned: seq<Delivery>
  ) {
    function Cap(): nat {
      |buf|
    }
  }

  /** `pcq_create`: whatever the new buffer holds. */
  function Created(buf: seq<Elem>, n: nat): State {
    State(buf, 0, 0, 0, None, None, None, seq(n, _ => Idle), [], [], [])
  }

  function WakeUp(pc: Pc): Pc {
    match pc
    case EnqAsleep(v) => EnqWoken(v)
    case DeqAsleep => DeqWoken
    case _ => pc
  }

  function Wake(threads: seq<Pc>, woken: set<nat>): (r: seq<Pc>)
    ensures |r| == |threads|
    ensures forall i :: 0 <= i < |threads| ==> r[i] == if i in woken then WakeUp(threads[i]) else threads[i]
  {
    seq(|threads|, i requires 0 <= i < |threads| => if i in woken then WakeUp(threads[i]) else threads[i])
  }

  ghost function Sleepers(threads: seq<Pc>): set<nat> {
    set i: nat | i < |threads| && threads[i] == DeqAsleep
  }

  ghost function Woken(threads: seq<Pc>): set<nat> {
    set i: nat | i < |threads| && threads[i] == DeqWoken
  }

  ghost function Parked(threads: seq<Pc>): set<nat> {
    set i: nat | i < |threads| && threads[i].EnqAsleep?
  }

  /** `pthread_cond_signal`: wakes at least one of the waiting threads, if there are any. */
  ghost predicate Signals(waiting: set<nat>, woken: set<nat>) {
    woken <= waiting && (waiting != {} ==> woken != {})
  }

  function At(s: State, t: nat, pc: Pc): State
    requires t < |s.threads|
  {
    s.(threads := s.threads[t := pc])
  }

  /** The state after thread `t` moves on; `woken` is used by the two signals only. */
  function Moved(s: State, t: nat, woken: set<nat>): State
    requires t < |s.threads| && s.Cap() > 0 && s.head < s.Cap() && s.tail < s.Cap()
  {
    match s.threads[t]
    case Idle => s
    case EnqLockSize(v) => At(s, t, EnqLockTail(v)).(sizeLock := Some(t))
    case EnqLockTail(v) => At(s, t, EnqLockPusher(v)).(tailLock := Some(t))
    case EnqLockPusher(v) => At(s, t, EnqTest(v)).(pusherLock := Some(t))
    case EnqTest(v) =>
      if s.size >= s.Cap() then At(s, t, EnqAsleep(v)).(pusherLock := None) else At(s, t, EnqStore(v))
    case EnqAsleep(v) => s
    case EnqWoken(v) => At(s, t, EnqTest(v)).(pusherLock := Some(t))
    case EnqStore(v) => At(s, t, EnqMoveTail(v)).(buf := s.buf[s.tail := v])
    case EnqMoveTail(v) => At(s, t, EnqGrow(v)).(tail := (s.tail + 1) % s.Cap())
    case EnqGrow(v) => At(s, t, EnqSignal).(size := s.size + 1, put := s.put + [v])
    case EnqSignal => s.(threads := Wake(s.threads, woken)[t := EnqUnlockPusher])
    case EnqUnlockPusher => At(s, t, EnqUnlockTail).(pusherLock := None)
    case EnqUnlockTail => At(s, t, EnqUnlockSize).(tailLock := None)
    case EnqUnlockSize => At(s, t, Idle).(sizeLock := None)
    case DeqLockTail => At(s, t, DeqTest).(tailLock := Some(t))
    case DeqTest => if s.size == 0 then At(s, t, DeqAsleep).(tailLock := None) else At(s, t, DeqLoad)
    case DeqAsleep => s
    case DeqWoken => At(s, t, DeqTest).(tailLock := Some(t))
    case DeqLoad => At(s, t, DeqMoveHead(s.buf[s.head]))
    case DeqMoveHead(r) => At(s, t, DeqShrink(r)).(head := (s.head + 1) % s.Cap())
    case DeqShrink(r) =>
      At(s, t, DeqSignal(r)).(size := if s.size > 0 then s.size - 1 else SIZE_MAX, taken := s.taken + [r])
    case DeqSignal(r) => s.(threads := Wake(s.threads, woken)[t := DeqUnlockTail(r)])
    case DeqUnlockTail(r) => At(s, t, Idle).(tailLock := None, returned := s.returned + [Delivery(t, r)])
  }

  /** Whether thread `t` can move without a spurious wake-up: it is in a call, awake, and the lock it wants is free. */
  predicate CanMove(s: State, t: nat)
    requires t < |s.threads|
  {
    match s.threads[t]
    case Idle => false
    case EnqAsleep(_) => false
    case DeqAsleep => false
    case EnqLockSize(_) => s.sizeLock == None
    case EnqLockTail(_) => s.tailLock == None
    case DeqLockTail => s.tailLock == None
    case DeqWoken => s.tailLock == None
    case EnqLockPusher(_) => s.pusherLock == None
    case EnqWoken(_) => s.pusherLock == None
    case _ => true
  }

  /** Thread `t` takes its next step. */
  ghost predicate Move(s: State, s': State, t: nat) {
    && t < |s.threads| && CanMove(s, t) && s.Cap() > 0 && s.head < s.Cap() && s.tail < s.Cap()
    && exists woken ::
         && (s.threads[t].EnqSignal? ==> Signals(Sleepers(s.threads), woken))
         && (s.threads[t].DeqSignal? ==> Signals(Parked(s.threads), woken))
         && s' == Moved(s, t, woken)
  }

  /** A sleeping thread wakes up without a signal. */
  predicate Spurious(s: State, s': State, t: nat) {
    && t < |s.threads| && (s.threads[t].EnqAsleep? || s.threads[t].DeqAsleep?)
    && s' == At(s, t, WakeUp(s.threads[t]))
  }

  /** An idle thread makes a call. */
  ghost predicate Begin(s: State, s': State, t: nat) {
    && t < |s.threads| && s.threads[t] == Idle
    && (s' == At(s, t, DeqLockTail) || exists v :: s' == At(s, t, EnqLockSize(v)))
  }

  ghost predicate Next(s: State, s': State, t: nat) {
    Move(s, s', t) || Spurious(s, s', t) || Begin(s, s', t)
  }
}
