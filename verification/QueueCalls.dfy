/**
 Whose element is whose: what one call of `pcq_enqueue` puts into the queue is its own
 argument, once, and what one call of `pcq_dequeue` takes out goes to its own caller, once.
 */
module QueueCalls {
  import opened Ring
  import opened QueueSteps
  import opened QueueInvariant
  import opened QueueProgress

  // ----- what a thread does to the queue -----

  /** The elements a thread counted in, the elements it counted out, and the deliveries it made. */
  datatype Deeds = Deeds(put: seq<Elem>, taken: seq<Elem>, returned: seq<Delivery>)

  const NOTHING := Deeds([], [], [])

  /** The entry that a step adds to a record; `RecordsGrow` says that there is at most one. */
  function Added<T>(before: seq<T>, after: seq<T>): seq<T> {
    if |after| > |before| then [after[|before|]] else []
  }

  /** `d` and what the step of thread `u` from `s` to `s'` does on behalf of thread `t`. */
  function Extended(d: Deeds, s: State, s': State, u: nat, t: nat): Deeds {
    if u == t then Deeds(d.put + Added(s.put, s'.put), d.taken + Added(s.taken, s'.taken), d.returned + Added(s.returned, s'.returned))
    else d
  }

  predicate Range(states: seq<State>, who: seq<nat>, start: nat, end: nat) {
    |states| == |who| + 1 && start <= end <= |who|
  }

  /** What thread `t` did between the states `start` and `end`. */
  function Did(states: seq<State>, who: seq<nat>, t: nat, start: nat, end: nat): Deeds
    requires Range(states, who, start, end)
    decreases end
  {
    if start == end then NOTHING
    else Extended(Did(states, who, t, start, end - 1), states[end - 1], states[end], who[end - 1], t)
  }

  // ----- where a call is -----

  /** A call of `pcq_enqueue` with argument `v` that has done `d` so far. */
  predicate Enqueueing(pc: Pc, v: Elem, d: Deeds) {
    match pc
    case EnqLockSize(w) => w == v && d == NOTHING
    case EnqLockTail(w) => w == v && d == NOTHING
    case EnqLockPusher(w) => w == v && d == NOTHING
    case EnqTest(w) => w == v && d == NOTHING
    case EnqAsleep(w) => w == v && d == NOTHING
    case EnqWoken(w) => w == v && d == NOTHING
    case EnqStore(w) => w == v && d == NOTHING
    case EnqMoveTail(w) => w == v && d == NOTHING
    case EnqGrow(w) => w == v && d == NOTHING
    case EnqSignal => d == Deeds([v], [], [])
    case EnqUnlockPusher => d == Deeds([v], [], [])
    case EnqUnlockTail => d == Deeds([v], [], [])
    case EnqUnlockSize => d == Deeds([v], [], [])
    case _ => false
  }

  /** A call of `pcq_dequeue` that has done `d` so far. */
  predicate Dequeueing(pc: Pc, d: Deeds) {
    match pc
    case DeqLockTail => d == NOTHING
    case DeqTest => d == NOTHING
    case DeqAsleep => d == NOTHING
    case DeqWoken => d == NOTHING
    case DeqLoad => d == NOTHING
    case DeqMoveHead(_) => d == NOTHING
    case DeqShrink(_) => d == NOTHING
    case DeqSignal(r) => d == Deeds([], [r], [])
    case DeqUnlockTail(r) => d == Deeds([], [r], [])
    case _ => false
  }

  /** A whole call of `pcq_dequeue` by thread `t`: one element out, and that element to `t`. */
  predicate Dequeued(t: nat, d: Deeds) {
    |d.taken| == 1 && d == Deeds([], d.taken, [Delivery(t, d.taken[0])])
  }

  /** The call goes on, or has returned having put its argument. */
  predicate EnqueueGoesOn(pc: Pc, v: Elem, d: Deeds) {
    if pc == Idle then d == Deeds([v], [], []) else Enqueueing(pc, v, d)
  }

  /** The call goes on, or has returned what it took to its caller. */
  predicate DequeueGoesOn(pc: Pc, t: nat, d: Deeds) {
    if pc == Idle then Dequeued(t, d) else Dequeueing(pc, d)
  }

  // ----- one step -----

  /** Nothing new, or one entry. */
  predicate GrowsByOne<T(==)>(before: seq<T>, after: seq<T>) {
    before <= after && |after| <= |before| + 1
  }

  lemma EnqueueRecords(s: State, s': State, u: nat, woken: set<nat>)
    requires Bounds(s) && u < |s.threads| && s' == Moved(s, u, woken)
    requires HoldsSize(s.threads[u]) || s.threads[u].EnqLockSize?
    ensures |s'.threads| == |s.threads| && s'.taken == s.taken && s'.returned == s.returned
    ensures GrowsByOne(s.put, s'.put)
  {
  }

  lemma DequeueRecords(s: State, s': State, u: nat, woken: set<nat>)
    requires Bounds(s) && u < |s.threads| && s' == Moved(s, u, woken)
    requires !HoldsSize(s.threads[u]) && !s.threads[u].EnqLockSize?
    ensures |s'.threads| == |s.threads| && s'.put == s.put
    ensures GrowsByOne(s.taken, s'.taken) && GrowsByOne(s.returned, s'.returned)
    ensures s'.returned != s.returned ==> s'.returned[|s.returned|].t == u
  {
  }

  /** The records only grow, by at most one entry a step, and a delivery names the thread that takes the step. */
  lemma RecordsGrow(s: State, s': State, u: nat)
    requires Bounds(s) && Next(s, s', u)
    ensures |s'.threads| == |s.threads| && u < |s.threads|
    ensures GrowsByOne(s.put, s'.put) && GrowsByOne(s.taken, s'.taken) && GrowsByOne(s.returned, s'.returned)
    ensures s'.returned != s.returned ==> s'.returned[|s.returned|].t == u
  {
    if Move(s, s', u) {
      var woken :| s' == Moved(s, u, woken);
      if HoldsSize(s.threads[u]) || s.threads[u].EnqLockSize? {
        EnqueueRecords(s, s', u, woken);
      } else {
        DequeueRecords(s, s', u, woken);
      }
    }
  }

  /** Another thread's step leaves a thread where it is, or wakes it. */
  lemma OthersStay(s: State, s': State, u: nat, t: nat)
    requires Bounds(s) && Next(s, s', u) && t < |s.threads| && u != t
    ensures |s'.threads| == |s.threads|
    ensures s'.threads[t] == s.threads[t] || s'.threads[t] == WakeUp(s.threads[t])
  {
    if Move(s, s', u) {
      var woken :| s' == Moved(s, u, woken);
      if s.threads[u].EnqSignal? || s.threads[u].DeqSignal? {
        SignalShape(s, s', u, woken);
      } else {
        RankDecreases(s, s', u, woken, 0);
      }
    }
  }

  lemma EnqueueMoves(s: State, s': State, t: nat, woken: set<nat>, v: Elem, d: Deeds)
    requires Bounds(s) && t < |s.threads| && CanMove(s, t) && s' == Moved(s, t, woken)
    requires Enqueueing(s.threads[t], v, d)
    ensures t < |s'.threads| && EnqueueGoesOn(s'.threads[t], v, Extended(d, s, s', t, t))
  {
  }

  /** A step of any thread keeps a call of `pcq_enqueue` to its argument. */
  lemma EnqueueStep(s: State, s': State, u: nat, t: nat, v: Elem, d: Deeds)
    requires Bounds(s) && Next(s, s', u) && t < |s.threads| && Enqueueing(s.threads[t], v, d)
    ensures t < |s'.threads| && EnqueueGoesOn(s'.threads[t], v, Extended(d, s, s', u, t))
  {
    if u != t {
      OthersStay(s, s', u, t);
    } else if Move(s, s', u) {
      var woken :| s' == Moved(s, u, woken);
      EnqueueMoves(s, s', t, woken, v, d);
    }
  }

  lemma DequeueMoves(s: State, s': State, t: nat, woken: set<nat>, d: Deeds)
    requires Bounds(s) && t < |s.threads| && CanMove(s, t) && s' == Moved(s, t, woken)
    requires Dequeueing(s.threads[t], d)
    ensures t < |s'.threads| && DequeueGoesOn(s'.threads[t], t, Extended(d, s, s', t, t))
  {
  }

  /** A step of any thread keeps a call of `pcq_dequeue` to what it took. */
  lemma DequeueStep(s: State, s': State, u: nat, t: nat, d: Deeds)
    requires Bounds(s) && Next(s, s', u) && t < |s.threads| && Dequeueing(s.threads[t], d)
    ensures t < |s'.threads| && DequeueGoesOn(s'.threads[t], t, Extended(d, s, s', u, t))
  {
    if u != t {
      OthersStay(s, s', u, t);
    } else if Move(s, s', u) {
      var woken :| s' == Moved(s, u, woken);
      DequeueMoves(s, s', t, woken, d);
    }
  }

  /** An idle thread does nothing, and leaves only by making one of the two calls. */
  lemma IdleStep(s: State, s': State, u: nat, t: nat)
    requires Bounds(s) && Next(s, s', u) && t < |s.threads| && s.threads[t] == Idle
    ensures t < |s'.threads| && Extended(NOTHING, s, s', u, t) == NOTHING
    ensures s'.threads[t] == Idle || (u == t && (s'.threads[t].EnqLockSize? || s'.threads[t] == DeqLockTail))
  {
    if u != t {
      OthersStay(s, s', u, t);
    }
  }

  /** Only the store into `taken` at one position counts an element out. */
  lemma CountsOut(s: State, s': State, u: nat)
    requires Next(s, s', u) && s'.taken != s.taken
    ensures u < |s.threads| && s.threads[u].DeqShrink? && s'.taken == s.taken + [s.threads[u].r]
  {
  }

  /** An element is counted out while it is the oldest of those still in the queue. */
  lemma FrontStep(s: State, s': State, u: nat)
    requires Inv(s) && Next(s, s', u) && s'.taken != s.taken
    ensures |s.taken| < |s.put| && s'.taken == s.taken + [s.put[|s.taken|]]
  {
    CountsOut(s, s', u);
    assert HolderPc(s) == s.threads[u];
  }

  // ----- one step of a run -----

  ghost predicate SoundStep(states: seq<State>, who: seq<nat>, k: nat)
    requires |states| == |who| + 1 && k < |who|
  {
    Inv(states[k]) && Next(states[k], states[k + 1], who[k])
  }

  /** An interleaving whose states satisfy the invariant. */
  ghost predicate Sound(states: seq<State>, who: seq<nat>) {
    && |states| == |who| + 1
    && forall k {:trigger SoundStep(states, who, k)} :: 0 <= k < |who| ==> SoundStep(states, who, k)
  }

  lemma ExecutionIsSound(states: seq<State>, who: seq<nat>)
    requires Execution(states, who) && Inv(states[0])
    ensures Sound(states, who)
  {
    forall k | 0 <= k < |who| ensures SoundStep(states, who, k) {
      InvAlways(states, who, k);
      assert StepAt(states, who, k);
    }
  }

  lemma EnqueueStepAt(states: seq<State>, who: seq<nat>, k: nat, t: nat, v: Elem, d: Deeds)
    requires Sound(states, who) && k < |who|
    requires t < |states[k].threads| && Enqueueing(states[k].threads[t], v, d)
    ensures t < |states[k + 1].threads|
    ensures EnqueueGoesOn(states[k + 1].threads[t], v, Extended(d, states[k], states[k + 1], who[k], t))
  {
    assert SoundStep(states, who, k);
    EnqueueStep(states[k], states[k + 1], who[k], t, v, d);
  }

  lemma DequeueStepAt(states: seq<State>, who: seq<nat>, k: nat, t: nat, d: Deeds)
    requires Sound(states, who) && k < |who|
    requires t < |states[k].threads| && Dequeueing(states[k].threads[t], d)
    ensures t < |states[k + 1].threads|
    ensures DequeueGoesOn(states[k + 1].threads[t], t, Extended(d, states[k], states[k + 1], who[k], t))
  {
    assert SoundStep(states, who, k);
    DequeueStep(states[k], states[k + 1], who[k], t, d);
  }

  // ----- one call -----

  /** Thread `t` is inside one call from state `start` to state `end`. */
  predicate Inside(states: seq<State>, t: nat, start: nat, end: nat) {
    && start <= end < |states|
    && forall k :: start <= k <= end ==> t < |states[k].threads| && states[k].threads[t] != Idle
  }

  /** ... and returns in the step after `end`. */
  predicate Call(states: seq<State>, t: nat, start: nat, end: nat) {
    && Inside(states, t, start, end) && end + 1 < |states|
    && t < |states[end + 1].threads| && states[end + 1].threads[t] == Idle
  }

  lemma {:induction false} EnqueueCarries(states: seq<State>, who: seq<nat>, t: nat, v: Elem, start: nat, end: nat)
    requires Sound(states, who)
    requires Inside(states, t, start, end) && states[start].threads[t] == EnqLockSize(v)
    ensures Enqueueing(states[end].threads[t], v, Did(states, who, t, start, end))
    decreases end
  {
    if start < end {
      EnqueueCarries(states, who, t, v, start, end - 1);
      EnqueueStepAt(states, who, end - 1, t, v, Did(states, who, t, start, end - 1));
    }
  }

  /**
   A call `pcq_enqueue(queue, v)` by thread `t`, as long as it has not returned: whatever
   element the thread carries is `v`, and it has put `v` or nothing.
   */
  lemma EnqueueCarriesArgument(states: seq<State>, who: seq<nat>, t: nat, v: Elem, start: nat, end: nat)
    requires Execution(states, who) && Inv(states[0])
    requires Inside(states, t, start, end) && states[start].threads[t] == EnqLockSize(v)
    ensures Enqueueing(states[end].threads[t], v, Did(states, who, t, start, end))
  {
    ExecutionIsSound(states, who);
    EnqueueCarries(states, who, t, v, start, end);
  }

  /** The step of that thread in which something is counted in counts in `v`. */
  lemma EnqueueCountsIn(states: seq<State>, who: seq<nat>, t: nat, v: Elem, start: nat, end: nat)
    requires Execution(states, who) && Inv(states[0])
    requires Inside(states, t, start, end) && states[start].threads[t] == EnqLockSize(v)
    requires end < |who| && who[end] == t && states[end + 1].put != states[end].put
    ensures states[end + 1].put == states[end].put + [v]
  {
    ExecutionIsSound(states, who);
    EnqueueCarries(states, who, t, v, start, end);
    var d := Did(states, who, t, start, end);
    EnqueueStepAt(states, who, end, t, v, d);
    assert SoundStep(states, who, end);
    RecordsGrow(states[end], states[end + 1], t);
    assert Extended(d, states[end], states[end + 1], t, t).put == d.put + [states[end + 1].put[|states[end].put|]];
  }

  /** When it returns it has put `v`, once, and nothing else; it took nothing and delivered nothing. */
  lemma EnqueuePutsArgument(states: seq<State>, who: seq<nat>, t: nat, v: Elem, start: nat, end: nat)
    requires Execution(states, who) && Inv(states[0])
    requires Call(states, t, start, end) && states[start].threads[t] == EnqLockSize(v)
    ensures Did(states, who, t, start, end + 1) == Deeds([v], [], [])
  {
    ExecutionIsSound(states, who);
    EnqueueCarries(states, who, t, v, start, end);
    EnqueueStepAt(states, who, end, t, v, Did(states, who, t, start, end));
  }

  lemma {:induction false} DequeueCarriesTaken(states: seq<State>, who: seq<nat>, t: nat, start: nat, end: nat)
    requires Sound(states, who)
    requires Inside(states, t, start, end) && states[start].threads[t] == DeqLockTail
    ensures Dequeueing(states[end].threads[t], Did(states, who, t, start, end))
    decreases end
  {
    if start < end {
      DequeueCarriesTaken(states, who, t, start, end - 1);
      DequeueStepAt(states, who, end - 1, t, Did(states, who, t, start, end - 1));
    }
  }

  /** Step `k` of thread `t` counts out the oldest element that was put and not yet taken, which is `r`. */
  predicate TakesFront(states: seq<State>, who: seq<nat>, t: nat, k: nat, r: Elem)
    requires |states| == |who| + 1 && k < |who|
  {
    && who[k] == t && |states[k].taken| < |states[k].put|
    && r == states[k].put[|states[k].taken|]
    && states[k + 1].taken == states[k].taken + [r]
  }

  /** Thread `t` counted `r` out in one of its steps. */
  ghost predicate TookFront(states: seq<State>, who: seq<nat>, t: nat, start: nat, end: nat, r: Elem)
    requires Range(states, who, start, end)
  {
    exists k :: start <= k < end && TakesFront(states, who, t, k, r)
  }

  lemma FrontStepAt(states: seq<State>, who: seq<nat>, k: nat)
    requires Sound(states, who) && k < |who| && |states[k + 1].taken| > |states[k].taken|
    ensures TakesFront(states, who, who[k], k, states[k + 1].taken[|states[k].taken|])
  {
    assert SoundStep(states, who, k);
    FrontStep(states[k], states[k + 1], who[k]);
  }

  /** What a thread took, it took from the front. */
  lemma {:induction false} TakenFromFront(states: seq<State>, who: seq<nat>, t: nat, start: nat, end: nat, i: nat)
    requires Sound(states, who) && Range(states, who, start, end)
    requires i < |Did(states, who, t, start, end).taken|
    ensures TookFront(states, who, t, start, end, Did(states, who, t, start, end).taken[i])
    decreases end
  {
    var before := Did(states, who, t, start, end - 1).taken;
    if |before| > i {
      TakenFromFront(states, who, t, start, end - 1, i);
    } else {
      FrontStepAt(states, who, end - 1);
    }
  }

  /**
   A completed call of `pcq_dequeue` by thread `t` counted one element out, the one at the
   front of the queue at that moment, and made one delivery: that element, to `t`.
   */
  lemma DequeueReturnsFront(states: seq<State>, who: seq<nat>, t: nat, start: nat, end: nat)
    requires Execution(states, who) && Inv(states[0])
    requires Call(states, t, start, end) && states[start].threads[t] == DeqLockTail
    ensures var did := Did(states, who, t, start, end + 1);
      && |did.taken| == 1 && did == Deeds([], did.taken, [Delivery(t, did.taken[0])])
      && TookFront(states, who, t, start, end + 1, did.taken[0])
  {
    ExecutionIsSound(states, who);
    DequeueCarriesTaken(states, who, t, start, end);
    DequeueStepAt(states, who, end, t, Did(states, who, t, start, end));
    TakenFromFront(states, who, t, start, end + 1, 0);
  }

  // ----- all calls together -----

  /** `n` threads take all the steps of the run. */
  predicate ThreadsAre(states: seq<State>, who: seq<nat>, n: nat) {
    && |states| == |who| + 1
    && (forall j :: 0 <= j < |states| ==> |states[j].threads| == n)
    && (forall k :: 0 <= k < |who| ==> who[k] < n)
  }

  lemma {:induction false} ThreadCount(buf: seq<Elem>, n: nat, states: seq<State>, who: seq<nat>, k: nat)
    requires Sound(states, who) && states[0] == Created(buf, n) && k < |states|
    ensures |states[k].threads| == n
    ensures k < |who| ==> who[k] < n
  {
    if k > 0 {
      ThreadCount(buf, n, states, who, k - 1);
      assert SoundStep(states, who, k - 1);
      RecordsGrow(states[k - 1], states[k], who[k - 1]);
    }
    if k < |who| {
      assert SoundStep(states, who, k);
      RecordsGrow(states[k], states[k + 1], who[k]);
    }
  }

  lemma ThreadsExist(buf: seq<Elem>, n: nat, states: seq<State>, who: seq<nat>)
    requires Sound(states, who) && states[0] == Created(buf, n)
    ensures ThreadsAre(states, who, n)
  {
    forall j | 0 <= j < |states| ensures |states[j].threads| == n && (j < |who| ==> who[j] < n) {
      ThreadCount(buf, n, states, who, j);
    }
  }

  /** The first position of the call that thread `t` is in at state `k`; `Idle` when it is in none. */
  function CallOf(states: seq<State>, who: seq<nat>, n: nat, t: nat, k: nat): Pc
    requires ThreadsAre(states, who, n) && k < |states| && t < n
  {
    if k == 0 || states[k].threads[t] == Idle || states[k - 1].threads[t] == Idle then states[k].threads[t]
    else CallOf(states, who, n, t, k - 1)
  }

  /** A thread at `pc` is in the call that began at `call`. */
  ghost predicate InCall(call: Pc, pc: Pc) {
    match call
    case Idle => pc == Idle
    case EnqLockSize(v) => exists d :: Enqueueing(pc, v, d)
    case DeqLockTail => exists d :: Dequeueing(pc, d)
    case _ => false
  }

  lemma InCallStep(s: State, s': State, u: nat, t: nat, call: Pc)
    requires Bounds(s) && Next(s, s', u) && t < |s.threads| && InCall(call, s.threads[t]) && s.threads[t] != Idle
    ensures t < |s'.threads| && (s'.threads[t] == Idle || InCall(call, s'.threads[t]))
  {
    match call {
      case EnqLockSize(v) =>
        var d :| Enqueueing(s.threads[t], v, d);
        EnqueueStep(s, s', u, t, v, d);
      case DeqLockTail =>
        var d :| Dequeueing(s.threads[t], d);
        DequeueStep(s, s', u, t, d);
    }
  }

  lemma CallBegins(pc: Pc)
    requires pc == Idle || pc.EnqLockSize? || pc == DeqLockTail
    ensures InCall(pc, pc)
  {
    if pc.EnqLockSize? {
      assert Enqueueing(pc, pc.v, NOTHING);
    } else if pc == DeqLockTail {
      assert Dequeueing(pc, NOTHING);
    }
  }

  lemma {:induction false} CallOfIsRight(buf: seq<Elem>, n: nat, states: seq<State>, who: seq<nat>, t: nat, k: nat)
    requires Sound(states, who) && states[0] == Created(buf, n)
    requires ThreadsAre(states, who, n) && k < |states| && t < n
    ensures InCall(CallOf(states, who, n, t, k), states[k].threads[t])
  {
    if k > 0 {
      CallOfIsRight(buf, n, states, who, t, k - 1);
      assert SoundStep(states, who, k - 1);
      if states[k - 1].threads[t] == Idle {
        IdleStep(states[k - 1], states[k], who[k - 1], t);
        CallBegins(states[k].threads[t]);
      } else {
        InCallStep(states[k - 1], states[k], who[k - 1], t, CallOf(states, who, n, t, k - 1));
      }
    }
  }

  /** The arguments of the enqueue calls that have counted their element in, in the order of doing so. */
  function Arguments(states: seq<State>, who: seq<nat>, n: nat, i: nat): seq<Elem>
    requires ThreadsAre(states, who, n) && i < |states|
  {
    if i == 0 then []
    else
      var call := CallOf(states, who, n, who[i - 1], i - 1);
      Arguments(states, who, n, i - 1) + (if states[i].put != states[i - 1].put && call.EnqLockSize? then [call.v] else [])
  }

  /** Only a call of `pcq_enqueue` counts an element in, and it is the argument. */
  lemma PutStep(s: State, s': State, u: nat, call: Pc)
    requires Bounds(s) && Next(s, s', u) && u < |s.threads| && InCall(call, s.threads[u])
    ensures s'.put == s.put || (call.EnqLockSize? && s'.put == s.put + [call.v])
  {
    RecordsGrow(s, s', u);
    assert s'.put == s.put + Added(s.put, s'.put);
    match call {
      case Idle =>
        IdleStep(s, s', u, u);
      case EnqLockSize(v) =>
        var d :| Enqueueing(s.threads[u], v, d);
        EnqueueStep(s, s', u, u, v, d);
      case DeqLockTail =>
        var d :| Dequeueing(s.threads[u], d);
        DequeueStep(s, s', u, u, d);
    }
  }

  lemma {:induction false} PutIsArgumentsUpTo(buf: seq<Elem>, n: nat, states: seq<State>, who: seq<nat>, i: nat)
    requires Sound(states, who) && states[0] == Created(buf, n) && ThreadsAre(states, who, n) && i < |states|
    ensures states[i].put == Arguments(states, who, n, i)
  {
    if i > 0 {
      PutIsArgumentsUpTo(buf, n, states, who, i - 1);
      CallOfIsRight(buf, n, states, who, who[i - 1], i - 1);
      assert SoundStep(states, who, i - 1);
      PutStep(states[i - 1], states[i], who[i - 1], CallOf(states, who, n, who[i - 1], i - 1));
    }
  }

  /** What was counted in are the arguments of the committed enqueue calls, no more and no less. */
  lemma PutIsArguments(buf: seq<Elem>, n: nat, states: seq<State>, who: seq<nat>, i: nat)
    requires |buf| > 0 && Execution(states, who) && states[0] == Created(buf, n) && i < |states|
    ensures ThreadsAre(states, who, n)
    ensures states[i].put == Arguments(states, who, n, i)
  {
    CreatedOk(buf, n);
    ExecutionIsSound(states, who);
    ThreadsExist(buf, n, states, who);
    PutIsArgumentsUpTo(buf, n, states, who, i);
  }

  /**
   First in, first out, between callers.  In every state of every interleaving the elements
   delivered so far are, in order, the first of the arguments of the committed enqueue
   calls; each step delivers at most one, and to the thread that takes the step.
   */
  lemma DeliversArguments(buf: seq<Elem>, n: nat, states: seq<State>, who: seq<nat>, i: nat)
    requires |buf| > 0 && Execution(states, who) && states[0] == Created(buf, n) && i < |states|
    ensures ThreadsAre(states, who, n)
    ensures Values(states[i].returned) <= Arguments(states, who, n, i)
    ensures i > 0 ==> GrowsByOne(states[i - 1].returned, states[i].returned)
    ensures i > 0 && states[i].returned != states[i - 1].returned ==>
      states[i].returned[|states[i - 1].returned|].t == who[i - 1]
  {
    PutIsArguments(buf, n, states, who, i);
    FifoConservation(buf, n, states, who, i);
    if i > 0 {
      CreatedOk(buf, n);
      ExecutionIsSound(states, who);
      assert SoundStep(states, who, i - 1);
      RecordsGrow(states[i - 1], states[i], who[i - 1]);
    }
  }
}
