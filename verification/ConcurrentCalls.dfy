/**
 The calls that threads make against the calls that are run and logged: each call made is
 run once, for the thread that made it and in the order in which that thread made its calls;
 and no call waits for ever.
 */
module ConcurrentCalls {
  import opened Bytes
  import opened Disk
  import opened Calls
  import opened DiskInvariant
  import opened Concurrency
  import Directory
  import Ops = Operations
  import Refinement
  import M = FileModel

  /** A call as it was made, and the number of calls that had returned by then. */
  datatype Made = Made(call: Call, since: nat)

  predicate IdleAt(s: System, t: nat) {
    t >= |s.threads| || s.threads[t].Idle?
  }

  /** What thread `t` makes in the step from `s` to `s'`, in which `w.0` moves and would make call `w.1`. */
  function MadeIn(s: System, s': System, w: (nat, Call), t: nat): seq<Made> {
    if w.0 == t && IdleAt(s, t) && !IdleAt(s', t) then [Made(w.1, |s.log|)] else []
  }

  /** The calls that thread `t` made in the first `i` steps. */
  function MadeBy(states: seq<System>, who: seq<(nat, Call)>, t: nat, i: nat): seq<Made>
    requires |states| == |who| + 1 && i < |states|
  {
    if i == 0 then [] else MadeBy(states, who, t, i - 1) + MadeIn(states[i - 1], states[i], who[i - 1], t)
  }

  /** The calls of thread `t` in the log. */
  function LoggedBy(log: seq<Record>, t: nat): seq<Made> {
    if log == [] then []
    else
      var rec := log[|log| - 1];
      LoggedBy(log[..|log| - 1], t) + (if rec.t == t then [Made(rec.call, rec.since)] else [])
  }

  /** The call that thread `t` is in. */
  function Current(s: System, t: nat): seq<Made> {
    if IdleAt(s, t) then [] else [Made(s.threads[t].call, s.threads[t].since)]
  }

  lemma LoggedSnoc(log: seq<Record>, rec: Record, t: nat)
    ensures LoggedBy(log + [rec], t) == LoggedBy(log, t) + (if rec.t == t then [Made(rec.call, rec.since)] else [])
  {
    assert (log + [rec])[..|log|] == log;
  }

  /** The log only grows, by the call of the thread that returns in this step. */
  predicate LogStep(s: System, s': System, u: nat) {
    || (s'.log == s.log && (!IdleAt(s, u) ==> !IdleAt(s', u)))
    || (!IdleAt(s, u) && IdleAt(s', u) && |s'.log| == |s.log| + 1 && s'.log[..|s.log|] == s.log && s'.log[|s.log|].t == u)
  }

  lemma StepLogs(s: System, s': System, u: nat, call: Call)
    requires Next(s, s', u, call)
    ensures LogStep(s, s', u)
    ensures forall t: nat :: t != u ==> Current(s', t) == Current(s, t)
  {
  }

  /** One step neither loses a call, nor adds one that was not made, nor changes one. */
  lemma StepKeepsCalls(s: System, s': System, u: nat, call: Call, t: nat)
    requires Next(s, s', u, call)
    ensures LoggedBy(s'.log, t) + Current(s', t) == LoggedBy(s.log, t) + Current(s, t) + MadeIn(s, s', (u, call), t)
  {
    StepLogs(s, s', u, call);
    if Release(s, s', u) {
      var rec := s'.log[|s.log|];
      assert s'.log == s.log + [rec];
      LoggedSnoc(s.log, rec, t);
    }
  }

  /**
   Every call made is run once, by the thread that made it.  In every state of every
   interleaving, the calls that thread `t` made, in order and with the number of calls that
   had returned when it made them, are its calls in the log, in order, and then the one it
   is in, if any.
   */
  lemma {:induction false} MadeIsLogged(init: Disk, n: nat, states: seq<System>, who: seq<(nat, Call)>, t: nat, i: nat)
    requires Execution(init, n, states, who) && i < |states|
    ensures MadeBy(states, who, t, i) == LoggedBy(states[i].log, t) + Current(states[i], t)
  {
    if i > 0 {
      MadeIsLogged(init, n, states, who, t, i - 1);
      var w := who[i - 1];
      assert StepAt(states, who, i - 1);
      StepKeepsCalls(states[i - 1], states[i], w.0, w.1, t);
    }
  }

  // ----- the same, record by record -----

  /** Thread `t` made call `m` in step `j`. */
  predicate MadeAt(states: seq<System>, who: seq<(nat, Call)>, j: nat, t: nat, m: Made)
    requires |states| == |who| + 1 && j < |who|
  {
    && who[j] == (t, m.call) && m.since == |states[j].log|
    && t < |states[j].threads| == |states[j + 1].threads|
    && states[j].threads[t].Idle? && states[j + 1].threads[t] == Waiting(m.call, m.since)
  }

  ghost predicate WasMade(states: seq<System>, who: seq<(nat, Call)>, i: nat, t: nat, m: Made)
    requires |states| == |who| + 1 && i < |states|
  {
    exists j: nat :: j < i && MadeAt(states, who, j, t, m)
  }

  /** Everything logged, and every call in progress, was made. */
  ghost predicate AllMade(states: seq<System>, who: seq<(nat, Call)>, i: nat)
    requires |states| == |who| + 1 && i < |states|
  {
    var s := states[i];
    && (forall k {:trigger s.log[k]} :: 0 <= k < |s.log| ==> WasMade(states, who, i, s.log[k].t, Made(s.log[k].call, s.log[k].since)))
    && (forall t {:trigger s.threads[t]} :: 0 <= t < |s.threads| && !s.threads[t].Idle? ==>
          WasMade(states, who, i, t, Made(s.threads[t].call, s.threads[t].since)))
  }

  lemma MadeStays(states: seq<System>, who: seq<(nat, Call)>, i: nat, t: nat, m: Made)
    requires |states| == |who| + 1 && 0 < i < |states| && WasMade(states, who, i - 1, t, m)
    ensures WasMade(states, who, i, t, m)
  {
    var j: nat :| j < i - 1 && MadeAt(states, who, j, t, m);
  }

  lemma ThreadAfter(s: System, s': System, u: nat, call: Call, t: nat)
    requires Next(s, s', u, call) && t < |s'.threads| && !s'.threads[t].Idle?
    ensures t < |s.threads| == |s'.threads|
    ensures if s.threads[t].Idle? then u == t && s'.threads[t] == Waiting(call, |s.log|)
            else s'.threads[t].call == s.threads[t].call && s'.threads[t].since == s.threads[t].since
  {
  }

  lemma LogAfter(s: System, s': System, u: nat, call: Call, k: nat)
    requires Next(s, s', u, call) && k < |s'.log|
    ensures if k < |s.log| then s'.log[k] == s.log[k]
            else u < |s.threads| && !s.threads[u].Idle? && s'.log[k].t == u
                 && s'.log[k].call == s.threads[u].call && s'.log[k].since == s.threads[u].since
  {
  }

  lemma {:induction false} AllMadeAlways(init: Disk, n: nat, states: seq<System>, who: seq<(nat, Call)>, i: nat)
    requires Execution(init, n, states, who) && i < |states|
    ensures AllMade(states, who, i)
  {
    if i > 0 {
      AllMadeAlways(init, n, states, who, i - 1);
      var s, s', u, call := states[i - 1], states[i], who[i - 1].0, who[i - 1].1;
      assert StepAt(states, who, i - 1);
      forall t | 0 <= t < |s'.threads| && !s'.threads[t].Idle?
        ensures WasMade(states, who, i, t, Made(s'.threads[t].call, s'.threads[t].since))
      {
        ThreadAfter(s, s', u, call, t);
        if s.threads[t].Idle? {
          assert MadeAt(states, who, i - 1, t, Made(call, |s.log|));
        } else {
          MadeStays(states, who, i, t, Made(s.threads[t].call, s.threads[t].since));
        }
      }
      forall k | 0 <= k < |s'.log|
        ensures WasMade(states, who, i, s'.log[k].t, Made(s'.log[k].call, s'.log[k].since))
      {
        LogAfter(s, s', u, call, k);
        var rec := s'.log[k];
        if k < |s.log| {
          MadeStays(states, who, i, rec.t, Made(s.log[k].call, s.log[k].since));
        } else {
          MadeStays(states, who, i, u, Made(s.threads[u].call, s.threads[u].since));
        }
      }
    }
  }

  /**
   Every entry of the log is a call that its thread made in an earlier step, when as many
   calls had returned as the entry says.
   */
  lemma LoggedWasMade(init: Disk, n: nat, states: seq<System>, who: seq<(nat, Call)>, i: nat, k: nat)
    requires Execution(init, n, states, who) && i < |states| && k < |states[i].log|
    ensures var rec := states[i].log[k];
      WasMade(states, who, i, rec.t, Made(rec.call, rec.since))
  {
    AllMadeAlways(init, n, states, who, i);
    var rec := states[i].log[k];
  }

  // ----- every call returns -----

  /** A step of a call that was made. */
  predicate Progresses(s: System, s': System, t: nat) {
    Acquire(s, s', t) || Work(s, s', t) || Release(s, s', t)
  }

  /** An idle thread can make any call. */
  lemma AnyCallCanBeMade(s: System, t: nat, call: Call)
    requires t < |s.threads| && s.threads[t].Idle?
    ensures exists s' :: Next(s, s', t, call) && s'.threads == s.threads[t := Waiting(call, |s.log|)]
  {
    var s' := s.(threads := s.threads[t := Waiting(call, |s.log|)]);
    assert Next(s, s', t, call);
  }

  /** The number of steps that a call may still take. */
  function Rank(th: Thread): nat {
    match th
    case Idle => 0
    case Waiting(_, _) => 6
    case Running(_, _, ph) =>
      match ph
      case Start => 5
      case Creating => 4
      case Allocating(_) => 4
      case Truncating(_) => 3
      case Linking(_) => 3
      case Copying(_) => 3
      case Fetching(_) => 3
      case Deleting(_) => 3
      case Opening(_, _) => 2
      case Advancing(_) => 2
      case Fetched(_, _) => 2
      case Clearing => 2
      case Finished(_) => 1
  }

  function Measure(threads: seq<Thread>): nat {
    if threads == [] then 0 else Measure(threads[..|threads| - 1]) + Rank(threads[|threads| - 1])
  }

  lemma {:induction false} MeasureUpdate(threads: seq<Thread>, t: nat, th: Thread)
    requires t < |threads|
    ensures Measure(threads[t := th]) == Measure(threads) - Rank(threads[t]) + Rank(th)
  {
    var last := |threads| - 1;
    if t == last {
      assert threads[t := th][..last] == threads[..last];
    } else {
      MeasureUpdate(threads[..last], t, th);
      assert threads[t := th][..last] == threads[..last][t := th];
    }
  }

  lemma {:induction false} MeasureBound(threads: seq<Thread>)
    ensures Measure(threads) <= 6 * |threads|
  {
    if threads != [] {
      MeasureBound(threads[..|threads| - 1]);
    }
  }

  lemma StepDescends(d: Disk, call: Call, since: nat, ph: Phase)
    requires Step(d, call, ph).Done?
    ensures Rank(Running(call, since, Step(d, call, ph).value.1)) < Rank(Running(call, since, ph))
  {
  }

  lemma ProgressDescends(s: System, s': System, t: nat)
    requires Progresses(s, s', t)
    ensures Measure(s'.threads) < Measure(s.threads)
  {
    if Work(s, s', t) {
      StepDescends(s.disk, s.threads[t].call, s.threads[t].since, s.threads[t].ph);
    }
    MeasureUpdate(s.threads, t, s'.threads[t]);
  }

  /** A run in which the calls in progress go on and no new ones are made. */
  ghost predicate ProgressRun(states: seq<System>, who: seq<nat>) {
    && |states| == |who| + 1
    && forall i {:trigger who[i]} :: 0 <= i < |who| ==> Progresses(states[i], states[i + 1], who[i])
  }

  lemma {:induction false} ProgressMeasure(states: seq<System>, who: seq<nat>, i: nat)
    requires ProgressRun(states, who) && i < |states|
    ensures i + Measure(states[i].threads) <= Measure(states[0].threads)
  {
    if i > 0 {
      ProgressMeasure(states, who, i - 1);
      var s, s', t := states[i - 1], states[i], who[i - 1];
      assert Progresses(s, s', t);
      ProgressDescends(s, s', t);
    }
  }

  /** Calls in progress are over after at most six steps for each thread. */
  lemma CallsEnd(states: seq<System>, who: seq<nat>)
    requires ProgressRun(states, who)
    ensures |who| <= 6 * |states[0].threads|
  {
    ProgressMeasure(states, who, |who|);
    MeasureBound(states[0].threads);
  }

  /** The call that holds the mutex, if any. */
  function Held(s: System): seq<Call> {
    match s.mutex
    case Some(t) => if t < |s.threads| && s.threads[t].Running? then [s.threads[t].call] else []
    case None => []
  }

  /**
   No deadlock.  In every state of every interleaving in which the calls were allowed in the
   order of the mutex, some call can go on unless all have returned.
   */
  lemma SomeCallGoesOn(p: Params, inodes: seq<Inode>, data: seq<byte>, table: seq<OpenFile>,
                       n: nat, states: seq<System>, who: seq<(nat, Call)>, i: nat)
    requires ParamsOk(p)
    requires |inodes| == p.inodeCount && |data| == MemorySize(p) && |table| == p.openCount
    requires Execution(Ops.Init(p, inodes, data, table).value.0, n, states, who) && i < |states|
    requires M.AllAllowed(M.Empty(Refinement.LimitsOf(p)), CallsOf(states[i].log) + Held(states[i]))
    ensures
      || (forall t :: 0 <= t < |states[i].threads| ==> states[i].threads[t].Idle?)
      || exists t, s' :: Progresses(states[i], s', t)
  {
    var s := states[i];
    LinearizableToModel(p, inodes, data, table, n, states, who, i);
    Linearizable(Ops.Init(p, inodes, data, table).value.0, n, states, who, i);
    if s.mutex.Some? {
      HolderGoesOn(s, s.mutex.value);
    } else if t: nat :| t < |s.threads| && !s.threads[t].Idle? {
      WaiterGoesOn(s, t);
    }
  }

  lemma HolderGoesOn(s: System, t: nat)
    requires t < |s.threads| && s.threads[t].Running?
    requires s.threads[t].ph.Finished? || Step(s.disk, s.threads[t].call, s.threads[t].ph).Done?
    ensures exists s' :: Progresses(s, s', t)
  {
    var Running(call, since, ph) := s.threads[t];
    if ph.Finished? {
      var s' := s.(mutex := Directory.None, threads := s.threads[t := Idle], log := s.log + [Record(t, call, ph.reply, since)]);
      assert Release(s, s', t);
      assert Progresses(s, s', t);
    } else {
      var (d, next) := Step(s.disk, call, ph).value;
      var s' := s.(disk := d, threads := s.threads[t := Running(call, since, next)]);
      assert Work(s, s', t);
      assert Progresses(s, s', t);
    }
  }

  lemma WaiterGoesOn(s: System, t: nat)
    requires t < |s.threads| && s.threads[t].Waiting? && s.mutex == Directory.None
    ensures exists s' :: Progresses(s, s', t)
  {
    var s' := s.(mutex := Directory.Some(t), threads := s.threads[t := Running(s.threads[t].call, s.threads[t].since, Start)]);
    assert Acquire(s, s', t);
    assert Progresses(s, s', t);
  }
}
