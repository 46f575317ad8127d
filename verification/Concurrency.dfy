/**
 Any number of threads calling TecnicoFS under `g_library_mutex`.

 A call runs as the sequence of steps that its C function takes between the mutex
 operations; other threads may run between any two of them.  `Work` is a call that holds
 the mutex and has reached a given point of its function.
 */
module Concurrency {
  import opened Bytes
  import opened CString
  import opened Disk
  import opened Calls
  import Directory
  import Ops = Operations
  import opened DiskInvariant
  import Refinement
  import M = FileModel
  import P = ModelProperties

  /** How far the call that holds the mutex has got. */
  datatype Phase =
    | Start
    | Truncating(k: int)
    | Opening(k: int, offset: nat)
    | Creating
    | Linking(k: int)
    | Allocating(n: nat)
    | Copying(n: nat)
    | Advancing(n: nat)
    | Fetching(n: nat)
    | Fetched(n: nat, bytes: seq<byte>)
    | Deleting(k: int)
    | Clearing
    | Finished(reply: Reply)

  function Code(r: int): Phase {
    Finished(Reply(r, []))
  }

  // ----- one step of each function -----

  function OpenStep(d: Disk, path: Path, mode: Mode, ph: Phase): Outcome<(Disk, Phase)> {
    match ph
    case Start =>
      if !ValidPathname(path) then Done((d, Code(-1)))
      else
        var k :- Ops.Lookup(d, path);
        Done((d, if k >= 0 then Truncating(k) else if mode.creat then Creating else Code(-1)))
    case Truncating(k) =>
      var d1 :- Ops.Truncate(d, k, mode);
      if !ValidInumber(d1, k) then Crash
      else Done((d1, Opening(k, if mode.append then d1.inodes[k].size else 0)))
    case Creating =>
      if !ValidPathname(path) then Crash
      else
        var (d1, k) :- InodeCreate(d, TFile);
        Done((d1, if k == -1 then Code(-1) else Linking(k)))
    case Linking(k) =>
      if !ValidPathname(path) || !ValidInumber(d, Ops.ROOT_DIR_INUM) || !ValidInumber(d, k) then Crash
      else
        var (d1, r) :- AddDirEntry(d, d.inodes[Ops.ROOT_DIR_INUM], BaseName(path), k);
        if r == -1 then
          var d2 :- InodeDelete(d1, k);
          Done((d2, Code(-1)))
        else Done((d1, Opening(k, 0)))
    case Opening(k, offset) =>
      var (d1, h) := AddToTable(d, k, offset);
      Done((d1, Code(h)))
    case _ => Crash
  }

  function WriteStep(d: Disk, h: int, buf: buffer, ph: Phase): Outcome<(Disk, Phase)> {
    if ph.Start? && !IsOpen(d, h) then Done((d, Code(-1)))
    else if !Ops.OpenOnInode(d, h) then Crash
    else
      match ph
      case Start =>
        var n := Ops.WriteLength(d, d.table[h].offset, |buf|);
        Done((d, if n > 0 then Allocating(n) else Code(0)))
      case Allocating(n) =>
        var (d1, r) := Ops.AllocateFor(d, h);
        Done((d1, if r == -1 then Code(-1) else Copying(n)))
      case Copying(n) =>
        var d1 :- Ops.CopyIn(d, h, buf, n);
        Done((d1, Advancing(n)))
      case Advancing(n) => Done((Ops.AdvanceWrite(d, h, n), Code(n)))
      case _ => Crash
  }

  function ReadStep(d: Disk, h: int, len: size_t, ph: Phase): Outcome<(Disk, Phase)> {
    if ph.Start? && !IsOpen(d, h) then Done((d, Code(-1)))
    else if !Ops.OpenOnInode(d, h) then Crash
    else
      match ph
      case Start =>
        var n := Ops.ReadLength(d, h, len);
        Done((d, if n > 0 then Fetching(n) else Code(0)))
      case Fetching(n) =>
        var bytes :- Ops.CopyOut(d, h, n);
        Done((d, Fetched(n, bytes)))
      case Fetched(n, bytes) => Done((Ops.SetOffset(d, h, d.table[h].offset + n), Finished(Reply(n, bytes))))
      case _ => Crash
  }

  function UnlinkStep(d: Disk, path: Path, ph: Phase): Outcome<(Disk, Phase)> {
    match ph
    case Start =>
      if !ValidPathname(path) then Done((d, Code(-1)))
      else
        var k :- Ops.Lookup(d, path);
        Done((d, if k == -1 then Code(-1) else Deleting(k)))
    case Deleting(k) =>
      var d1 :- InodeDelete(d, k);
      Done((d1, Clearing))
    case Clearing =>
      if !ValidPathname(path) then Crash
      else
        var (d1, r) :- Ops.ClearName(d, path);
        Done((d1, Code(r)))
    case _ => Crash
  }

  function CloseStep(d: Disk, h: int, ph: Phase): Outcome<(Disk, Phase)> {
    if !ph.Start? then Crash
    else
      var (d1, r) :- Ops.Close(d, h);
      Done((d1, Code(r)))
  }

  /** The next step of a call that is not finished. */
  function Step(d: Disk, call: Call, ph: Phase): Outcome<(Disk, Phase)> {
    match call
    case Open(path, mode) => OpenStep(d, path, mode, ph)
    case Close(h) => CloseStep(d, h, ph)
    case Write(h, buf) => WriteStep(d, h, buf, ph)
    case Read(h, len) => ReadStep(d, h, len, ph)
    case Unlink(path) => UnlinkStep(d, path, ph)
  }

  // ----- running the rest of a call without interruption -----

  function OpenRest(d: Disk, path: Path, mode: Mode, ph: Phase): Outcome<(Disk, int)> {
    match ph
    case Start => Ops.Open(d, path, mode)
    case Truncating(k) => Ops.OpenExisting(d, k, mode)
    case Creating => if ValidPathname(path) then Ops.OpenNew(d, BaseName(path)) else Crash
    case Linking(k) => if ValidPathname(path) then Ops.Link(d, BaseName(path), k) else Crash
    case Opening(k, offset) => Done(AddToTable(d, k, offset))
    case Finished(r) => Done((d, r.code))
    case _ => Crash
  }

  function WriteRest(d: Disk, h: int, buf: buffer, ph: Phase): Outcome<(Disk, int)> {
    match ph
    case Start => Ops.Write(d, h, buf)
    case Allocating(n) => if Ops.OpenOnInode(d, h) then Ops.WriteSome(d, h, buf, n) else Crash
    case Copying(n) => if Ops.OpenOnInode(d, h) then Ops.Store(d, h, buf, n) else Crash
    case Advancing(n) => if Ops.OpenOnInode(d, h) then Done((Ops.AdvanceWrite(d, h, n), n as int)) else Crash
    case Finished(r) => Done((d, r.code))
    case _ => Crash
  }

  /** The end of a read that copied `bytes`. */
  function Delivered(d: Disk, h: int, n: nat, bytes: seq<byte>): (Disk, Reply)
    requires IsOpen(d, h)
  {
    (Ops.SetOffset(d, h, d.table[h].offset + n), Reply(n, bytes))
  }

  function ReadRest(d: Disk, h: int, len: size_t, ph: Phase): Outcome<(Disk, Reply)> {
    match ph
    case Start => Ops.Read(d, h, len)
    case Fetching(n) =>
      if !Ops.OpenOnInode(d, h) then Crash
      else
        var bytes :- Ops.CopyOut(d, h, n);
        Done(Delivered(d, h, n, bytes))
    case Fetched(n, bytes) => if Ops.OpenOnInode(d, h) then Done(Delivered(d, h, n, bytes)) else Crash
    case Finished(r) => Done((d, r))
    case _ => Crash
  }

  function UnlinkRest(d: Disk, path: Path, ph: Phase): Outcome<(Disk, int)> {
    match ph
    case Start => Ops.Unlink(d, path)
    case Deleting(k) =>
      if !ValidPathname(path) then Crash
      else
        var d1 :- InodeDelete(d, k);
        Ops.ClearName(d1, path)
    case Clearing => if ValidPathname(path) then Ops.ClearName(d, path) else Crash
    case Finished(r) => Done((d, r.code))
    case _ => Crash
  }

  function CloseRest(d: Disk, h: int, ph: Phase): Outcome<(Disk, int)> {
    match ph
    case Start => Ops.Close(d, h)
    case Finished(r) => Done((d, r.code))
    case _ => Crash
  }

  /** What the call returns, and the state it leaves, when it runs on from `ph` alone. */
  function Rest(d: Disk, call: Call, ph: Phase): Outcome<(Disk, Reply)> {
    if ph.Finished? then Done((d, ph.reply))
    else
    match call
    case Open(path, mode) => Ops.WithCode(OpenRest(d, path, mode, ph))
    case Close(h) => Ops.WithCode(CloseRest(d, h, ph))
    case Write(h, buf) => Ops.WithCode(WriteRest(d, h, buf, ph))
    case Read(h, len) => ReadRest(d, h, len, ph)
    case Unlink(path) => Ops.WithCode(UnlinkRest(d, path, ph))
  }

  lemma OpenStepKeepsRest(d: Disk, path: Path, mode: Mode, ph: Phase)
    requires !ph.Finished?
    ensures var o := OpenStep(d, path, mode, ph);
      if o.Crash? then OpenRest(d, path, mode, ph).Crash?
      else OpenRest(o.value.0, path, mode, o.value.1) == OpenRest(d, path, mode, ph)
    ensures OpenStep(d, path, mode, ph).Done? && OpenStep(d, path, mode, ph).value.1.Finished? ==> OpenStep(d, path, mode, ph).value.1.reply.bytes == []
  {
  }

  lemma WriteStepKeepsRest(d: Disk, h: int, buf: buffer, ph: Phase)
    requires !ph.Finished?
    ensures var o := WriteStep(d, h, buf, ph);
      if o.Crash? then WriteRest(d, h, buf, ph).Crash?
      else WriteRest(o.value.0, h, buf, o.value.1) == WriteRest(d, h, buf, ph)
    ensures WriteStep(d, h, buf, ph).Done? && WriteStep(d, h, buf, ph).value.1.Finished? ==> WriteStep(d, h, buf, ph).value.1.reply.bytes == []
  {
  }

  lemma ReadStepKeepsRest(d: Disk, h: int, len: size_t, ph: Phase)
    requires !ph.Finished?
    ensures var o := ReadStep(d, h, len, ph);
      if o.Crash? then ReadRest(d, h, len, ph).Crash?
      else ReadRest(o.value.0, h, len, o.value.1) == ReadRest(d, h, len, ph)
  {
  }

  lemma UnlinkStepKeepsRest(d: Disk, path: Path, ph: Phase)
    requires !ph.Finished?
    ensures var o := UnlinkStep(d, path, ph);
      if o.Crash? then UnlinkRest(d, path, ph).Crash?
      else UnlinkRest(o.value.0, path, o.value.1) == UnlinkRest(d, path, ph)
    ensures UnlinkStep(d, path, ph).Done? && UnlinkStep(d, path, ph).value.1.Finished? ==> UnlinkStep(d, path, ph).value.1.reply.bytes == []
  {
  }

  /** A step does not change what the call returns in the end. */
  lemma StepKeepsRest(d: Disk, call: Call, ph: Phase)
    requires !ph.Finished?
    ensures var o := Step(d, call, ph);
      if o.Crash? then Rest(d, call, ph).Crash? else Rest(o.value.0, call, o.value.1) == Rest(d, call, ph)
  {
    match call {
      case Open(path, mode) => OpenStepKeepsRest(d, path, mode, ph);
      case Close(h) =>
      case Write(h, buf) => WriteStepKeepsRest(d, h, buf, ph);
      case Read(h, len) => ReadStepKeepsRest(d, h, len, ph);
      case Unlink(path) => UnlinkStepKeepsRest(d, path, ph);
    }
  }

  // ----- the threads -----

  /** `since` counts the calls that had returned when this one was made. */
  datatype Thread =
    | Idle
    | Waiting(call: Call, since: nat)
    | Running(call: Call, since: nat, ph: Phase)

  /** A call that returned: its thread, what it returned, and `since`. */
  datatype Record = Record(t: nat, call: Call, reply: Reply, since: nat)

  /** `log` records the calls in the order in which they took the mutex and released it. */
  datatype System = System(disk: Disk, mutex: Directory.Option<nat>, threads: seq<Thread>, log: seq<Record>)

  /** A thread makes a call. */
  predicate Invoke(s: System, s': System, t: nat, call: Call) {
    && t < |s.threads| && s.threads[t].Idle?
    && s' == s.(threads := s.threads[t := Waiting(call, |s.log|)])
  }

  /** A waiting call takes the mutex. */
  predicate Acquire(s: System, s': System, t: nat) {
    && t < |s.threads| && s.threads[t].Waiting? && s.mutex == Directory.None
    && s' == s.(mutex := Directory.Some(t), threads := s.threads[t := Running(s.threads[t].call, s.threads[t].since, Start)])
  }

  /** A call that is inside its function takes a step. */
  predicate Work(s: System, s': System, t: nat) {
    && t < |s.threads| && s.threads[t].Running? && !s.threads[t].ph.Finished?
    && var o := Step(s.disk, s.threads[t].call, s.threads[t].ph);
    && o.Done?
    && s' == s.(disk := o.value.0, threads := s.threads[t := s.threads[t].(ph := o.value.1)])
  }

  /** A call that is done releases the mutex and returns. */
  predicate Release(s: System, s': System, t: nat) {
    && t < |s.threads| && s.threads[t].Running? && s.threads[t].ph.Finished?
    && var Running(call, since, ph) := s.threads[t];
    s' == s.(mutex := Directory.None, threads := s.threads[t := Idle], log := s.log + [Record(t, call, ph.reply, since)])
  }

  predicate Next(s: System, s': System, t: nat, call: Call) {
    Invoke(s, s', t, call) || Acquire(s, s', t) || Work(s, s', t) || Release(s, s', t)
  }

  // ----- linearizability -----

  function CallsOf(log: seq<Record>): seq<Call> {
    seq(|log|, i requires 0 <= i < |log| => log[i].call)
  }

  function RepliesOf(log: seq<Record>): seq<Reply> {
    seq(|log|, i requires 0 <= i < |log| => log[i].reply)
  }

  /** The serial run of the calls that returned, from `init`. */
  function Serial(init: Disk, s: System): Outcome<(Disk, seq<Reply>)> {
    Ops.Run(init, CallsOf(s.log))
  }

  /** The mutex is held by the one thread that is running a call, if any. */
  ghost predicate MutexOk(s: System) {
    && (s.mutex.Some? ==> s.mutex.value < |s.threads| && s.threads[s.mutex.value].Running?)
    && (forall t :: 0 <= t < |s.threads| && s.threads[t].Running? ==> s.mutex == Directory.Some(t))
  }

  /** A call in the log comes after every call that had returned before it was made. */
  ghost predicate RealTimeOk(s: System) {
    && (forall i :: 0 <= i < |s.log| ==> s.log[i].since <= i)
    && (forall t :: 0 <= t < |s.threads| && !s.threads[t].Idle? ==> s.threads[t].since <= |s.log|)
  }

  /**
   The replies are those of the serial run, and the state is the one that run ends in, or is
   on its way from there to the state after the call that holds the mutex.
   */
  ghost predicate Linear(init: Disk, s: System) {
    && var serial := Serial(init, s);
    && serial.Done?
    && serial.value.1 == RepliesOf(s.log)
    && match s.mutex
       case None => s.disk == serial.value.0
       case Some(t) =>
         && t < |s.threads| && s.threads[t].Running?
         && Rest(s.disk, s.threads[t].call, s.threads[t].ph) == Ops.Apply(serial.value.0, s.threads[t].call)
  }

  lemma {:induction false} RunSnoc(d: Disk, calls: seq<Call>, call: Call)
    ensures Ops.Run(d, calls + [call]) ==
      var o := Ops.Run(d, calls);
      if o.Crash? then Crash
      else
        var o1 := Ops.Apply(o.value.0, call);
        if o1.Crash? then Crash else Done((o1.value.0, o.value.1 + [o1.value.1]))
    decreases |calls|
  {
    if calls == [] {
      assert calls + [call] == [call] && [call][1..] == [];
      if Ops.Apply(d, call).Done? {
        var (d1, r) := Ops.Apply(d, call).value;
        assert Ops.Run(d1, []) == Done((d1, []));
        assert [r] + [] == [] + [r];
      }
    } else if Ops.Apply(d, calls[0]).Done? {
      var (d1, r) := Ops.Apply(d, calls[0]).value;
      RunSnoc(d1, calls[1..], call);
      assert (calls + [call])[1..] == calls[1..] + [call];
      var o := Ops.Run(d1, calls[1..]);
      if o.Done? && Ops.Apply(o.value.0, call).Done? {
        var x := Ops.Apply(o.value.0, call).value.1;
        assert [r] + (o.value.1 + [x]) == [r] + o.value.1 + [x];
      }
    } else {
      assert (calls + [call])[0] == calls[0];
    }
  }

  lemma StartIsApply(d: Disk, call: Call)
    ensures Rest(d, call, Start) == Ops.Apply(d, call)
  {
  }

  lemma LogGrows(log: seq<Record>, rec: Record)
    ensures CallsOf(log + [rec]) == CallsOf(log) + [rec.call]
    ensures RepliesOf(log + [rec]) == RepliesOf(log) + [rec.reply]
  {
  }

  lemma ReleaseKeepsLinear(init: Disk, s: System, s': System, t: nat)
    requires MutexOk(s) && Linear(init, s) && Release(s, s', t)
    ensures Linear(init, s')
  {
    var Running(call, since, ph) := s.threads[t];
    RunSnoc(init, CallsOf(s.log), call);
    LogGrows(s.log, Record(t, call, ph.reply, since));
  }

  lemma AcquireKeepsLinear(init: Disk, s: System, s': System, t: nat)
    requires Linear(init, s) && Acquire(s, s', t)
    ensures Linear(init, s')
  {
    StartIsApply(s.disk, s.threads[t].call);
  }

  lemma WorkKeepsLinear(init: Disk, s: System, s': System, t: nat)
    requires MutexOk(s) && Linear(init, s) && Work(s, s', t)
    ensures Linear(init, s')
  {
    StepKeepsRest(s.disk, s.threads[t].call, s.threads[t].ph);
  }

  lemma InvokeKeepsLinear(init: Disk, s: System, s': System, t: nat, call: Call)
    requires Linear(init, s) && Invoke(s, s', t, call)
    ensures Linear(init, s')
  {
  }

  lemma NextKeepsMutex(s: System, s': System, t: nat, call: Call)
    requires MutexOk(s) && RealTimeOk(s) && Next(s, s', t, call)
    ensures MutexOk(s') && RealTimeOk(s')
  {
  }

  lemma NextKeepsLinear(init: Disk, s: System, s': System, t: nat, call: Call)
    requires MutexOk(s) && Linear(init, s) && Next(s, s', t, call)
    ensures Linear(init, s')
  {
    if Release(s, s', t) {
      ReleaseKeepsLinear(init, s, s', t);
    } else if Acquire(s, s', t) {
      AcquireKeepsLinear(init, s, s', t);
    } else if Work(s, s', t) {
      WorkKeepsLinear(init, s, s', t);
    } else {
      InvokeKeepsLinear(init, s, s', t, call);
    }
  }

  /** `n` threads, none of them in a call. */
  function Initial(init: Disk, n: nat): System {
    System(init, Directory.None, seq(n, _ => Idle), [])
  }

  /** An interleaving: at each point thread `who[i].0` moves, making call `who[i].1` if it was idle. */
  ghost predicate Execution(init: Disk, n: nat, states: seq<System>, who: seq<(nat, Call)>) {
    && |states| == |who| + 1 && states[0] == Initial(init, n)
    && forall i {:trigger StepAt(states, who, i)} :: 0 <= i < |who| ==> StepAt(states, who, i)
  }

  predicate StepAt(states: seq<System>, who: seq<(nat, Call)>, i: nat)
    requires |states| == |who| + 1 && i < |who|
  {
    Next(states[i], states[i + 1], who[i].0, who[i].1)
  }

  /**
   Linearizability.  For any number of threads, in every state of every interleaving, the
   calls that have returned got the replies of running them one after another in the order
   in which they took the mutex; that order respects real time; and the mutex is held by
   exactly the thread whose call is between acquiring and releasing it.
   */
  lemma {:induction false} Linearizable(init: Disk, n: nat, states: seq<System>, who: seq<(nat, Call)>, i: nat)
    requires Execution(init, n, states, who) && i < |states|
    ensures MutexOk(states[i]) && RealTimeOk(states[i]) && Linear(init, states[i])
  {
    if i == 0 {
      assert CallsOf([]) == [] && RepliesOf([]) == [];
    } else {
      Linearizable(init, n, states, who, i - 1);
      assert StepAt(states, who, i - 1);
      NextKeepsMutex(states[i - 1], states[i], who[i - 1].0, who[i - 1].1);
      NextKeepsLinear(init, states[i - 1], states[i], who[i - 1].0, who[i - 1].1);
    }
  }

  /**
   With the calls allowed in the order of the mutex, the replies are those of the client's
   model, and the call that holds the mutex can always take its next step.
   */
  lemma LinearizableToModel(p: Params, inodes: seq<Inode>, data: seq<byte>, table: seq<OpenFile>,
                            n: nat, states: seq<System>, who: seq<(nat, Call)>, i: nat)
    requires ParamsOk(p)
    requires |inodes| == p.inodeCount && |data| == MemorySize(p) && |table| == p.openCount
    requires Execution(Ops.Init(p, inodes, data, table).value.0, n, states, who) && i < |states|
    requires var s := states[i];
      var held := match s.mutex
        case Some(t) => if t < |s.threads| && s.threads[t].Running? then [s.threads[t].call] else []
        case None => [];
      M.AllAllowed(M.Empty(Refinement.LimitsOf(p)), CallsOf(s.log) + held)
    ensures RepliesOf(states[i].log) == M.Run(M.Empty(Refinement.LimitsOf(p)), CallsOf(states[i].log)).1
    ensures states[i].mutex.Some? ==>
      var t := states[i].mutex.value;
      && t < |states[i].threads| && states[i].threads[t].Running?
      && (states[i].threads[t].ph.Finished? || Step(states[i].disk, states[i].threads[t].call, states[i].threads[t].ph).Done?)
  {
    var init, a, s := Ops.Init(p, inodes, data, table).value.0, M.Empty(Refinement.LimitsOf(p)), states[i];
    Linearizable(init, n, states, who, i);
    Refinement.InitShows(p, inodes, data, table);
    if s.mutex.Some? {
      var call, ph := s.threads[s.mutex.value].call, s.threads[s.mutex.value].ph;
      P.RunAppend(a, CallsOf(s.log), [call]);
      Refinement.RunSimulates(init, 0, a, CallsOf(s.log));
      Refinement.RunSimulates(init, 0, a, CallsOf(s.log) + [call]);
      RunSnoc(init, CallsOf(s.log), call);
      if !ph.Finished? {
        StepKeepsRest(s.disk, call, ph);
      }
    } else {
      assert CallsOf(s.log) + [] == CallsOf(s.log);
      Refinement.RunSimulates(init, 0, a, CallsOf(s.log));
    }
  }
}
