/**
 The main results about TecnicoFS: every run of allowed calls returns what the client's
 model returns, and the discipline under which this holds is exact.
 */
module Refinement {
  import opened Bytes
  import opened CString
  import opened Counting
  import opened Disk
  import opened Calls
  import opened DiskInvariant
  import opened TableUpdates
  import opened Simulation
  import opened NameSimulation
  import opened TransferSimulation
  import Ops = Operations
  import Directory
  import M = FileModel

  // ----- the initial state -----

  function LimitsOf(p: Params): M.Limits
    requires ParamsOk(p)
  {
    M.Limits(p.inodeCount - 1, p.blockSize / Directory.ENTRY_SIZE, p.blockCount - 1, p.openCount, p.blockSize)
  }

  /** The state after `tfs_init`, in one expression. */
  function Formatted(p: Params, inodes: seq<Inode>, data: seq<byte>, table: seq<OpenFile>): Disk
    requires ParamsOk(p)
    requires |inodes| == p.inodeCount && |data| == MemorySize(p) && |table| == p.openCount
  {
    var d := StateInit(p, inodes, data, table);
    PutBlock(SetInode(d.(inodeTaken := d.inodeTaken[0 := true], blockTaken := d.blockTaken[0 := true]),
                      0, Inode(TDirectory, p.blockSize, 0)),
             0, 0, Directory.Fresh(Block(d, 0)))
  }

  lemma InitIs(p: Params, inodes: seq<Inode>, data: seq<byte>, table: seq<OpenFile>)
    requires ParamsOk(p)
    requires |inodes| == p.inodeCount && |data| == MemorySize(p) && |table| == p.openCount
    ensures Ops.Init(p, inodes, data, table) == Done((Formatted(p, inodes, data, table), 0))
  {
    var d := StateInit(p, inodes, data, table);
    assert FirstFree(d.inodeTaken) == 0 && FirstFree(d.blockTaken) == 0;
    var d3 := SetInode(d.(inodeTaken := d.inodeTaken[0 := true], blockTaken := d.blockTaken[0 := true]),
                       0, Inode(TDirectory, p.blockSize, 0));
    assert Block(d3, 0) == Block(d, 0);
  }

  lemma FormattedPieces(p: Params, inodes: seq<Inode>, data: seq<byte>, table: seq<OpenFile>)
    requires ParamsOk(p)
    requires |inodes| == p.inodeCount && |data| == MemorySize(p) && |table| == p.openCount
    ensures var d := Formatted(p, inodes, data, table);
      && RootOk(d) && RootBlock(d) == Directory.Fresh(Block(StateInit(p, inodes, data, table), 0))
      && NamesOk(map[], d.inodeTaken)
      && BlocksOk(d.inodes, d.inodeTaken, d.blockTaken, d.p.blockSize)
      && HandlesMatch(map[], d.table, d.tableTaken, map[])
  {
    var d0, d := StateInit(p, inodes, data, table), Formatted(p, inodes, data, table);
    var d1 := SetInode(d0.(inodeTaken := d0.inodeTaken[0 := true], blockTaken := d0.blockTaken[0 := true]),
                       0, Inode(TDirectory, p.blockSize, 0));
    PutBlockFrame(d1, 0, 0, Directory.Fresh(Block(d0, 0)));
    assert Owns(d.inodes, d.inodeTaken, 0, 0);
    assert HasOwner(d.inodes, d.inodeTaken, 0);
    assert forall k :: Owner(d.inodes, d.inodeTaken, k) ==> k == 0;
    assert TakenSet(d.tableTaken) == {};
  }

  /** `tfs_init` succeeds whatever the fresh memory holds, and shows an empty file system. */
  lemma InitShows(p: Params, inodes: seq<Inode>, data: seq<byte>, table: seq<OpenFile>)
    requires ParamsOk(p)
    requires |inodes| == p.inodeCount && |data| == MemorySize(p) && |table| == p.openCount
    ensures var o := Ops.Init(p, inodes, data, table);
      o.Done? && o.value.1 == 0 && Shows(o.value.0, 0, M.Empty(LimitsOf(p)))
  {
    InitIs(p, inodes, data, table);
    FormattedPieces(p, inodes, data, table);
    Directory.FreshIsEmpty(Block(StateInit(p, inodes, data, table), 0));
    ShowsFromPieces(Formatted(p, inodes, data, table), 0, map[], M.Empty(LimitsOf(p)));
  }

  // ----- one call, and every run of calls -----

  lemma CodeAgrees(o: Outcome<(Disk, int)>, used: nat, r: (M.Fs, int))
    requires Agrees(o, used, r)
    ensures CallAgrees(Ops.WithCode(o), used, M.WithCode(r))
  {
  }

  /** An allowed call does to the view, and returns, what the model says; no assertion fails. */
  lemma CallSimulates(d: Disk, used: nat, a: M.Fs, call: Call)
    requires Shows(d, used, a) && M.Allowed(a, call)
    ensures CallAgrees(Ops.Apply(d, call), used, M.Apply(a, call))
  {
    match call {
      case Open(path, mode) =>
        OpenSimulates(d, used, a, path, mode);
        CodeAgrees(Ops.Open(d, path, mode), used, M.Open(a, path, mode));
      case Close(h) =>
        CloseShows(d, used, a, h);
        AgreesSameMark(Ops.Close(d, h).value.0, used, M.Close(a, h).0, M.Close(a, h).1);
        CodeAgrees(Ops.Close(d, h), used, M.Close(a, h));
      case Write(h, buf) =>
        WriteSimulates(d, used, a, h, buf);
        CodeAgrees(Ops.Write(d, h, buf), used, M.Write(a, h, buf));
      case Read(h, len) =>
        ReadSimulates(d, used, a, h, len);
      case Unlink(path) =>
        UnlinkSimulates(d, used, a, path);
        CodeAgrees(Ops.Unlink(d, path), used, M.Unlink(a, path));
    }
  }

  /** The high-water mark of the directory at the end of a run. */
  ghost function MarkOf(d: Disk, used: nat, calls: seq<Call>): nat
    decreases |calls|
  {
    if calls == [] || Ops.Apply(d, calls[0]).Crash? then used
    else
      var d1 := Ops.Apply(d, calls[0]).value.0;
      MarkOf(d1, MarkAfter(d1, used), calls[1..])
  }

  lemma {:induction false} RunSimulates(d: Disk, used: nat, a: M.Fs, calls: seq<Call>)
    requires Shows(d, used, a) && M.AllAllowed(a, calls)
    ensures var o, r := Ops.Run(d, calls), M.Run(a, calls);
      o.Done? && Shows(o.value.0, MarkOf(d, used, calls), r.0) && o.value.1 == r.1
    decreases |calls|
  {
    if calls != [] {
      CallSimulates(d, used, a, calls[0]);
      var d1 := Ops.Apply(d, calls[0]).value.0;
      RunSimulates(d1, MarkAfter(d1, used), M.Apply(a, calls[0]).0, calls[1..]);
    }
  }

  /**
   Trace refinement.  From `tfs_init` on, with any parameters and any contents of fresh
   memory, every run of allowed calls returns exactly the replies of the model, and ends in
   a state that satisfies the invariant and shows the model's state.
   */
  lemma TraceRefinement(p: Params, inodes: seq<Inode>, data: seq<byte>, table: seq<OpenFile>, calls: seq<Call>)
    requires ParamsOk(p)
    requires |inodes| == p.inodeCount && |data| == MemorySize(p) && |table| == p.openCount
    requires M.AllAllowed(M.Empty(LimitsOf(p)), calls)
    ensures var o := Ops.Init(p, inodes, data, table);
      && o.Done? && o.value.1 == 0
      && var run, model := Ops.Run(o.value.0, calls), M.Run(M.Empty(LimitsOf(p)), calls);
      && run.Done?
      && run.value.1 == model.1
      && Shows(run.value.0, MarkOf(o.value.0, 0, calls), model.0)
  {
    InitShows(p, inodes, data, table);
    RunSimulates(Ops.Init(p, inodes, data, table).value.0, 0, M.Empty(LimitsOf(p)), calls);
  }

  // ----- the directory over a whole run -----

  ghost function LiveSlots(d: Disk): set<nat>
    requires RootOk(d)
  {
    TakenSet(Directory.LiveFlags(Directory.Slots(RootBlock(d))))
  }

  /** The slots that held an entry in some state of a run. */
  ghost function EverLive(d: Disk, calls: seq<Call>): set<nat>
    decreases |calls|
  {
    var now: set<nat> := if RootOk(d) then LiveSlots(d) else {};
    if calls == [] || Ops.Apply(d, calls[0]).Crash? then now
    else now + EverLive(Ops.Apply(d, calls[0]).value.0, calls[1..])
  }

  lemma LiveBelowMark(d: Disk, used: nat)
    requires RootOk(d) && Directory.Valid(Directory.Slots(RootBlock(d)), used)
    ensures LiveSlots(d) <= Below(used)
    ensures used < Directory.MaxEntries(RootBlock(d)) ==> used !in LiveSlots(d)
  {
  }

  lemma BelowNext(used: nat, mark: nat, live: set<nat>)
    requires live <= Below(mark) && (mark == used || (mark == used + 1 && used in live))
    ensures Below(used) + live == Below(mark)
  {
  }

  /** One call raises the mark by at most one, and only by filling that slot. */
  lemma MarkStep(d1: Disk, used: nat, a1: M.Fs)
    requires Shows(d1, MarkAfter(d1, used), a1)
    ensures Below(used) + LiveSlots(d1) == Below(MarkAfter(d1, used))
  {
    LiveBelowMark(d1, MarkAfter(d1, used));
    MarkIsLive(d1, used);
    BelowNext(used, MarkAfter(d1, used), LiveSlots(d1));
  }

  lemma MarkIsLive(d1: Disk, used: nat)
    requires RootOk(d1)
    ensures MarkAfter(d1, used) == used || (MarkAfter(d1, used) == used + 1 && used in LiveSlots(d1))
  {
  }

  lemma {:induction false} EverLiveIsPrefix(d: Disk, used: nat, a: M.Fs, calls: seq<Call>)
    requires Shows(d, used, a) && M.AllAllowed(a, calls)
    ensures Below(used) + EverLive(d, calls) == Below(MarkOf(d, used, calls))
    decreases |calls|
  {
    LiveBelowMark(d, used);
    if calls != [] {
      CallSimulates(d, used, a, calls[0]);
      var d1, a1 := Ops.Apply(d, calls[0]).value.0, M.Apply(a, calls[0]).0;
      var mark := MarkAfter(d1, used);
      MarkStep(d1, used, a1);
      EverLiveIsPrefix(d1, mark, a1, calls[1..]);
      assert LiveSlots(d1) <= EverLive(d1, calls[1..]);
      assert Below(used) + EverLive(d, calls) == Below(used) + LiveSlots(d1) + EverLive(d1, calls[1..]);
    }
  }

  /**
   Directory high-water mark.  After any run of allowed calls the slots that ever held an
   entry are a prefix of the directory, and each of them is live or holds the empty name.
   */
  lemma HighWaterMark(p: Params, inodes: seq<Inode>, data: seq<byte>, table: seq<OpenFile>, calls: seq<Call>)
    requires ParamsOk(p)
    requires |inodes| == p.inodeCount && |data| == MemorySize(p) && |table| == p.openCount
    requires M.AllAllowed(M.Empty(LimitsOf(p)), calls)
    ensures var o := Ops.Init(p, inodes, data, table);
      && o.Done?
      && var run, mark := Ops.Run(o.value.0, calls), MarkOf(o.value.0, 0, calls);
      && run.Done? && RootOk(run.value.0)
      && EverLive(o.value.0, calls) == Below(mark)
      && var slots := Directory.Slots(RootBlock(run.value.0));
      && mark <= |slots|
      && forall i :: 0 <= i < mark ==> slots[i].Named() || slots[i].Vacated()
  {
    TraceRefinement(p, inodes, data, table, calls);
    InitShows(p, inodes, data, table);
    EverLiveIsPrefix(Ops.Init(p, inodes, data, table).value.0, 0, M.Empty(LimitsOf(p)), calls);
  }
}
