/**
 One short run after which each kind of call that the client discipline excludes goes
 wrong: every clause of the discipline is needed.
 */
module Violations {
  import opened Bytes
  import opened CString
  import opened Disk
  import opened Calls
  import opened DiskInvariant
  import opened Refinement
  import opened Discipline
  import opened ModelProperties
  import opened Counting
  import Ops = Operations
  import Directory
  import M = FileModel

  const NAME: cstring := [97]
  const PATH: Path := Path.Path([SLASH, 97])

  const CREATE := Mode(true, false, false)
  const PLAIN := Mode(false, false, false)
  const TRUNCATE := Mode(false, true, false)

  /** A new file with contents `x`, `y` and two handles, at offsets 2 and 1. */
  function Setup(x: byte, y: byte): seq<Call> {
    [Call.Open(PATH, CREATE)] + ([Call.Write(0, [x, y])] + ([Call.Open(PATH, PLAIN)] + ([Call.Read(1, 1)] + [])))
  }

  function AfterSetup(lim: M.Limits, x: byte, y: byte): M.Fs {
    M.Fs(lim, map[NAME := [x, y]], map[0 := M.Handle(NAME, 2), 1 := M.Handle(NAME, 1)])
  }

  /** Room for one file of two bytes and two handles. */
  predicate Roomy(lim: M.Limits) {
    lim.files >= 1 && lim.entries >= 1 && lim.nonEmpty >= 1 && lim.handles >= 2 && lim.size >= 2
  }

  lemma CreateStep(lim: M.Limits)
    requires Roomy(lim)
    ensures M.Apply(M.Empty(lim), Call.Open(PATH, CREATE)) ==
      (M.Fs(lim, map[NAME := []], map[0 := M.Handle(NAME, 0)]), Reply(0, []))
  {
    assert BaseName(PATH) == NAME;
  }

  lemma WriteStep(lim: M.Limits, x: byte, y: byte)
    requires Roomy(lim)
    ensures M.Apply(M.Fs(lim, map[NAME := []], map[0 := M.Handle(NAME, 0)]), Call.Write(0, [x, y])) ==
      (M.Fs(lim, map[NAME := [x, y]], map[0 := M.Handle(NAME, 2)]), Reply(2, []))
  {
    var a := M.Fs(lim, map[NAME := []], map[0 := M.Handle(NAME, 0)]);
    assert M.NonEmpty(a.files) == {};
    assert M.Splice([], 0, [x, y][..2]) == [x, y];
    assert a.files[NAME := [x, y]] == map[NAME := [x, y]];
    assert a.handles[0 := M.Handle(NAME, 2)] == map[0 := M.Handle(NAME, 2)];
    assert M.Write(a, 0, [x, y]) == (M.Written(a, 0, [x, y][..2]), 2);
  }

  lemma OpenStep(lim: M.Limits, x: byte, y: byte)
    requires Roomy(lim)
    ensures M.Apply(M.Fs(lim, map[NAME := [x, y]], map[0 := M.Handle(NAME, 2)]), Call.Open(PATH, PLAIN)) ==
      (M.Fs(lim, map[NAME := [x, y]], map[0 := M.Handle(NAME, 2), 1 := M.Handle(NAME, 0)]), Reply(1, []))
  {
    assert BaseName(PATH) == NAME;
    var a := M.Fs(lim, map[NAME := [x, y]], map[0 := M.Handle(NAME, 2)]);
    assert 0 in a.handles.Keys && 1 !in a.handles.Keys;
    assert Lowest(a.handles.Keys, lim.handles) == 1;
    assert a.files[NAME := a.files[NAME]] == a.files;
    assert a.handles[1 := M.Handle(NAME, 0)] == map[0 := M.Handle(NAME, 2), 1 := M.Handle(NAME, 0)];
  }

  lemma ReadStep(lim: M.Limits, x: byte, y: byte)
    ensures M.Apply(M.Fs(lim, map[NAME := [x, y]], map[0 := M.Handle(NAME, 2), 1 := M.Handle(NAME, 0)]), Call.Read(1, 1)) ==
      (AfterSetup(lim, x, y), Reply(1, [x]))
  {
    var a := M.Fs(lim, map[NAME := [x, y]], map[0 := M.Handle(NAME, 2), 1 := M.Handle(NAME, 0)]);
    assert a.files[NAME][0..1] == [x];
    assert a.handles[1 := M.Handle(NAME, 1)] == AfterSetup(lim, x, y).handles;
    assert M.Read(a, 1, 1) == (M.SetOffset(a, 1, 1), Reply(1, [x]));
  }

  lemma SetupRuns(lim: M.Limits, x: byte, y: byte)
    requires Roomy(lim)
    ensures M.AllAllowed(M.Empty(lim), Setup(x, y))
    ensures M.Run(M.Empty(lim), Setup(x, y)).0 == AfterSetup(lim, x, y)
  {
    var c0, c1, c2, c3 := Call.Open(PATH, CREATE), Call.Write(0, [x, y]), Call.Open(PATH, PLAIN), Call.Read(1, 1);
    var a0 := M.Empty(lim);
    CreateStep(lim);
    var a1 := M.Apply(a0, c0).0;
    WriteStep(lim, x, y);
    var a2 := M.Apply(a1, c1).0;
    OpenStep(lim, x, y);
    var a3 := M.Apply(a2, c2).0;
    ReadStep(lim, x, y);
    RunCons(a0, c0, [c1] + ([c2] + ([c3] + [])));
    RunCons(a1, c1, [c2] + ([c3] + []));
    RunCons(a2, c2, [c3] + []);
    RunCons(a3, c3, []);
  }

  /** A length whose sum with the offset 2 wraps to 0. */
  const HUGE: buffer := seq(SIZE_LIMIT - 2, _ => 0)

  /** The state that `tfs_init` and the run above leave. */
  lemma SetupShows(p: Params, inodes: seq<Inode>, data: seq<byte>, table: seq<OpenFile>, x: byte, y: byte)
    returns (d: Disk, used: nat)
    requires ParamsOk(p) && Roomy(LimitsOf(p))
    requires |inodes| == p.inodeCount && |data| == MemorySize(p) && |table| == p.openCount
    ensures Ops.Init(p, inodes, data, table).Done?
    ensures var o := Ops.Run(Ops.Init(p, inodes, data, table).value.0, Setup(x, y)); o.Done? && o.value.0 == d
    ensures Shows(d, used, AfterSetup(LimitsOf(p), x, y))
  {
    SetupRuns(LimitsOf(p), x, y);
    TraceRefinement(p, inodes, data, table, Setup(x, y));
    d := Ops.Run(Ops.Init(p, inodes, data, table).value.0, Setup(x, y)).value.0;
    used := MarkOf(Ops.Init(p, inodes, data, table).value.0, 0, Setup(x, y));
  }

  lemma TruncationGoesWrong(d: Disk, used: nat, lim: M.Limits, x: byte, y: byte)
    requires Shows(d, used, AfterSetup(lim, x, y))
    ensures var truncated := Ops.Open(d, PATH, TRUNCATE);
      && truncated.Done? && !Sound(truncated.value.0)
      && var read := Ops.Read(truncated.value.0, 1, 1);
      && read.Done? && read.value.1 == Reply(1, [y])
  {
    var a := AfterSetup(lim, x, y);
    assert BaseName(PATH) == NAME && a.handles[1].offset == 1;
    DisallowedOpenUnsound(d, used, a, PATH, TRUNCATE);
    TruncatedBytesAreRead(d, used, a, PATH, TRUNCATE, 1, 1);
    assert a.files[NAME][1..2] == [y];
  }

  lemma UnlinkGoesWrong(d: Disk, used: nat, lim: M.Limits, x: byte, y: byte)
    requires Shows(d, used, AfterSetup(lim, x, y))
    ensures Ops.Unlink(d, PATH).Done? && !Sound(Ops.Unlink(d, PATH).value.0)
  {
    var a := AfterSetup(lim, x, y);
    assert BaseName(PATH) == NAME && a.handles[0].name == NAME;
    DisallowedUnlinkUnsound(d, used, a, PATH);
  }

  lemma WriteGoesWrong(d: Disk, used: nat, lim: M.Limits, x: byte, y: byte)
    requires Shows(d, used, AfterSetup(lim, x, y))
    ensures Ops.Write(d, 0, HUGE).Crash?
  {
    WrappingWriteCrashes(d, used, AfterSetup(lim, x, y), 0, HUGE);
  }

  /**
   With every choice of parameters that has room for one file and two handles: after
   `tfs_init` and the run above, a TRUNC leaves a handle that reads truncated bytes, an
   unlink leaves an open handle on a free inode, and a huge write leaves the block memory.
   */
  lemma DisciplineIsNeeded(p: Params, inodes: seq<Inode>, data: seq<byte>, table: seq<OpenFile>, x: byte, y: byte)
    requires ParamsOk(p) && p.inodeCount >= 2 && p.blockCount >= 2 && p.openCount >= 2 && p.blockSize >= Directory.ENTRY_SIZE
    requires |inodes| == p.inodeCount && |data| == MemorySize(p) && |table| == p.openCount
    ensures Ops.Init(p, inodes, data, table).Done?
    ensures var run := Ops.Run(Ops.Init(p, inodes, data, table).value.0, Setup(x, y));
      && run.Done?
      && var d := run.value.0;
      && var truncated := Ops.Open(d, PATH, TRUNCATE);
      && truncated.Done? && !Sound(truncated.value.0)
      && Ops.Read(truncated.value.0, 1, 1).Done?
      && Ops.Read(truncated.value.0, 1, 1).value.1 == Reply(1, [y])
      && Ops.Unlink(d, PATH).Done? && !Sound(Ops.Unlink(d, PATH).value.0)
      && Ops.Write(d, 0, HUGE).Crash?
  {
    var d, used := SetupShows(p, inodes, data, table, x, y);
    TruncationGoesWrong(d, used, LimitsOf(p), x, y);
    UnlinkGoesWrong(d, used, LimitsOf(p), x, y);
    WriteGoesWrong(d, used, LimitsOf(p), x, y);
  }
}
