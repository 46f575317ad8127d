/**
 The client discipline is exact: a call keeps the invariant if and only if it is allowed.
 The code checks none of this, so each violation is shown with what it leads to.
 */
module Discipline {
  import opened Bytes
  import opened CString
  import opened Counting
  import opened Disk
  import opened Calls
  import opened DiskInvariant
  import opened TableUpdates
  import opened Simulation
  import opened NameSimulation
  import opened TransferSimulation
  import opened Refinement
  import Ops = Operations
  import Directory
  import M = FileModel

  ghost predicate Sound(d: Disk) {
    exists used :: Inv(d, used)
  }

  // ----- truncating a file that is open past its start -----

  /** The state after `tfs_open` truncated inode `k`, whatever its handles. */
  lemma TruncatingOpenIs(d: Disk, used: nat, a: M.Fs, path: Path, mode: Mode)
    requires Shows(d, used, a) && ValidPathname(path) && BaseName(path) in a.files
    requires mode.trunc && a.files[BaseName(path)] != []
    ensures var k := Entries(d)[BaseName(path)];
      && ValidInumber(d, k) && ValidBlock(d, d.inodes[k].block)
      && Ops.Open(d, path, mode) == Done(AddToTable(Truncated(d, k), k, 0))
  {
    LookupShows(d, used, a, path);
    FileInode(d, used, a, BaseName(path));
    var k := Entries(d)[BaseName(path)];
    TruncateIs(d, k, mode);
    OpenExistingIs(d, k, mode, Truncated(d, k));
  }

  /** The offset of the other handle stays, beyond the end of the file. */
  lemma TruncationStrandsHandle(d: Disk, used: nat, a: M.Fs, path: Path, mode: Mode, h: nat)
    requires Shows(d, used, a) && ValidPathname(path) && BaseName(path) in a.files
    requires mode.trunc && a.files[BaseName(path)] != []
    requires h in a.handles && a.handles[h].name == BaseName(path) && a.handles[h].offset > 0
    ensures Ops.Open(d, path, mode).Done?
    ensures var d1 := Ops.Open(d, path, mode).value.0;
      && d1.p == d.p && Ops.OpenOnInode(d1, h)
      && d1.inodes[d1.table[h].inumber].size == 0 < d1.table[h].offset <= d.p.blockSize
  {
    TruncatingOpenIs(d, used, a, path, mode);
    HandleFacts(d, used, a, h);
  }

  /** A read past the end of an inode that is empty but still refers to its old block. */
  lemma StrandedRead(d: Disk, h: nat, k: nat, offset: nat, size: nat, len: size_t)
    requires IsOpen(d, h) && d.table[h] == OpenFile(k, offset) && ValidInumber(d, k)
    requires d.inodes[k].size == 0 && ValidBlock(d, d.inodes[k].block)
    requires 0 < len && 0 < offset && offset + len <= size <= d.p.blockSize <= OBJECT_LIMIT
    ensures Ops.Read(d, h, len) ==
      Done((Ops.SetOffset(d, h, offset + len), Reply(len, Block(d, d.inodes[k].block)[..size][offset..offset + len])))
  {
    var start := Start(d.p, d.inodes[k].block);
    BlockInside(d.p, d.inodes[k].block);
    assert Wrap(0 - offset) == SIZE_LIMIT - offset > len;
    SliceOfSlice(d.data, start, start + d.p.blockSize, size, offset, len);
  }

  /** What a truncating open leaves in place. */
  lemma TruncationLeaves(d: Disk, k: nat, h: nat)
    requires ValidInumber(d, k) && ValidBlock(d, d.inodes[k].block) && IsOpen(d, h)
    ensures var d1, b := AddToTable(Truncated(d, k), k, 0).0, d.inodes[k].block;
      && d1.p == d.p && IsOpen(d1, h) && d1.table[h] == d.table[h]
      && d1.inodes[k] == d.inodes[k].(size := 0) && Block(d1, b) == Block(d, b)
  {
  }

  /**
   Reading through that handle does not report the end of the file: the unsigned difference
   `i_size - of_offset` wraps, and the read returns the bytes that were truncated.
   */
  lemma TruncatedBytesAreRead(d: Disk, used: nat, a: M.Fs, path: Path, mode: Mode, h: nat, len: size_t)
    requires Shows(d, used, a) && ValidPathname(path) && BaseName(path) in a.files
    requires mode.trunc && h in a.handles && a.handles[h].name == BaseName(path)
    requires a.handles[h].offset > 0 && 0 < len <= |a.files[BaseName(path)]| - a.handles[h].offset
    ensures Ops.Open(d, path, mode).Done?
    ensures var o, offset := Ops.Read(Ops.Open(d, path, mode).value.0, h, len), a.handles[h].offset;
      o.Done? && o.value.1 == Reply(len, a.files[BaseName(path)][offset..offset + len])
  {
    var k, offset, size := Entries(d)[BaseName(path)], a.handles[h].offset, |a.files[BaseName(path)]|;
    TruncatingOpenIs(d, used, a, path, mode);
    HandleFacts(d, used, a, h);
    BlockInside(d.p, 0);
    TruncationLeaves(d, k, h);
    StrandedRead(AddToTable(Truncated(d, k), k, 0).0, h, k, offset, size, len);
  }

  // ----- unlinking a file that is open -----

  lemma UnlinkingIs(d: Disk, used: nat, a: M.Fs, path: Path)
    requires Shows(d, used, a) && ValidPathname(path) && BaseName(path) in a.files
    ensures Directory.Clear(RootBlock(d), BaseName(path)).Some?
    ensures var k, blk := Entries(d)[BaseName(path)], Directory.Clear(RootBlock(d), BaseName(path)).value;
      0 < k < d.p.inodeCount && |blk| == d.p.blockSize && Ops.Unlink(d, path) == Done((Unlinked(d, k, blk), 0))
  {
    LookupShows(d, used, a, path);
    FileInode(d, used, a, BaseName(path));
    Directory.ClearIsRemove(RootBlock(d), used, BaseName(path));
    UnlinkIs(d, path, Entries(d)[BaseName(path)]);
  }

  /** The handle stays open on an inode that is free for the next file. */
  lemma UnlinkingStrandsHandle(d: Disk, used: nat, a: M.Fs, path: Path, h: nat)
    requires Shows(d, used, a) && ValidPathname(path) && BaseName(path) in a.files
    requires h in a.handles && a.handles[h].name == BaseName(path)
    ensures Ops.Unlink(d, path).Done?
    ensures var d1 := Ops.Unlink(d, path).value.0;
      && d1.p == d.p && Ops.OpenOnInode(d1, h) && d1.table[h].inumber == Entries(d)[BaseName(path)]
      && !d1.inodeTaken[d1.table[h].inumber]
  {
    UnlinkingIs(d, used, a, path);
    HandleFacts(d, used, a, h);
  }

  /**
   When it is the first free inode, the next file created gets it: a handle opened on one
   file has silently become a handle on another.
   */
  lemma StrandedHandleIsCaptured(d: Disk, used: nat, a: M.Fs, path: Path, h: nat, next: cstring)
    requires Shows(d, used, a) && ValidPathname(path) && BaseName(path) in a.files
    requires h in a.handles && a.handles[h].name == BaseName(path)
    requires next != [] && |next| <= MAX_FILE_NAME - 1 && next !in a.files
    requires forall k :: 0 <= k < Entries(d)[BaseName(path)] ==> d.inodeTaken[k]
    ensures Ops.Unlink(d, path).Done?
    ensures var o := Ops.OpenNew(Ops.Unlink(d, path).value.0, next);
      && o.Done? && RootOk(o.value.0) && next in Entries(o.value.0)
      && IsOpen(o.value.0, h) && o.value.0.table[h].inumber == Entries(o.value.0)[next]
  {
    var name, k := BaseName(path), Entries(d)[BaseName(path)];
    UnlinkingIs(d, used, a, path);
    UnlinkingStrandsHandle(d, used, a, path, h);
    var blk := Directory.Clear(RootBlock(d), name).value;
    var d1 := Unlinked(d, k, blk);
    UnlinkedRoot(d, used, a, name, blk);
    assert FirstFree(d1.inodeTaken) == k;
    Directory.ClearThenAdd(RootBlock(d), used, name, next, k);
    LinkAfterUnlink(d1, blk, next, k, h);
  }

  lemma UnlinkedRoot(d: Disk, used: nat, a: M.Fs, name: cstring, blk: seq<byte>)
    requires Shows(d, used, a) && name in a.files && |blk| == d.p.blockSize
    ensures var k := Entries(d)[name];
      0 < k < d.p.inodeCount && RootOk(Unlinked(d, k, blk)) && RootBlock(Unlinked(d, k, blk)) == blk
  {
    RootReplaced(Deleted(d, Entries(d)[name]), blk);
  }

  lemma OpenNewIs(d1: Disk, next: cstring, k: nat)
    requires RootOk(d1) && FirstFree(d1.inodeTaken) == k < d1.p.inodeCount
    ensures var r := Directory.Add(RootBlock(d1), next, k);
      r.Some? && |r.value| == d1.p.blockSize ==>
        Ops.OpenNew(d1, next) == Done(AddToTable(Linked(d1, k, r.value), k, 0))
  {
    InodeCreateIs(d1);
    LinkIs(d1, next, k);
  }

  lemma LinkAfterUnlink(d1: Disk, blk: seq<byte>, next: cstring, k: nat, h: nat)
    requires RootOk(d1) && RootBlock(d1) == blk && FirstFree(d1.inodeTaken) == k < d1.p.inodeCount
    requires Ops.OpenOnInode(d1, h) && d1.table[h].inumber == k
    requires var r := Directory.Add(blk, next, k);
      r.Some? && |r.value| == d1.p.blockSize
      && next in Directory.Entries(Directory.Slots(r.value)) && Directory.Entries(Directory.Slots(r.value))[next] == k
    ensures var o := Ops.OpenNew(d1, next);
      && o.Done? && RootOk(o.value.0) && next in Entries(o.value.0)
      && IsOpen(o.value.0, h) && o.value.0.table[h].inumber == Entries(o.value.0)[next]
  {
    OpenNewIs(d1, next, k);
    var r := Directory.Add(blk, next, k).value;
    RootReplaced(Reserved(d1, k), r);
    var d2 := Linked(d1, k, r);
    var d3 := AddToTable(d2, k, 0).0;
    assert RootOk(d3) && RootBlock(d3) == r;
  }

  // ----- writing a length that makes the size_t sum wrap -----

  /** The clamp is skipped and the copy leaves the block memory. */
  lemma WrappingWriteCrashes(d: Disk, used: nat, a: M.Fs, h: nat, buf: buffer)
    requires Shows(d, used, a) && h in a.handles && |buf| + a.handles[h].offset >= SIZE_LIMIT
    ensures Ops.Write(d, h, buf).Crash?
  {
    HandleFacts(d, used, a, h);
    BlockInside(d.p, 0);
    var offset := d.table[h].offset;
    assert Wrap(|buf| + offset) == |buf| + offset - SIZE_LIMIT < offset;
    assert Ops.WriteLength(d, offset, |buf|) == |buf|;
  }

  // ----- the discipline as an equivalence -----

  lemma DisallowedOpenUnsound(d: Disk, used: nat, a: M.Fs, path: Path, mode: Mode)
    requires Shows(d, used, a) && !M.Allowed(a, Call.Open(path, mode))
    ensures var o := Ops.Open(d, path, mode); o.Done? && !Sound(o.value.0)
  {
    var h :| h in a.handles && a.handles[h].name == BaseName(path) && a.handles[h].offset != 0;
    TruncationStrandsHandle(d, used, a, path, mode, h);
    NotSound(Ops.Open(d, path, mode).value.0, h);
  }

  lemma DisallowedUnlinkUnsound(d: Disk, used: nat, a: M.Fs, path: Path)
    requires Shows(d, used, a) && !M.Allowed(a, Call.Unlink(path))
    ensures var o := Ops.Unlink(d, path); o.Done? && !Sound(o.value.0)
  {
    var h :| h in a.handles && a.handles[h].name == BaseName(path);
    UnlinkingStrandsHandle(d, used, a, path, h);
    NotSound(Ops.Unlink(d, path).value.0, h);
  }

  lemma NotSound(d: Disk, h: nat)
    requires IsOpen(d, h) && !HandleOk(d.inodes, d.inodeTaken, d.table[h])
    ensures !Sound(d)
  {
  }

  /**
   A call neither crashes nor breaks the invariant exactly when it is allowed.  `Allowed` is
   a test on what the client can see before the call: which of its handles are open on the
   file, and at which offsets.
   */
  lemma DisciplineExact(d: Disk, used: nat, a: M.Fs, call: Call)
    requires Shows(d, used, a)
    ensures var o := Ops.Apply(d, call);
      o.Done? && Sound(o.value.0) <==> M.Allowed(a, call)
  {
    if M.Allowed(a, call) {
      CallSimulates(d, used, a, call);
      assert Inv(Ops.Apply(d, call).value.0, MarkAfter(Ops.Apply(d, call).value.0, used));
    } else {
      match call {
        case Open(path, mode) => DisallowedOpenUnsound(d, used, a, path, mode);
        case Write(h, buf) => WrappingWriteCrashes(d, used, a, h, buf);
        case Unlink(path) => DisallowedUnlinkUnsound(d, used, a, path);
      }
    }
  }

  lemma OpenNeverCrashes(d: Disk, used: nat, a: M.Fs, path: Path, mode: Mode)
    requires Shows(d, used, a)
    ensures Ops.Open(d, path, mode).Done?
  {
    if M.Allowed(a, Call.Open(path, mode)) {
      OpenSimulates(d, used, a, path, mode);
    } else {
      DisallowedOpenUnsound(d, used, a, path, mode);
    }
  }

  lemma OpenConclusion(d: Disk, used: nat, a: M.Fs, path: Path, mode: Mode)
    requires Shows(d, used, a)
    ensures var o := Ops.Open(d, path, mode);
      && o.Done?
      && (Sound(o.value.0) <==> M.Allowed(a, Call.Open(path, mode)))
      && (M.Allowed(a, Call.Open(path, mode)) ==>
            Shows(o.value.0, MarkAfter(o.value.0, used), M.Open(a, path, mode).0) && o.value.1 == M.Open(a, path, mode).1)
  {
    DisciplineExact(d, used, a, Call.Open(path, mode));
    OpenNeverCrashes(d, used, a, path, mode);
    if M.Allowed(a, Call.Open(path, mode)) {
      OpenSimulates(d, used, a, path, mode);
    }
  }

  lemma CloseConclusion(d: Disk, used: nat, a: M.Fs, h: int)
    requires Shows(d, used, a)
    ensures var o := Ops.Close(d, h);
      o.Done? && Shows(o.value.0, used, M.Close(a, h).0) && o.value.1 == M.Close(a, h).1
  {
    CloseShows(d, used, a, h);
  }

  /** Reads and writes leave the directory alone, so its high-water mark stays. */
  lemma WriteConclusion(d: Disk, used: nat, a: M.Fs, h: int, buf: buffer)
    requires Shows(d, used, a) && M.Allowed(a, Call.Write(h, buf))
    ensures var o := Ops.Write(d, h, buf);
      o.Done? && Shows(o.value.0, used, M.Write(a, h, buf).0) && o.value.1 == M.Write(a, h, buf).1
  {
    WriteSimulates(d, used, a, h, buf);
  }

  lemma ReadConclusion(d: Disk, used: nat, a: M.Fs, h: int, len: size_t)
    requires Shows(d, used, a)
    ensures var o := Ops.Read(d, h, len);
      o.Done? && Shows(o.value.0, used, M.Read(a, h, len).0) && o.value.1 == M.Read(a, h, len).1
  {
    ReadSimulates(d, used, a, h, len);
  }

  lemma UnlinkConclusion(d: Disk, used: nat, a: M.Fs, path: Path)
    requires Shows(d, used, a)
    ensures UnlinkSafe(d, path)
    ensures var o := Ops.Unlink(d, path);
      && o.Done?
      && (Sound(o.value.0) <==> M.Allowed(a, Call.Unlink(path)))
      && (M.Allowed(a, Call.Unlink(path)) ==>
            Shows(o.value.0, used, M.Unlink(a, path).0) && o.value.1 == M.Unlink(a, path).1)
  {
    DisciplineExact(d, used, a, Call.Unlink(path));
    LookupShows(d, used, a, path);
    if ValidPathname(path) && BaseName(path) in a.files {
      UnlinkingIs(d, used, a, path);
      FileInode(d, used, a, BaseName(path));
      Directory.ClearHitsFoundSlot(RootBlock(d), used, BaseName(path));
    }
    if M.Allowed(a, Call.Unlink(path)) {
      UnlinkSimulates(d, used, a, path);
    }
  }

  /**
   `tfs_unlink` fails no assertion, and every name that `clear_dir_entry` compares is
   terminated inside its field.
   */
  predicate UnlinkSafe(d: Disk, path: Path) {
    && Ops.Unlink(d, path).Done? && RootOk(d)
    && var o := Ops.Lookup(d, path);
    && o.Done?
    && (o.value != -1 ==>
          && ValidPathname(path) && o.value != 0
          && var k := Directory.ClearSlot(RootBlock(d), BaseName(path));
          && k < Directory.MaxEntries(RootBlock(d))
          && forall i :: 0 <= i <= k ==> Terminated(Directory.Field(RootBlock(d), i)))
  }

  lemma InitConclusion(p: Params, inodes: seq<Inode>, data: seq<byte>, table: seq<OpenFile>)
    requires ParamsOk(p)
    requires |inodes| == p.inodeCount && |data| == MemorySize(p) && |table| == p.openCount
    ensures var o := InodeCreate(StateInit(p, inodes, data, table), TDirectory);
      o.Done? && o.value.1 == Ops.ROOT_DIR_INUM
      && Inv(o.value.0, 0) && View(o.value.0, 0) == M.Empty(LimitsOf(p))
  {
    InitShows(p, inodes, data, table);
    ViewUnique(InodeCreate(StateInit(p, inodes, data, table), TDirectory).value.0, 0, M.Empty(LimitsOf(p)));
  }
}
