/** What the simulation gives about the implementation itself. */
module FileProperties {
  import opened Bytes
  import opened CString
  import opened Counting
  import opened Disk
  import opened Calls
  import opened DiskInvariant
  import opened TableUpdates
  import opened Simulation
  import opened NameSimulation
  import opened TransferSimulation
  import opened Refinement
  import Ops = Operations
  import Directory
  import M = FileModel
  import P = ModelProperties
  import Provenance

  // ----- resources -----

  /** No inode, block or table entry leaks: each bitmap counts what the client sees. */
  lemma NoLeak(d: Disk, used: nat, a: M.Fs)
    requires Shows(d, used, a)
    ensures |TakenSet(d.inodeTaken)| == |a.files| + 1
    ensures |TakenSet(d.blockTaken)| == |M.NonEmpty(a.files)| + 1
    ensures |TakenSet(d.tableTaken)| == |a.handles|
  {
    InodesByCount(Entries(d), d.inodeTaken);
    BlocksByCount(d, used, a.files);
    assert a.files.Keys == Entries(d).Keys;
  }

  /**
   The directory is a bijection between the names the client sees and the taken inodes
   other than the root's, which is in place with its block.
   */
  lemma NamesAreInodes(d: Disk, used: nat, a: M.Fs)
    requires Shows(d, used, a)
    ensures Entries(d).Keys == a.files.Keys
    ensures forall n, p :: n in a.files && p in a.files && n != p ==> Entries(d)[n] != Entries(d)[p]
    ensures forall k :: k in Entries(d).Values <==> 0 < k < d.p.inodeCount && d.inodeTaken[k]
    ensures d.inodes[0] == Inode(TDirectory, d.p.blockSize, 0) && d.inodeTaken[0] && d.blockTaken[0]
  {
    assert Owner(d.inodes, d.inodeTaken, 0);
    forall k | k in Entries(d).Values ensures 0 < k < d.p.inodeCount && d.inodeTaken[k] {
      var n :| n in Entries(d) && Entries(d)[n] == k;
    }
  }

  /** The block that a truncation or an unlink of a file frees is taken, and no other file owns it. */
  lemma FreedBlockIsTaken(d: Disk, used: nat, a: M.Fs, name: cstring)
    requires Shows(d, used, a) && name in a.files && a.files[name] != []
    ensures var k := Entries(d)[name];
      && ValidInumber(d, k) && d.inodes[k].size > 0
      && ValidBlock(d, d.inodes[k].block) && d.blockTaken[d.inodes[k].block]
      && forall l :: Owner(d.inodes, d.inodeTaken, l) && l != k ==> d.inodes[l].block != d.inodes[k].block
  {
    FileInode(d, used, a, name);
  }

  lemma TableFull(d: Disk, used: nat, a: M.Fs)
    requires Shows(d, used, a)
    ensures FirstFree(d.tableTaken) == Lowest(a.handles.Keys, a.lim.handles)
    ensures FirstFree(d.tableTaken) == d.p.openCount <==> |a.handles| >= d.p.openCount
  {
    FullIffAllTaken(d.tableTaken);
    FirstFreeIsLowest(d.tableTaken);
  }

  /** Creating a file yields a handle exactly when four counts allow it. */
  lemma CreateYieldsHandleIff(d: Disk, used: nat, a: M.Fs, path: Path, mode: Mode)
    requires Shows(d, used, a) && mode.creat && ValidPathname(path) && BaseName(path) !in a.files
    ensures var o := Ops.Open(d, path, mode);
      && o.Done?
      && (o.value.1 >= 0 <==>
            && |a.files| < d.p.inodeCount - 1
            && |a.files| < d.p.blockSize / Directory.ENTRY_SIZE
            && |BaseName(path)| <= MAX_FILE_NAME - 1
            && |a.handles| < d.p.openCount)
  {
    OpenSimulates(d, used, a, path, mode);
    TableFull(d, used, a);
  }

  /** A write through an open handle fails exactly when the file needs a first block and there is none. */
  lemma WriteFailsIff(d: Disk, used: nat, a: M.Fs, h: nat, buf: buffer)
    requires Shows(d, used, a) && h in a.handles && M.Allowed(a, Call.Write(h, buf))
    ensures a.handles[h].name in a.files
    ensures var o := Ops.Write(d, h, buf);
      && o.Done?
      && (o.value.1 == -1 <==>
            |buf| > 0 && a.files[a.handles[h].name] == [] && |M.NonEmpty(a.files)| == d.p.blockCount - 1)
  {
    WriteSimulates(d, used, a, h, buf);
    BlocksByCount(d, used, a.files);
    HandleFacts(d, used, a, h);
  }

  // ----- failed calls -----

  /** The two states differ at most in the fields of a free inode. */
  predicate SameButFreeInodes(d: Disk, d1: Disk) {
    && d1 == d.(inodes := d1.inodes)
    && forall k :: 0 <= k < d.p.inodeCount && d.inodeTaken[k] ==> d1.inodes[k] == d.inodes[k]
  }

  lemma FailedCreateRollsBack(d: Disk, used: nat, a: M.Fs, name: cstring)
    requires Shows(d, used, a) && name !in a.files && name != [] && !M.CanCreate(a, name)
    ensures var o := Ops.OpenNew(d, name); o.Done? && o.value.1 == -1 && SameButFreeInodes(d, o.value.0)
  {
    var k := FirstFree(d.inodeTaken);
    InodesByCount(Entries(d), d.inodeTaken);
    InodeCreateIs(d);
    assert Entries(d).Keys == a.files.Keys;
    if k < d.p.inodeCount {
      LinkIs(d, name, k);
      assert k !in Entries(d).Values;
      Directory.AddIsUpdate(RootBlock(d), used, name, k);
    }
  }

  /**
   When `tfs_open` fails while the open-file table has room, nothing has changed: data,
   directory, all three bitmaps and every inode in use are as before.
   */
  lemma FailedOpenRollsBack(d: Disk, used: nat, a: M.Fs, path: Path, mode: Mode)
    requires Shows(d, used, a) && M.Allowed(a, Call.Open(path, mode)) && |a.handles| < d.p.openCount
    ensures var o := Ops.Open(d, path, mode);
      o.Done? && (o.value.1 == -1 ==> SameButFreeInodes(d, o.value.0) && Shows(o.value.0, MarkAfter(o.value.0, used), a))
  {
    OpenSimulates(d, used, a, path, mode);
    TableFull(d, used, a);
    LookupShows(d, used, a, path);
    if ValidPathname(path) && BaseName(path) !in a.files && mode.creat && !M.CanCreate(a, BaseName(path)) {
      FailedCreateRollsBack(d, used, a, BaseName(path));
    }
  }

  /** With the table full, a created or truncated file persists: only the handle is missing. */
  lemma FullTableKeepsFile(d: Disk, used: nat, a: M.Fs, path: Path, mode: Mode)
    requires Shows(d, used, a) && M.Allowed(a, Call.Open(path, mode)) && |a.handles| >= d.p.openCount
    ensures var o := Ops.Open(d, path, mode);
      && o.Done? && o.value.1 == -1
      && Shows(o.value.0, MarkAfter(o.value.0, used), a.(files := M.FilesAfterOpen(a, path, mode)))
  {
    OpenSimulates(d, used, a, path, mode);
    TableFull(d, used, a);
    M.OpenWithoutHandle(a, path, mode);
  }

  /** A write that finds no block changes nothing at all. */
  lemma FailedWriteRollsBack(d: Disk, used: nat, a: M.Fs, h: int, buf: buffer)
    requires Shows(d, used, a) && M.Allowed(a, Call.Write(h, buf))
    ensures var o := Ops.Write(d, h, buf); o.Done? && (o.value.1 == -1 ==> o.value.0 == d)
  {
    OpenHandles(d, used, a, h);
    if h in a.handles {
      HandleFacts(d, used, a, h);
      WriteIs(d, h, buf);
    }
  }

  // ----- the frame of a write, byte by byte -----

  /** The state after `n` bytes of `buf` were stored at `offset` in block `b` of inode `k`, through handle `h`. */
  predicate StoredOnly(d: Disk, d1: Disk, h: nat, k: int, b: nat, offset: nat, buf: seq<byte>, n: nat)
    requires offset + n <= d.p.blockSize && n <= |buf| && d1.p == d.p
  {
    && ValidInumber(d, k) && ValidBlock(d, b) && d1.inodes[k].block == b
    && (forall i :: 0 <= i < |d.data| ==>
          d1.data[i] == if 0 <= i - Start(d.p, b) - offset < n then buf[i - Start(d.p, b) - offset] else d.data[i])
    && (forall g :: 0 <= g < d.p.openCount && g != h ==> d1.table[g] == d.table[g])
    && (forall l :: 0 <= l < d.p.inodeCount && l != k ==> d1.inodes[l] == d.inodes[l])
    && d1.inodeTaken == d.inodeTaken && d1.tableTaken == d.tableTaken && d1.blockTaken == d.blockTaken[b := true]
  }

  lemma WrittenStoresOnly(d: Disk, h: nat, b: nat, buf: seq<byte>, n: nat)
    requires Ops.OpenOnInode(d, h) && ValidBlock(d, b) && d.table[h].offset + n <= d.p.blockSize && n <= |buf|
    ensures StoredOnly(d, Written(d, h, b, buf[..n]), h, d.table[h].inumber, b, d.table[h].offset, buf, n)
  {
    BlockInside(d.p, b);
  }

  /** The frame of a write through a handle that is sound. */
  lemma FrameOfWrite(d: Disk, h: nat, buf: buffer, n: int, b: int)
    requires HandleSound(d, h) && HandleOk(d.inodes, d.inodeTaken, d.table[h])
    requires BlocksOk(d.inodes, d.inodeTaken, d.blockTaken, d.p.blockSize)
    requires |buf| + d.table[h].offset < SIZE_LIMIT
    requires n == Min(|buf|, d.p.blockSize - d.table[h].offset) > 0 && b == TargetBlock(d, h) && ValidBlock(d, b)
    ensures Ops.Write(d, h, buf) == Done((Written(d, h, b, buf[..n]), n))
    ensures StoredOnly(d, Written(d, h, b, buf[..n]), h, d.table[h].inumber, b, d.table[h].offset, buf, n)
    ensures forall l :: Owner(d.inodes, d.inodeTaken, l) && l != d.table[h].inumber ==> d.inodes[l].block != b
  {
    WriteIs(d, h, buf);
    WrittenStoresOnly(d, h, b, buf, n);
    TargetIsOwn(d, h);
  }

  /**
   A write of `n` bytes changes the `n` bytes of the flat memory at the handle's offset in
   the file's block and no others; it stays inside that block, which belongs neither to the
   directory nor to another file; and no other handle or inode changes.
   */
  lemma WriteFrame(d: Disk, used: nat, a: M.Fs, h: nat, buf: buffer)
    requires Shows(d, used, a) && h in a.handles && M.Allowed(a, Call.Write(h, buf))
    ensures Ops.Write(d, h, buf).Done? && Ops.OpenOnInode(d, h)
    ensures var (d1, n) := Ops.Write(d, h, buf).value;
      n > 0 ==>
        var k, offset, b := d.table[h].inumber, d.table[h].offset, TargetBlock(d, h);
        && b >= 0 && n <= |buf| && offset + n <= d.p.blockSize && d1.p == d.p
        && StoredOnly(d, d1, h, k, b, offset, buf, n)
        && forall l :: Owner(d.inodes, d.inodeTaken, l) && l != k ==> d.inodes[l].block != b
  {
    HandleFacts(d, used, a, h);
    var n, b := Min(|buf|, d.p.blockSize - d.table[h].offset), TargetBlock(d, h);
    WriteIs(d, h, buf);
    if n > 0 && ValidBlock(d, b) {
      FrameOfWrite(d, h, buf, n, b);
    }
  }

  lemma TargetIsOwn(d: Disk, h: nat)
    requires HandleSound(d, h) && HandleOk(d.inodes, d.inodeTaken, d.table[h])
    requires BlocksOk(d.inodes, d.inodeTaken, d.blockTaken, d.p.blockSize) && ValidBlock(d, TargetBlock(d, h))
    ensures forall l :: Owner(d.inodes, d.inodeTaken, l) && l != d.table[h].inumber ==> d.inodes[l].block != TargetBlock(d, h)
  {
    var k := d.table[h].inumber;
    assert d.inodes[k].size > 0 ==> Owner(d.inodes, d.inodeTaken, k);
  }

  // ----- streams and provenance, on the implementation -----

  lemma RunReplies(d: Disk, used: nat, a: M.Fs, calls: seq<Call>)
    requires Shows(d, used, a) && M.AllAllowed(a, calls)
    ensures Ops.Run(d, calls).Done? && Ops.Run(d, calls).value.1 == M.Run(a, calls).1
  {
    RunSimulates(d, used, a, calls);
  }

  lemma SizeIsObject(d: Disk, used: nat, a: M.Fs)
    requires Shows(d, used, a)
    ensures a.lim.size == d.p.blockSize && 0 < a.lim.size <= OBJECT_LIMIT
  {
    BlockInside(d.p, 0);
  }

  /**
   Round trip.  Chunks written through one handle of an empty file and read back through
   another, in any chunking: the write results add up to the number of bytes that fit, and
   the bytes read are the concatenation of the chunks cut to the size of a block and to the
   number of bytes asked for.
   */
  lemma StreamRoundTrip(d: Disk, used: nat, a: M.Fs, w: nat, r: nat, name: cstring,
                        chunks: seq<buffer>, lens: seq<size_t>)
    requires Shows(d, used, a) && w != r && P.Room(a, name) && a.files[name] == [] && P.Objects(chunks)
    requires w in a.handles && a.handles[w] == M.Handle(name, 0) && r in a.handles && a.handles[r] == M.Handle(name, 0)
    ensures var writes := P.Writes(w, chunks);
      var run := Ops.Run(d, writes + P.Reads(r, lens));
      && run.Done? && |writes| <= |run.value.1|
      && P.Codes(run.value.1[..|writes|]) == |P.Clip(P.Concat(chunks), d.p.blockSize)|
      && P.RoundTrip(chunks, lens, d.p.blockSize, run.value.1[|writes|..])
  {
    SizeIsObject(d, used, a);
    P.StreamRoundTrip(a, w, r, name, chunks, lens);
    RunReplies(d, used, a, P.Writes(w, chunks) + P.Reads(r, lens));
  }

  /** The same with one open-append, write, close session per chunk. */
  lemma SessionsRoundTrip(d: Disk, used: nat, a: M.Fs, path: Path, chunks: seq<buffer>, r: nat, lens: seq<size_t>)
    requires Shows(d, used, a) && ValidPathname(path) && P.Room(a, BaseName(path)) && P.Objects(chunks)
    requires a.files[BaseName(path)] == [] && |a.handles| < d.p.openCount
    requires r in a.handles && a.handles[r] == M.Handle(BaseName(path), 0)
    ensures var sessions := P.Sessions(path, FirstFree(d.tableTaken), chunks);
      var run := Ops.Run(d, sessions + P.Reads(r, lens));
      && run.Done? && |sessions| <= |run.value.1|
      && P.SessionCodes(run.value.1[..|sessions|]) == |P.Clip(P.Concat(chunks), d.p.blockSize)|
      && P.RoundTrip(chunks, lens, d.p.blockSize, run.value.1[|sessions|..])
  {
    SizeIsObject(d, used, a);
    TableFull(d, used, a);
    P.SessionsRoundTrip(a, path, chunks, r, lens);
    RunReplies(d, used, a, P.Sessions(path, FirstFree(d.tableTaken), chunks) + P.Reads(r, lens));
  }

  lemma ReadReply(d: Disk, used: nat, a: M.Fs, h: int, len: size_t)
    requires Shows(d, used, a)
    ensures Ops.Read(d, h, len).Done? && Ops.Read(d, h, len).value.1 == M.Read(a, h, len).1
  {
    ReadSimulates(d, used, a, h, len);
  }

  /**
   No stale bytes.  After any run of allowed calls from `tfs_init`, every byte that a read
   returns was stored at that position by an earlier write to the same file, and the file
   has held it ever since.
   */
  lemma ReadReturnsWrittenBytes(p: Params, inodes: seq<Inode>, data: seq<byte>, table: seq<OpenFile>,
                                calls: seq<Call>, h: int, len: size_t, i: nat)
    requires ParamsOk(p)
    requires |inodes| == p.inodeCount && |data| == MemorySize(p) && |table| == p.openCount
    requires M.AllAllowed(M.Empty(LimitsOf(p)), calls)
    ensures var o := Ops.Init(p, inodes, data, table);
      && o.Done?
      && var run := Ops.Run(o.value.0, calls);
      && run.Done?
      && var read := Ops.Read(run.value.0, h, len);
      && read.Done?
      && (i < |read.value.1.bytes| ==>
            Provenance.WrittenBefore(M.Empty(LimitsOf(p)), calls, h, i, read.value.1.bytes[i]))
  {
    TraceRefinement(p, inodes, data, table, calls);
    var o, now := Ops.Init(p, inodes, data, table), M.Run(M.Empty(LimitsOf(p)), calls).0;
    ReadReply(Ops.Run(o.value.0, calls).value.0, MarkOf(o.value.0, 0, calls), now, h, len);
    if i < |M.Read(now, h, len).1.bytes| {
      Provenance.ReadsWrittenBytes(LimitsOf(p), calls, h, len, i);
    }
  }
}
