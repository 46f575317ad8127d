/** Writing and reading: the calls that move bytes through a handle. */
module TransferSimulation {
  import opened Bytes
  import opened CString
  import opened Counting
  import opened Disk
  import opened Calls
  import opened DiskInvariant
  import opened TableUpdates
  import opened Simulation
  import opened NameSimulation
  import Ops = Operations
  import M = FileModel

  function Max(x: nat, y: nat): nat {
    if x < y then y else x
  }

  /** `bytes` stored in block `b` at the offset of handle `h`. */
  function Written(d: Disk, h: nat, b: nat, bytes: seq<byte>): Disk
    requires Ops.OpenOnInode(d, h) && ValidBlock(d, b) && d.table[h].offset + |bytes| <= d.p.blockSize
  {
    var OpenFile(k, offset) := d.table[h];
    var inode := d.inodes[k].(block := b, size := Max(d.inodes[k].size, offset + |bytes|));
    PutBlock(SetInode(d, k, inode), b, offset, bytes)
      .(blockTaken := d.blockTaken[b := true], table := d.table[h := OpenFile(k, offset + |bytes|)])
  }

  /** The block the bytes go to: the file's own, or the first free one for an empty file. */
  function TargetBlock(d: Disk, h: nat): int
    requires Ops.OpenOnInode(d, h)
  {
    var inode := d.inodes[d.table[h].inumber];
    if inode.size == 0 then FirstFree(d.blockTaken) else inode.block
  }

  /** What the invariant says about an open handle and its inode. */
  predicate HandleSound(d: Disk, h: int) {
    && Ops.OpenOnInode(d, h)
    && var inode := d.inodes[d.table[h].inumber];
    && d.table[h].offset <= inode.size <= d.p.blockSize < SIZE_LIMIT
    && (inode.size > 0 ==> ValidBlock(d, inode.block) && d.blockTaken[inode.block])
  }

  lemma StoreIs(d: Disk, h: nat, b: nat, buf: buffer, n: nat)
    requires Ops.OpenOnInode(d, h) && 0 < n <= |buf|
    requires ValidBlock(d, b) && d.table[h].offset + n <= d.p.blockSize
    requires d.inodes[d.table[h].inumber].block == b && d.blockTaken[b]
    ensures Ops.Store(d, h, buf, n) == Done((Written(d, h, b, buf[..n]), n as int))
  {
    BlockInside(d.p, b);
    var k := d.table[h].inumber;
    var d1 := Ops.AdvanceWrite(Ops.CopyIn(d, h, buf, n).value, h, n);
    var d2 := Written(d, h, b, buf[..n]);
    assert d1.inodes == d2.inodes;
    assert d1.blockTaken == d2.blockTaken;
    assert d1.data == d2.data;
  }

  lemma WriteSomeIs(d: Disk, h: nat, buf: buffer, n: nat)
    requires HandleSound(d, h) && 0 < n <= |buf| && d.table[h].offset + n <= d.p.blockSize
    ensures var b := TargetBlock(d, h);
      Ops.WriteSome(d, h, buf, n) ==
        if ValidBlock(d, b) then Done((Written(d, h, b, buf[..n]), n as int)) else Done((d, -1))
  {
    var b := TargetBlock(d, h);
    var k := d.table[h].inumber;
    if ValidBlock(d, b) {
      var d1 := Ops.AllocateFor(d, h).0;
      StoreIs(d1, h, b, buf, n);
      assert Written(d1, h, b, buf[..n]).inodes == Written(d, h, b, buf[..n]).inodes;
      assert Written(d1, h, b, buf[..n]).blockTaken == Written(d, h, b, buf[..n]).blockTaken;
    }
  }

  /** The outcome of a write in one expression. */
  function WriteResult(d: Disk, h: nat, buf: buffer): (Disk, int)
    requires HandleSound(d, h)
  {
    var n, b := Min(|buf|, d.p.blockSize - d.table[h].offset), TargetBlock(d, h);
    if n <= 0 then (d, 0) else if ValidBlock(d, b) then (Written(d, h, b, buf[..n]), n) else (d, -1)
  }

  lemma WriteIs(d: Disk, h: nat, buf: buffer)
    requires HandleSound(d, h) && |buf| + d.table[h].offset < SIZE_LIMIT
    ensures Ops.Write(d, h, buf) == Done(WriteResult(d, h, buf))
  {
    var n := Min(|buf|, d.p.blockSize - d.table[h].offset);
    assert Ops.WriteLength(d, d.table[h].offset, |buf|) == n;
    if n > 0 {
      WriteSomeIs(d, h, buf, n);
    }
  }

  lemma SpliceOfBlock(blk: seq<byte>, size: nat, offset: nat, bytes: seq<byte>)
    requires offset <= size <= |blk| && offset + |bytes| <= |blk|
    ensures Put(blk, offset, bytes)[..Max(size, offset + |bytes|)] == M.Splice(blk[..size], offset, bytes)
  {
  }

  lemma WrittenBlocks(d: Disk, h: nat, b: nat, bytes: seq<byte>)
    requires Ops.OpenOnInode(d, h) && ValidBlock(d, b) && d.table[h].offset + |bytes| <= d.p.blockSize
    ensures Block(Written(d, h, b, bytes), b) == Put(Block(d, b), d.table[h].offset, bytes)
    ensures forall c :: ValidBlock(d, c) && c != b ==> Block(Written(d, h, b, bytes), c) == Block(d, c)
  {
    var d1, d2 := Written(d, h, b, bytes), PutBlock(d, b, d.table[h].offset, bytes);
    PutBlockFrame(d, b, d.table[h].offset, bytes);
    assert d1.data == d2.data && d1.p == d2.p;
    assert forall c :: ValidBlock(d, c) ==> Block(d1, c) == Block(d2, c);
  }

  lemma WrittenContents(d: Disk, h: nat, b: nat, bytes: seq<byte>)
    requires HandleSound(d, h) && ValidBlock(d, b) && d.table[h].offset + |bytes| <= d.p.blockSize && |bytes| > 0
    requires var inode := d.inodes[d.table[h].inumber]; inode.size > 0 ==> inode.block == b
    ensures var k := d.table[h].inumber;
      Contents(Written(d, h, b, bytes), k) == M.Splice(Contents(d, k), d.table[h].offset, bytes)
  {
    var OpenFile(k, offset) := d.table[h];
    WrittenBlocks(d, h, b, bytes);
    SpliceOfBlock(Block(d, b), d.inodes[k].size, offset, bytes);
    assert Contents(d, k) == Block(d, b)[..d.inodes[k].size];
  }

  lemma WrittenFiles(d: Disk, m: map<cstring, int>, a: M.Fs, h: nat, b: nat, bytes: seq<byte>)
    requires NamesOk(m, d.inodeTaken) && BlocksOk(d.inodes, d.inodeTaken, d.blockTaken, d.p.blockSize)
    requires FilesMatch(d, m, a.files) && HandlesMatch(m, d.table, d.tableTaken, a.handles)
    requires h in a.handles && HandleSound(d, h) && b == TargetBlock(d, h) && ValidBlock(d, b)
    requires |bytes| > 0 && d.table[h].offset + |bytes| <= d.p.blockSize
    ensures FilesMatch(Written(d, h, b, bytes), m, M.Written(a, h, bytes).files)
  {
    var OpenFile(k, offset) := d.table[h];
    var name := a.handles[h].name;
    assert d.inodes[k].size > 0 ==> Owner(d.inodes, d.inodeTaken, k);
    WrittenContents(d, h, b, bytes);
    WrittenBlocks(d, h, b, bytes);
    FilesAfter(d, m, a.files, Written(d, h, b, bytes), name, b, M.Splice(a.files[name], offset, bytes));
  }

  lemma WrittenOwnership(d: Disk, h: nat, b: nat, bytes: seq<byte>)
    requires BlocksOk(d.inodes, d.inodeTaken, d.blockTaken, d.p.blockSize)
    requires HandleSound(d, h) && d.inodeTaken[d.table[h].inumber] && b == TargetBlock(d, h) && ValidBlock(d, b)
    requires |bytes| > 0 && d.table[h].offset + |bytes| <= d.p.blockSize
    ensures var d1 := Written(d, h, b, bytes); BlocksOk(d1.inodes, d1.inodeTaken, d1.blockTaken, d1.p.blockSize)
  {
    var OpenFile(k, offset) := d.table[h];
    BlocksWrite(d.inodes, d.inodeTaken, d.blockTaken, d.p.blockSize, k, b, Max(d.inodes[k].size, offset + |bytes|));
  }

  lemma WrittenRoot(d: Disk, h: nat, b: nat, bytes: seq<byte>)
    requires RootOk(d) && BlocksOk(d.inodes, d.inodeTaken, d.blockTaken, d.p.blockSize)
    requires HandleSound(d, h) && HandleOk(d.inodes, d.inodeTaken, d.table[h])
    requires b == TargetBlock(d, h) && ValidBlock(d, b)
    requires |bytes| > 0 && d.table[h].offset + |bytes| <= d.p.blockSize
    ensures SameRoot(d, Written(d, h, b, bytes)) && Written(d, h, b, bytes).inodeTaken == d.inodeTaken
  {
    var k := d.table[h].inumber;
    assert Owner(d.inodes, d.inodeTaken, 0);
    assert d.inodes[k].size > 0 ==> Owner(d.inodes, d.inodeTaken, k);
    WrittenBlocks(d, h, b, bytes);
  }

  lemma WrittenHandles(d: Disk, m: map<cstring, int>, a: M.Fs, h: nat, b: nat, bytes: seq<byte>)
    requires HandlesMatch(m, d.table, d.tableTaken, a.handles)
    requires h in a.handles && M.Usable(a, h) && HandleSound(d, h) && ValidBlock(d, b)
    requires d.table[h].offset + |bytes| <= d.p.blockSize
    ensures HandlesMatch(m, Written(d, h, b, bytes).table, Written(d, h, b, bytes).tableTaken, M.Written(a, h, bytes).handles)
  {
    var end := d.table[h].offset + |bytes|;
    HandlesMoved(m, d.table, d.tableTaken, a.handles, h, end);
  }

  lemma WrittenPieces(d: Disk, m: map<cstring, int>, a: M.Fs, h: nat, b: nat, bytes: seq<byte>)
    requires RootOk(d) && NamesOk(m, d.inodeTaken) && BlocksOk(d.inodes, d.inodeTaken, d.blockTaken, d.p.blockSize)
    requires FilesMatch(d, m, a.files) && HandlesMatch(m, d.table, d.tableTaken, a.handles)
    requires h in a.handles && HandleSound(d, h) && HandleOk(d.inodes, d.inodeTaken, d.table[h])
    requires b == TargetBlock(d, h) && ValidBlock(d, b)
    requires |bytes| > 0 && d.table[h].offset + |bytes| <= d.p.blockSize
    ensures var d1, a1 := Written(d, h, b, bytes), M.Written(a, h, bytes);
      && BlocksOk(d1.inodes, d1.inodeTaken, d1.blockTaken, d1.p.blockSize)
      && FilesMatch(d1, m, a1.files)
      && HandlesMatch(m, d1.table, d1.tableTaken, a1.handles)
  {
    WrittenOwnership(d, h, b, bytes);
    WrittenFiles(d, m, a, h, b, bytes);
    WrittenHandles(d, m, a, h, b, bytes);
  }

  lemma WrittenShows(d: Disk, used: nat, a: M.Fs, h: nat, b: nat, bytes: seq<byte>)
    requires Shows(d, used, a) && h in a.handles && HandleSound(d, h) && HandleOk(d.inodes, d.inodeTaken, d.table[h])
    requires b == TargetBlock(d, h) && ValidBlock(d, b)
    requires |bytes| > 0 && d.table[h].offset + |bytes| <= d.p.blockSize
    ensures Shows(Written(d, h, b, bytes), used, M.Written(a, h, bytes))
  {
    WrittenPieces(d, Entries(d), a, h, b, bytes);
    WrittenRoot(d, h, b, bytes);
    ShowsInside(d, used, a);
    M.WrittenInside(a, h, bytes);
    ShowsSameNames(d, used, a, Written(d, h, b, bytes), M.Written(a, h, bytes));
  }

  /** What an open handle of a valid state looks like. */
  lemma HandleFacts(d: Disk, used: nat, a: M.Fs, h: nat)
    requires Shows(d, used, a) && h in a.handles
    ensures HandleSound(d, h) && HandleOk(d.inodes, d.inodeTaken, d.table[h]) && M.Usable(a, h)
    ensures var k, name := d.table[h].inumber, a.handles[h].name;
      && k == Entries(d)[name] && d.table[h].offset == a.handles[h].offset
      && a.files[name] == Contents(d, k) && |a.files[name]| == d.inodes[k].size
  {
    OpenHandles(d, used, a, h);
    assert HandleOk(d.inodes, d.inodeTaken, d.table[h]);
    FileInode(d, used, a, a.handles[h].name);
    BlockInside(d.p, 0);
  }

  lemma WrittenAgrees(d: Disk, used: nat, a: M.Fs, h: nat, b: nat, bytes: seq<byte>, n: int)
    requires Shows(d, used, a) && h in a.handles && HandleSound(d, h) && HandleOk(d.inodes, d.inodeTaken, d.table[h])
    requires b == TargetBlock(d, h) && ValidBlock(d, b)
    requires |bytes| > 0 && d.table[h].offset + |bytes| <= d.p.blockSize
    ensures AgreesInPlace(Done((Written(d, h, b, bytes), n)), used, (M.Written(a, h, bytes), n))
  {
    WrittenShows(d, used, a, h, b, bytes);
    AgreesSameMark(Written(d, h, b, bytes), used, M.Written(a, h, bytes), n);
  }

  lemma RoomForFile(d: Disk, used: nat, a: M.Fs)
    requires Shows(d, used, a)
    ensures ValidBlock(d, FirstFree(d.blockTaken)) <==> |M.NonEmpty(a.files)| < a.lim.nonEmpty
  {
    BlocksByCount(d, used, a.files);
  }

  /** The write finds a block exactly when the model has room. */
  lemma WriteChoice(d: Disk, used: nat, a: M.Fs, h: nat)
    requires Shows(d, used, a) && h in a.handles && HandleSound(d, h)
    ensures M.Usable(a, h) && a.lim.size == d.p.blockSize && d.table[h].offset == a.handles[h].offset
    ensures ValidBlock(d, TargetBlock(d, h)) <==>
      !(a.files[a.handles[h].name] == [] && |M.NonEmpty(a.files)| >= a.lim.nonEmpty)
  {
    HandleFacts(d, used, a, h);
    RoomForFile(d, used, a);
  }

  lemma ModelWriteIs(a: M.Fs, h: nat, buf: buffer, n: int, room: bool)
    requires h in a.handles && M.Usable(a, h) && n == Min(|buf|, a.lim.size - a.handles[h].offset)
    requires room <==> !(a.files[a.handles[h].name] == [] && |M.NonEmpty(a.files)| >= a.lim.nonEmpty)
    ensures M.Write(a, h, buf) == if n <= 0 then (a, 0) else if room then (M.Written(a, h, buf[..n]), n) else (a, -1)
  {
  }

  lemma WriteResultIs(d: Disk, h: nat, buf: buffer, n: int, b: int)
    requires HandleSound(d, h) && n == Min(|buf|, d.p.blockSize - d.table[h].offset) && b == TargetBlock(d, h)
    ensures WriteResult(d, h, buf) ==
      if n <= 0 then (d, 0) else if ValidBlock(d, b) then (Written(d, h, b, buf[..n]), n) else (d, -1)
  {
  }

  lemma WriteResultSimulates(d: Disk, used: nat, a: M.Fs, h: nat, buf: buffer)
    requires Shows(d, used, a) && h in a.handles && HandleSound(d, h) && HandleOk(d.inodes, d.inodeTaken, d.table[h])
    ensures AgreesInPlace(Done(WriteResult(d, h, buf)), used, M.Write(a, h, buf))
  {
    var n, b := Min(|buf|, d.p.blockSize - d.table[h].offset), TargetBlock(d, h);
    WriteChoice(d, used, a, h);
    ModelWriteIs(a, h, buf, n, ValidBlock(d, b));
    WriteResultIs(d, h, buf, n, b);
    if n > 0 && ValidBlock(d, b) {
      var bytes := buf[..n];
      WrittenAgrees(d, used, a, h, b, bytes, n);
    } else {
      AgreesSameMark(d, used, a, WriteResult(d, h, buf).1);
    }
  }

  lemma WriteSimulates(d: Disk, used: nat, a: M.Fs, h: int, buf: buffer)
    requires Shows(d, used, a) && M.Allowed(a, Call.Write(h, buf))
    ensures AgreesInPlace(Ops.Write(d, h, buf), used, M.Write(a, h, buf))
  {
    OpenHandles(d, used, a, h);
    if h in a.handles {
      HandleFacts(d, used, a, h);
      WriteIs(d, h, buf);
      WriteResultSimulates(d, used, a, h, buf);
    } else {
      AgreesSameMark(d, used, a, -1);
    }
  }

  // ----- reading -----

  lemma SliceOfSlice(m: seq<byte>, start: nat, end: nat, size: nat, lo: nat, n: nat)
    requires start + size <= end <= |m| && lo + n <= size
    ensures m[start + lo..][..n] == m[start..end][..size][lo..lo + n]
  {
    var x, y := m[start + lo..][..n], m[start..end][..size][lo..lo + n];
    forall i | 0 <= i < n ensures x[i] == y[i] {
      assert y[i] == m[start..end][..size][lo + i] == m[start..end][lo + i];
    }
  }

  /** The outcome of a read in one expression. */
  function ReadResult(d: Disk, h: nat, len: nat): (Disk, Reply)
    requires HandleSound(d, h)
  {
    var OpenFile(k, offset) := d.table[h];
    var n := Min(len, |Contents(d, k)| - offset);
    if n <= 0 then (d, Reply(0, [])) else (Ops.SetOffset(d, h, offset + n), Reply(n, Contents(d, k)[offset..offset + n]))
  }

  lemma ReadIs(d: Disk, h: nat, len: size_t)
    requires HandleSound(d, h)
    ensures Ops.Read(d, h, len) == Done(ReadResult(d, h, len))
  {
    var OpenFile(k, offset) := d.table[h];
    var inode := d.inodes[k];
    var n := Min(len, inode.size - offset);
    assert Ops.ReadLength(d, h, len) == n;
    if n > 0 {
      BlockInside(d.p, inode.block);
      var start := Start(d.p, inode.block);
      SliceOfSlice(d.data, start, start + d.p.blockSize, inode.size, offset, n);
    }
  }

  lemma CallAgreesIs(d: Disk, reply: Reply, used: nat, a: M.Fs)
    requires Shows(d, used, a)
    ensures CallAgreesInPlace(Done((d, reply)), used, (a, reply))
  {
    AgreesSameMark(d, used, a, reply.code);
  }

  lemma ModelReadMoves(a: M.Fs, h: nat, len: nat, end: nat)
    requires h in a.handles && M.Usable(a, h) && a.handles[h].offset <= |a.files[a.handles[h].name]|
    requires end == a.handles[h].offset + Min(len, |a.files[a.handles[h].name]| - a.handles[h].offset)
    ensures a.handles[h].offset <= end <= |a.files[a.handles[h].name]|
    ensures M.Read(a, h, len).0 == if end == a.handles[h].offset then a else M.SetOffset(a, h, end)
    ensures M.Read(a, h, len).1 == Reply(end - a.handles[h].offset, a.files[a.handles[h].name][a.handles[h].offset..end])
  {
  }

  lemma ReadResultMoves(d: Disk, h: nat, len: nat, end: nat)
    requires HandleSound(d, h)
    requires d.table[h].offset <= |Contents(d, d.table[h].inumber)|
    requires end == d.table[h].offset + Min(len, |Contents(d, d.table[h].inumber)| - d.table[h].offset)
    ensures d.table[h].offset <= end <= |Contents(d, d.table[h].inumber)|
    ensures ReadResult(d, h, len).0 == if end == d.table[h].offset then d else Ops.SetOffset(d, h, end)
    ensures ReadResult(d, h, len).1 ==
      Reply(end - d.table[h].offset, Contents(d, d.table[h].inumber)[d.table[h].offset..end])
  {
  }

  /** Both reads move the offset to `end`. */
  lemma ReadsMove(d: Disk, used: nat, a: M.Fs, h: nat, len: nat, end: nat)
    requires Shows(d, used, a) && h in a.handles && HandleSound(d, h) && M.Usable(a, h)
    requires end == a.handles[h].offset + Min(len, |a.files[a.handles[h].name]| - a.handles[h].offset)
    ensures a.handles[h].offset <= end <= |a.files[a.handles[h].name]|
    ensures M.Read(a, h, len).1 == ReadResult(d, h, len).1
    ensures M.Read(a, h, len).0 == if end == a.handles[h].offset then a else M.SetOffset(a, h, end)
    ensures ReadResult(d, h, len).0 == if end == a.handles[h].offset then d else Ops.SetOffset(d, h, end)
  {
    HandleFacts(d, used, a, h);
    ModelReadMoves(a, h, len, end);
    ReadResultMoves(d, h, len, end);
  }

  lemma ReadResultSimulates(d: Disk, used: nat, a: M.Fs, h: nat, len: size_t)
    requires Shows(d, used, a) && h in a.handles && HandleSound(d, h) && M.Usable(a, h)
    ensures CallAgreesInPlace(Done(ReadResult(d, h, len)), used, M.Read(a, h, len))
  {
    var end := a.handles[h].offset + Min(len, |a.files[a.handles[h].name]| - a.handles[h].offset);
    ReadsMove(d, used, a, h, len, end);
    if end > a.handles[h].offset {
      OffsetShows(d, used, a, h, end);
    }
    CallAgreesIs(ReadResult(d, h, len).0, M.Read(a, h, len).1, used, M.Read(a, h, len).0);
  }

  lemma ReadSimulates(d: Disk, used: nat, a: M.Fs, h: int, len: size_t)
    requires Shows(d, used, a)
    ensures CallAgreesInPlace(Ops.Read(d, h, len), used, M.Read(a, h, len))
  {
    OpenHandles(d, used, a, h);
    if h in a.handles {
      HandleFacts(d, used, a, h);
      ReadIs(d, h, len);
      ReadResultSimulates(d, used, a, h, len);
    } else {
      CallAgreesIs(d, Reply(-1, []), used, a);
    }
  }
}
