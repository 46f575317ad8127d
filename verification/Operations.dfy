/** The effect of every function of fs/operations.c on the file system state. */
module Operations {
  import opened Bytes
  import opened CString
  import opened Disk
  import opened Calls

  const ROOT_DIR_INUM := 0

  // ----- tfs_open -----

  /** `tfs_lookup` in the root directory. */
  function Lookup(d: Disk, path: Path): Outcome<int> {
    if !ValidPathname(path) then Done(-1)
    else if !ValidInumber(d, ROOT_DIR_INUM) then Crash
    else FindInDir(d, d.inodes[ROOT_DIR_INUM], BaseName(path))
  }

  function Truncate(d: Disk, k: int, mode: Mode): Outcome<Disk> {
    if !ValidInumber(d, k) then Crash
    else if mode.trunc && d.inodes[k].size > 0 then
      var d1 :- BlockFree(d, d.inodes[k].block);
      Done(SetInode(d1, k, d1.inodes[k].(size := 0)))
    else Done(d)
  }

  function OpenExisting(d: Disk, k: int, mode: Mode): Outcome<(Disk, int)> {
    var d1 :- Truncate(d, k, mode);
    OpenAt(d1, k, mode)
  }

  function OpenAt(d: Disk, k: int, mode: Mode): Outcome<(Disk, int)> {
    if !ValidInumber(d, k) then Crash
    else Done(AddToTable(d, k, if mode.append then d.inodes[k].size else 0))
  }

  function OpenNew(d: Disk, name: cstring): Outcome<(Disk, int)> {
    var (d1, k) :- InodeCreate(d, TFile);
    if k == -1 then Done((d1, -1)) else Link(d1, name, k)
  }

  function Link(d: Disk, name: cstring, k: int): Outcome<(Disk, int)> {
    if !ValidInumber(d, ROOT_DIR_INUM) || !ValidInumber(d, k) then Crash
    else
      var (d1, r) :- AddDirEntry(d, d.inodes[ROOT_DIR_INUM], name, k);
      if r == -1 then
        var d2 :- InodeDelete(d1, k);
        Done((d2, -1))
      else Done(AddToTable(d1, k, 0))
  }

  function Open(d: Disk, path: Path, mode: Mode): Outcome<(Disk, int)> {
    if !ValidPathname(path) then Done((d, -1))
    else
      var k :- Lookup(d, path);
      if k >= 0 then OpenExisting(d, k, mode)
      else if mode.creat then OpenNew(d, BaseName(path))
      else Done((d, -1))
  }

  // ----- tfs_close -----

  function Close(d: Disk, h: int): Outcome<(Disk, int)> {
    if !IsOpen(d, h) then Done((d, -1))
    else
      var d1 :- RemoveFromTable(d, h);
      Done((d1, 0))
  }

  // ----- tfs_write -----

  predicate OpenOnInode(d: Disk, h: int) {
    IsOpen(d, h) && ValidInumber(d, d.table[h].inumber)
  }

  /** How many bytes to write; both sums are `size_t` arithmetic. */
  function WriteLength(d: Disk, offset: nat, want: nat): nat {
    if Wrap(want + offset) > d.p.blockSize then Wrap(d.p.blockSize - offset) else want
  }

  /** `memcpy` into the block of the open file. */
  function CopyIn(d: Disk, h: int, buf: buffer, n: nat): Outcome<Disk>
    requires OpenOnInode(d, h)
  {
    var e := d.table[h];
    var b := d.inodes[e.inumber].block;
    if !ValidBlock(d, b) || n > |buf| || Start(d.p, b) + e.offset + n > |d.data| then Crash
    else Done(d.(data := Put(d.data, Start(d.p, b) + e.offset, buf[..n])))
  }

  /** The offset moves past the bytes written, and the file grows to include it. */
  function AdvanceWrite(d: Disk, h: int, n: nat): Disk
    requires OpenOnInode(d, h)
  {
    var e := d.table[h];
    var offset := e.offset + n;
    var inode := d.inodes[e.inumber];
    var d1 := d.(table := d.table[h := e.(offset := offset)]);
    if offset > inode.size then SetInode(d1, e.inumber, inode.(size := offset)) else d1
  }

  function Store(d: Disk, h: int, buf: buffer, n: nat): Outcome<(Disk, int)>
    requires OpenOnInode(d, h)
  {
    var d1 :- CopyIn(d, h, buf, n);
    Done((AdvanceWrite(d1, h, n), n))
  }

  /** The block for an empty file; -1 when there is none. */
  function AllocateFor(d: Disk, h: int): (Disk, int)
    requires OpenOnInode(d, h)
  {
    var k := d.table[h].inumber;
    if d.inodes[k].size == 0 then
      var (d1, b) := BlockAlloc(d);
      if b == -1 then (d, -1) else (SetInode(d1, k, d1.inodes[k].(block := b)), 0)
    else (d, 0)
  }

  function WriteSome(d: Disk, h: int, buf: buffer, n: nat): Outcome<(Disk, int)>
    requires OpenOnInode(d, h)
  {
    var (d1, r) := AllocateFor(d, h);
    if r == -1 then Done((d1, -1)) else Store(d1, h, buf, n)
  }

  function Write(d: Disk, h: int, buf: buffer): Outcome<(Disk, int)> {
    if !IsOpen(d, h) then Done((d, -1))
    else if !OpenOnInode(d, h) then Crash
    else
      var n := WriteLength(d, d.table[h].offset, |buf|);
      if n > 0 then WriteSome(d, h, buf, n) else Done((d, 0))
  }

  // ----- tfs_read -----

  function ReadLength(d: Disk, h: int, len: nat): nat
    requires OpenOnInode(d, h)
  {
    var e := d.table[h];
    var left := Wrap(d.inodes[e.inumber].size - e.offset);
    if left > len then len else left
  }

  /** `memcpy` out of the block of the open file. */
  function CopyOut(d: Disk, h: int, n: nat): Outcome<seq<byte>>
    requires OpenOnInode(d, h)
  {
    var e := d.table[h];
    var b := d.inodes[e.inumber].block;
    if !ValidBlock(d, b) || Start(d.p, b) + e.offset + n > |d.data| then Crash
    else Done(d.data[Start(d.p, b) + e.offset..][..n])
  }

  function SetOffset(d: Disk, h: int, offset: nat): Disk
    requires IsOpen(d, h)
  {
    d.(table := d.table[h := d.table[h].(offset := offset)])
  }

  function Read(d: Disk, h: int, len: size_t): Outcome<(Disk, Reply)> {
    if !IsOpen(d, h) then Done((d, Reply(-1, [])))
    else if !OpenOnInode(d, h) then Crash
    else
      var n := ReadLength(d, h, len);
      if n > 0 then
        var bytes :- CopyOut(d, h, n);
        Done((SetOffset(d, h, d.table[h].offset + n), Reply(n, bytes)))
      else Done((d, Reply(0, [])))
  }

  // ----- tfs_unlink -----

  function ClearName(d: Disk, path: Path): Outcome<(Disk, int)>
    requires ValidPathname(path)
  {
    if !ValidInumber(d, ROOT_DIR_INUM) then Crash
    else ClearDirEntry(d, d.inodes[ROOT_DIR_INUM], BaseName(path))
  }

  function Unlink(d: Disk, path: Path): Outcome<(Disk, int)> {
    if !ValidPathname(path) then Done((d, -1))
    else
      var k :- Lookup(d, path);
      if k == -1 then Done((d, -1))
      else
        var d1 :- InodeDelete(d, k);
        ClearName(d1, path)
  }

  // ----- tfs_init and the calls together -----

  function Init(p: Params, inodes: seq<Inode>, data: seq<byte>, table: seq<OpenFile>): Outcome<(Disk, int)>
    requires |inodes| == p.inodeCount && |data| == MemorySize(p) && |table| == p.openCount
    requires p.inodeCount < INT_LIMIT && p.blockCount < INT_LIMIT && p.openCount < INT_LIMIT
  {
    var (d, root) :- InodeCreate(StateInit(p, inodes, data, table), TDirectory);
    Done((d, if root == ROOT_DIR_INUM then 0 else -1))
  }

  function WithCode(o: Outcome<(Disk, int)>): Outcome<(Disk, Reply)> {
    match o
    case Done((d, r)) => Done((d, Reply(r, [])))
    case Crash => Crash
  }

  function Apply(d: Disk, call: Call): Outcome<(Disk, Reply)> {
    match call
    case Open(path, mode) => WithCode(Open(d, path, mode))
    case Close(h) => WithCode(Close(d, h))
    case Write(h, buf) => WithCode(Write(d, h, buf))
    case Read(h, len) => Read(d, h, len)
    case Unlink(path) => WithCode(Unlink(d, path))
  }

  function Run(d: Disk, calls: seq<Call>): Outcome<(Disk, seq<Reply>)>
    decreases |calls|
  {
    if calls == [] then Done((d, []))
    else
      var (d1, r) :- Apply(d, calls[0]);
      var (d2, rs) :- Run(d1, calls[1..]);
      Done((d2, [r] + rs))
  }
}
