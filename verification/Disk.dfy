/**
 The state of TecnicoFS as a value, and the effect of every function of fs/state.c on it.

 `Crash` is the outcome of a failed ALWAYS_ASSERT and of a copy outside the block memory.
 It is part of the model so that its absence can be proved.
 */
module Disk {
  import opened Bytes
  import opened CString
  import opened Counting
  import Directory

  datatype Outcome<+T> = Done(value: T) | Crash {
    predicate IsFailure() {
      Crash?
    }

    function PropagateFailure<U>(): Outcome<U>
      requires Crash?
    {
      Crash
    }

    function Extract(): T
      requires Done?
    {
      value
    }
  }

  datatype Params = Params(inodeCount: nat, blockCount: nat, openCount: nat, blockSize: nat)

  datatype InodeType = TFile | TDirectory
  datatype Inode = Inode(kind: InodeType, size: nat, block: int)
  datatype OpenFile = OpenFile(inumber: int, offset: nat)

  datatype RawDisk = Disk(
    p: Params,
    inodes: seq<Inode>,
    inodeTaken: seq<bool>,
    data: seq<byte>,
    blockTaken: seq<bool>,
    table: seq<OpenFile>,
    tableTaken: seq<bool>
  ) {
    /** The tables have the sizes that `state_init` allocates. */
    predicate Shape() {
      && |inodes| == |inodeTaken| == p.inodeCount
      && |data| == MemorySize(p)
      && |blockTaken| == p.blockCount
      && |table| == |tableTaken| == p.openCount
      && p.inodeCount < INT_LIMIT && p.blockCount < INT_LIMIT && p.openCount < INT_LIMIT
    }
  }

  type Disk = d: RawDisk | d.Shape() witness Disk(Params(0, 0, 0, 0), [], [], [], [], [], [])

  predicate ValidInumber(d: Disk, k: int) {
    0 <= k < d.p.inodeCount
  }

  predicate ValidBlock(d: Disk, b: int) {
    0 <= b < d.p.blockCount
  }

  predicate IsOpen(d: Disk, h: int) {
    0 <= h < d.p.openCount && d.tableTaken[h]
  }

  // ----- the flat block memory -----

  /** Offset of block `b` in `fs_data`, where one block follows the other. */
  function Start(p: Params, b: nat): nat {
    if b == 0 then 0 else Start(p, b - 1) + p.blockSize
  }

  /** The offset is the product that `data_block_get` computes. */
  lemma {:induction false} StartIs(p: Params, b: nat)
    ensures Start(p, b) == b * p.blockSize
  {
    if b > 0 {
      StartIs(p, b - 1);
      assert b * p.blockSize == (b - 1) * p.blockSize + p.blockSize;
    }
  }

  /** Number of bytes of `fs_data`: all blocks. */
  function MemorySize(p: Params): nat {
    Start(p, p.blockCount)
  }

  lemma {:induction false} StartOrder(p: Params, b: nat, c: nat)
    requires b < c
    ensures Start(p, b) + p.blockSize <= Start(p, c)
  {
    if b < c - 1 {
      StartOrder(p, b, c - 1);
    }
  }

  lemma BlockInside(p: Params, b: nat)
    requires b < p.blockCount
    ensures Start(p, b) + p.blockSize <= MemorySize(p)
  {
    StartOrder(p, b, p.blockCount);
  }

  lemma BlocksApart(p: Params, b: nat, c: nat)
    requires b != c
    ensures Start(p, b) + p.blockSize <= Start(p, c) || Start(p, c) + p.blockSize <= Start(p, b)
  {
    if b < c {
      StartOrder(p, b, c);
    } else {
      StartOrder(p, c, b);
    }
  }

  function Block(d: Disk, b: nat): (blk: seq<byte>)
    requires ValidBlock(d, b)
    ensures |blk| == d.p.blockSize
  {
    BlockInside(d.p, b);
    d.data[Start(d.p, b)..Start(d.p, b) + d.p.blockSize]
  }

  /** Bytes `[at, at + |bytes|)` of block `b` replaced. */
  function PutBlock(d: Disk, b: nat, at: nat, bytes: seq<byte>): (r: Disk)
    requires ValidBlock(d, b) && at + |bytes| <= d.p.blockSize
    ensures r == d.(data := r.data)
  {
    BlockInside(d.p, b);
    d.(data := Put(d.data, Start(d.p, b) + at, bytes))
  }

  /** Two splices of one block, the second on top of the first. */
  lemma PutBlockTwice(d: Disk, b: nat, blk: seq<byte>, at: nat, bytes: seq<byte>)
    requires ValidBlock(d, b) && |blk| == d.p.blockSize && at + |bytes| <= d.p.blockSize
    ensures PutBlock(PutBlock(d, b, 0, blk), b, at, bytes) == PutBlock(d, b, 0, Put(blk, at, bytes))
  {
    BlockInside(d.p, b);
    var start, end := Start(d.p, b), Start(d.p, b) + d.p.blockSize;
    var m := Put(d.data, start, blk);
    PutAgain(d.data, start, blk, Put(blk, at, bytes));
    PutNested(m, start, end, at, bytes);
  }

  lemma PutBlockSame(d: Disk, b: nat)
    requires ValidBlock(d, b)
    ensures PutBlock(d, b, 0, Block(d, b)) == d
  {
    BlockInside(d.p, b);
    assert Put(d.data, Start(d.p, b), Block(d, b)) == d.data;
  }

  lemma PutBlockElsewhere(d: Disk, b: nat, at: nat, bytes: seq<byte>, c: nat)
    requires ValidBlock(d, b) && at + |bytes| <= d.p.blockSize && ValidBlock(d, c) && c != b
    ensures Block(PutBlock(d, b, at, bytes), c) == Block(d, c)
  {
    BlockInside(d.p, b);
    BlockInside(d.p, c);
    BlocksApart(d.p, b, c);
    var first, other := Start(d.p, b) + at, Start(d.p, c);
    var end := other + d.p.blockSize;
    assert end <= first || first + |bytes| <= other;
    PutElsewhere(d.data, first, bytes, other, end);
  }

  lemma PutBlockFrame(d: Disk, b: nat, at: nat, bytes: seq<byte>)
    requires ValidBlock(d, b) && at + |bytes| <= d.p.blockSize
    ensures Block(PutBlock(d, b, at, bytes), b) == Put(Block(d, b), at, bytes)
    ensures forall c :: ValidBlock(d, c) && c != b ==> Block(PutBlock(d, b, at, bytes), c) == Block(d, c)
  {
    BlockInside(d.p, b);
    PutInside(d.data, Start(d.p, b) + at, bytes, Start(d.p, b), Start(d.p, b) + d.p.blockSize);
    forall c | ValidBlock(d, c) && c != b
      ensures Block(PutBlock(d, b, at, bytes), c) == Block(d, c)
    {
      PutBlockElsewhere(d, b, at, bytes, c);
    }
  }

  // ----- blocks and inodes -----

  /** `data_block_alloc` */
  function BlockAlloc(d: Disk): (Disk, int) {
    var b := FirstFree(d.blockTaken);
    if b == d.p.blockCount then (d, -1) else (d.(blockTaken := d.blockTaken[b := true]), b)
  }

  /** `data_block_free` */
  function BlockFree(d: Disk, b: int): Outcome<Disk> {
    if ValidBlock(d, b) then Done(d.(blockTaken := d.blockTaken[b := false])) else Crash
  }

  function SetInode(d: Disk, k: nat, inode: Inode): Disk
    requires ValidInumber(d, k)
  {
    d.(inodes := d.inodes[k := inode])
  }

  /** `inode_delete` */
  function InodeDelete(d: Disk, k: int): Outcome<Disk> {
    if !ValidInumber(d, k) || !d.inodeTaken[k] then Crash
    else
      var d1 :- if d.inodes[k].size > 0 then BlockFree(d, d.inodes[k].block) else Done(d);
      Done(d1.(inodeTaken := d1.inodeTaken[k := false]))
  }

  /** `inode_create` */
  function InodeCreate(d: Disk, kind: InodeType): Outcome<(Disk, int)> {
    var k := FirstFree(d.inodeTaken);
    if k == d.p.inodeCount then Done((d, -1))
    else
      var d1 := d.(inodeTaken := d.inodeTaken[k := true]);
      match kind
      case TFile => Done((SetInode(d1, k, Inode(TFile, 0, -1)), k))
      case TDirectory =>
        var (d2, b) := BlockAlloc(d1);
        if b == -1 then
          var d3 :- InodeDelete(SetInode(d2, k, Inode(TDirectory, 0, -1)), k);
          Done((d3, -1))
        else
          var d3 := SetInode(d2, k, Inode(TDirectory, d.p.blockSize, b));
          Done((PutBlock(d3, b, 0, Directory.Fresh(Block(d3, b))), k))
  }

  // ----- the directory -----

  /** `find_in_dir` */
  function FindInDir(d: Disk, dir: Inode, name: cstring): Outcome<int> {
    if dir.kind != TDirectory then Done(-1)
    else if !ValidBlock(d, dir.block) then Crash
    else Done(Directory.Find(Block(d, dir.block), name))
  }

  /** `add_dir_entry` */
  function AddDirEntry(d: Disk, dir: Inode, name: cstring, k: nat): Outcome<(Disk, int)>
    requires k < INT_LIMIT
  {
    if |name| == 0 || |name| > MAX_FILE_NAME - 1 || dir.kind != TDirectory then Done((d, -1))
    else if !ValidBlock(d, dir.block) then Crash
    else
      match Directory.Add(Block(d, dir.block), name, k)
      case None => Done((d, -1))
      case Some(blk) => Done((PutBlock(d, dir.block, 0, blk), 0))
  }

  /** `clear_dir_entry` */
  function ClearDirEntry(d: Disk, dir: Inode, name: cstring): Outcome<(Disk, int)> {
    if dir.kind != TDirectory then Done((d, -1))
    else if !ValidBlock(d, dir.block) then Crash
    else
      match Directory.Clear(Block(d, dir.block), name)
      case None => Done((d, -1))
      case Some(blk) => Done((PutBlock(d, dir.block, 0, blk), 0))
  }

  // ----- the open-file table -----

  /** `add_to_open_file_table` */
  function AddToTable(d: Disk, k: int, offset: nat): (Disk, int) {
    var h := FirstFree(d.tableTaken);
    if h == d.p.openCount then (d, -1)
    else (d.(tableTaken := d.tableTaken[h := true], table := d.table[h := OpenFile(k, offset)]), h)
  }

  /** `remove_from_open_file_table` */
  function RemoveFromTable(d: Disk, h: int): Outcome<Disk> {
    if IsOpen(d, h) then Done(d.(tableTaken := d.tableTaken[h := false])) else Crash
  }

  /** `state_init`; the tables and the block memory hold whatever `malloc` returned. */
  function StateInit(p: Params, inodes: seq<Inode>, data: seq<byte>, table: seq<OpenFile>): Disk
    requires |inodes| == p.inodeCount && |data| == MemorySize(p) && |table| == p.openCount
    requires p.inodeCount < INT_LIMIT && p.blockCount < INT_LIMIT && p.openCount < INT_LIMIT
  {
    Disk(p, inodes, seq(p.inodeCount, _ => false), data, seq(p.blockCount, _ => false),
         table, seq(p.openCount, _ => false))
  }
}
