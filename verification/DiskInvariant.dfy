/** The representation invariant of TecnicoFS and the relation to the client's view. */
module DiskInvariant {
  import opened Bytes
  import opened CString
  import opened Counting
  import opened Disk
  import opened Calls
  import Directory
  import M = FileModel

  /** What a caller of `tfs_init` has to supply; the block memory must be one C object. */
  predicate ParamsOk(p: Params) {
    && 1 <= p.inodeCount < INT_LIMIT && 1 <= p.blockCount < INT_LIMIT && p.openCount < INT_LIMIT
    && 1 <= p.blockSize && MemorySize(p) <= OBJECT_LIMIT
  }

  // ----- the tables, one at a time -----

  /** The directory entries name the taken inodes other than the root, one each. */
  ghost predicate NamesOk(m: map<cstring, int>, taken: seq<bool>) {
    && 0 < |taken| && taken[0]
    && (forall n :: n in m ==> 0 < m[n] < |taken| && taken[m[n]])
    && (forall n, p :: n in m && p in m && n != p ==> m[n] != m[p])
    && (forall k {:trigger k in m.Values} :: 0 < k < |taken| && taken[k] ==> k in m.Values)
  }

  /** A taken inode with contents; only those own a block. */
  predicate Owner(inodes: seq<Inode>, taken: seq<bool>, k: int) {
    0 <= k < |inodes| && k < |taken| && taken[k] && inodes[k].size > 0
  }

  predicate Owns(inodes: seq<Inode>, taken: seq<bool>, k: int, b: int) {
    Owner(inodes, taken, k) && inodes[k].block == b
  }

  ghost predicate HasOwner(inodes: seq<Inode>, taken: seq<bool>, b: int) {
    exists k :: Owns(inodes, taken, k, b)
  }

  /** The taken blocks are those of the taken non-empty inodes, one each. */
  ghost predicate BlocksOk(inodes: seq<Inode>, taken: seq<bool>, blockTaken: seq<bool>, size: nat) {
    && |inodes| == |taken|
    && (forall k :: Owner(inodes, taken, k) ==>
          inodes[k].size <= size && 0 <= inodes[k].block < |blockTaken| && blockTaken[inodes[k].block])
    && (forall k, l :: Owner(inodes, taken, k) && Owner(inodes, taken, l) && k != l ==>
          inodes[k].block != inodes[l].block)
    && (forall b {:trigger HasOwner(inodes, taken, b)} :: 0 <= b < |blockTaken| && blockTaken[b] ==>
          HasOwner(inodes, taken, b))
  }

  predicate HandleOk(inodes: seq<Inode>, taken: seq<bool>, e: OpenFile) {
    0 < e.inumber < |inodes| && e.inumber < |taken| && taken[e.inumber] && e.offset <= inodes[e.inumber].size
  }

  /** An open handle refers to a file that exists, at an offset inside it. */
  predicate HandlesOk(inodes: seq<Inode>, taken: seq<bool>, table: seq<OpenFile>, tableTaken: seq<bool>) {
    && |table| == |tableTaken|
    && (forall h :: 0 <= h < |table| && tableTaken[h] ==> HandleOk(inodes, taken, table[h]))
  }

  // ----- the invariant -----

  /** The root directory is inode 0 and owns block 0, whole, for ever. */
  predicate RootOk(d: Disk) {
    ParamsOk(d.p) && d.inodeTaken[0] && d.inodes[0] == Inode(TDirectory, d.p.blockSize, 0)
  }

  function RootBlock(d: Disk): (blk: seq<byte>)
    requires RootOk(d)
  {
    Block(d, d.inodes[0].block)
  }

  /** The directory as a map from names to inumbers. */
  ghost function Entries(d: Disk): map<cstring, int>
    requires RootOk(d)
  {
    Directory.Entries(Directory.Slots(RootBlock(d)))
  }

  ghost predicate Inv(d: Disk, used: nat) {
    && RootOk(d)
    && Directory.Valid(Directory.Slots(RootBlock(d)), used)
    && NamesOk(Entries(d), d.inodeTaken)
    && BlocksOk(d.inodes, d.inodeTaken, d.blockTaken, d.p.blockSize)
    && HandlesOk(d.inodes, d.inodeTaken, d.table, d.tableTaken)
  }

  // ----- the client's view -----

  /** The bytes of inode `k`. */
  function Contents(d: Disk, k: int): (s: seq<byte>)
    requires ValidInumber(d, k)
  {
    var inode := d.inodes[k];
    if inode.size == 0 || !ValidBlock(d, inode.block) || inode.size > d.p.blockSize then []
    else Block(d, inode.block)[..inode.size]
  }

  function Limits(d: Disk): M.Limits
    requires RootOk(d)
  {
    M.Limits(d.p.inodeCount - 1, d.p.blockSize / Directory.ENTRY_SIZE, d.p.blockCount - 1, d.p.openCount, d.p.blockSize)
  }

  ghost predicate FilesMatch(d: Disk, m: map<cstring, int>, files: map<cstring, seq<byte>>) {
    && files.Keys == m.Keys
    && (forall n :: n in files ==> ValidInumber(d, m[n]) && files[n] == Contents(d, m[n]))
  }

  ghost predicate HandlesMatch(m: map<cstring, int>, table: seq<OpenFile>, tableTaken: seq<bool>, handles: map<nat, M.Handle>) {
    && |table| == |tableTaken|
    && handles.Keys == TakenSet(tableTaken)
    && (forall h :: h in handles ==>
          handles[h].name in m && table[h] == OpenFile(m[handles[h].name], handles[h].offset))
  }

  /** `a` is what a client sees of `d`. */
  ghost predicate Shows(d: Disk, used: nat, a: M.Fs) {
    && Inv(d, used)
    && a.lim == Limits(d)
    && FilesMatch(d, Entries(d), a.files)
    && HandlesMatch(Entries(d), d.table, d.tableTaken, a.handles)
  }

  ghost function NameOf(m: map<cstring, int>, taken: seq<bool>, k: int): (n: cstring)
    requires NamesOk(m, taken) && 0 < k < |taken| && taken[k]
    ensures n in m && m[n] == k
  {
    assert k in m.Values;
    var n :| n in m && m[n] == k;
    n
  }

  /** The handles of the view, given the directory. */
  ghost function ViewHandles(m: map<cstring, int>, inodes: seq<Inode>, taken: seq<bool>, table: seq<OpenFile>, tableTaken: seq<bool>)
    : (handles: map<nat, M.Handle>)
    requires NamesOk(m, taken) && HandlesOk(inodes, taken, table, tableTaken)
    ensures HandlesMatch(m, table, tableTaken, handles)
  {
    map h | h in TakenSet(tableTaken) :: M.Handle(NameOf(m, taken, table[h].inumber), table[h].offset)
  }

  /** The view as a function of the state. */
  ghost function View(d: Disk, used: nat): (a: M.Fs)
    requires Inv(d, used)
    ensures Shows(d, used, a)
  {
    M.Fs(Limits(d),
         map n | n in Entries(d) :: Contents(d, Entries(d)[n]),
         ViewHandles(Entries(d), d.inodes, d.inodeTaken, d.table, d.tableTaken))
  }

  lemma HandlesUnique(m: map<cstring, int>, taken: seq<bool>, table: seq<OpenFile>, tableTaken: seq<bool>,
                      f: map<nat, M.Handle>, g: map<nat, M.Handle>)
    requires NamesOk(m, taken) && HandlesMatch(m, table, tableTaken, f) && HandlesMatch(m, table, tableTaken, g)
    ensures f == g
  {
    forall h | h in f ensures f[h] == g[h] {
      assert m[f[h].name] == m[g[h].name];
    }
  }

  lemma FilesUnique(d: Disk, m: map<cstring, int>, f: map<cstring, seq<byte>>, g: map<cstring, seq<byte>>)
    requires FilesMatch(d, m, f) && FilesMatch(d, m, g)
    ensures f == g
  {
    assert f.Keys == g.Keys;
    assert forall n :: n in f ==> f[n] == g[n];
  }

  /** Every state satisfying the invariant shows exactly one client view. */
  lemma ViewUnique(d: Disk, used: nat, a: M.Fs)
    requires Shows(d, used, a)
    ensures a == View(d, used)
  {
    var v := View(d, used);
    FilesUnique(d, Entries(d), a.files, v.files);
    HandlesUnique(Entries(d), d.inodeTaken, d.table, d.tableTaken, a.handles, v.handles);
  }

  // ----- putting the pieces together -----

  lemma ContentsSize(d: Disk, k: int)
    requires BlocksOk(d.inodes, d.inodeTaken, d.blockTaken, d.p.blockSize)
    requires ValidInumber(d, k) && d.inodeTaken[k]
    ensures |Contents(d, k)| == d.inodes[k].size
  {
    if d.inodes[k].size > 0 {
      assert Owner(d.inodes, d.inodeTaken, k);
    }
  }

  lemma HandlesFromView(d: Disk, m: map<cstring, int>, a: M.Fs)
    requires NamesOk(m, d.inodeTaken) && BlocksOk(d.inodes, d.inodeTaken, d.blockTaken, d.p.blockSize)
    requires FilesMatch(d, m, a.files) && HandlesMatch(m, d.table, d.tableTaken, a.handles)
    ensures HandlesOk(d.inodes, d.inodeTaken, d.table, d.tableTaken) <==> M.OffsetsInside(a)
  {
    forall h | h in a.handles
      ensures HandleOk(d.inodes, d.inodeTaken, d.table[h]) <==> a.handles[h].offset <= |a.files[a.handles[h].name]|
    {
      ContentsSize(d, m[a.handles[h].name]);
    }
    forall h | 0 <= h < |d.table| && d.tableTaken[h] ensures h in a.handles {
      assert h in TakenSet(d.tableTaken);
    }
  }

  lemma ShowsFromPieces(d: Disk, used: nat, m: map<cstring, int>, a: M.Fs)
    requires RootOk(d) && Directory.Valid(Directory.Slots(RootBlock(d)), used) && m == Entries(d)
    requires NamesOk(m, d.inodeTaken) && BlocksOk(d.inodes, d.inodeTaken, d.blockTaken, d.p.blockSize)
    requires a.lim == Limits(d) && FilesMatch(d, m, a.files) && HandlesMatch(m, d.table, d.tableTaken, a.handles)
    requires M.OffsetsInside(a)
    ensures Shows(d, used, a)
  {
    HandlesFromView(d, m, a);
  }

  /** Nothing about the root directory changed. */
  predicate SameRoot(d: Disk, d1: Disk) {
    && RootOk(d) && d1.p == d.p
    && d1.inodeTaken[0] && d1.inodes[0] == d.inodes[0]
    && Block(d1, d.inodes[0].block) == Block(d, d.inodes[0].block)
  }

  lemma ShowsSameNames(d: Disk, used: nat, a: M.Fs, d1: Disk, a1: M.Fs)
    requires Shows(d, used, a) && SameRoot(d, d1) && d1.inodeTaken == d.inodeTaken
    requires BlocksOk(d1.inodes, d1.inodeTaken, d1.blockTaken, d1.p.blockSize)
    requires a1.lim == a.lim && FilesMatch(d1, Entries(d), a1.files)
    requires HandlesMatch(Entries(d), d1.table, d1.tableTaken, a1.handles)
    requires M.OffsetsInside(a1)
    ensures Shows(d1, used, a1) && Entries(d1) == Entries(d)
  {
    assert RootBlock(d1) == RootBlock(d);
    ShowsFromPieces(d1, used, Entries(d), a1);
  }

  lemma FilesFrame(d: Disk, m: map<cstring, int>, files: map<cstring, seq<byte>>, d1: Disk)
    requires FilesMatch(d, m, files) && d1.p == d.p && d1.inodes == d.inodes && d1.data == d.data
    ensures FilesMatch(d1, m, files)
  {
    assert forall n :: n in files ==> Contents(d1, m[n]) == Contents(d, m[n]);
  }

  /** Only the open-file table changed. */
  lemma ShowsNewTable(d: Disk, used: nat, a: M.Fs, d1: Disk, handles: map<nat, M.Handle>)
    requires Shows(d, used, a) && d1 == d.(table := d1.table, tableTaken := d1.tableTaken)
    requires HandlesMatch(Entries(d), d1.table, d1.tableTaken, handles)
    requires M.OffsetsInside(a.(handles := handles))
    ensures Shows(d1, used, a.(handles := handles))
  {
    FilesFrame(d, Entries(d), a.files, d1);
    ShowsSameNames(d, used, a, d1, a.(handles := handles));
  }

  lemma ShowsInside(d: Disk, used: nat, a: M.Fs)
    requires Shows(d, used, a)
    ensures M.OffsetsInside(a)
  {
    HandlesFromView(d, Entries(d), a);
  }

  // ----- resources by counting -----

  /** Every inode but the root is a file, so allocation fails exactly at `inodeCount - 1` files. */
  lemma InodesByCount(m: map<cstring, int>, taken: seq<bool>)
    requires NamesOk(m, taken)
    ensures |TakenSet(taken)| == |m| + 1 <= |taken|
    ensures FirstFree(taken) == |taken| <==> |m| == |taken| - 1
  {
    FullByCount(m, taken, 0);
  }

  ghost function BlockMap(m: map<cstring, int>, inodes: seq<Inode>, taken: seq<bool>): (f: map<cstring, int>)
    requires NamesOk(m, taken) && |inodes| == |taken|
    ensures forall n :: n in f <==> n in m && inodes[m[n]].size > 0
    ensures forall n :: n in f ==> f[n] == inodes[m[n]].block
  {
    map n | n in m && inodes[m[n]].size > 0 :: inodes[m[n]].block
  }

  lemma BlocksFull(m: map<cstring, int>, inodes: seq<Inode>, taken: seq<bool>, blockTaken: seq<bool>, size: nat)
    requires NamesOk(m, taken) && BlocksOk(inodes, taken, blockTaken, size) && inodes[0].size > 0
    ensures |TakenSet(blockTaken)| == |BlockMap(m, inodes, taken)| + 1 <= |blockTaken|
    ensures FirstFree(blockTaken) == |blockTaken| <==> |BlockMap(m, inodes, taken)| == |blockTaken| - 1
  {
    var f, root := BlockMap(m, inodes, taken), inodes[0].block;
    assert Owner(inodes, taken, 0);
    assert forall n :: n in f ==> Owner(inodes, taken, m[n]);
    forall b | 0 <= b < |blockTaken| && blockTaken[b] && b != root ensures b in f.Values {
      assert HasOwner(inodes, taken, b);
      var k :| Owns(inodes, taken, k, b);
      assert k in m.Values;
      var n :| n in m && m[n] == k;
      assert n in f && f[n] == b;
    }
    FullByCount(f, blockTaken, root);
  }

  lemma NonEmptyFiles(d: Disk, m: map<cstring, int>, files: map<cstring, seq<byte>>)
    requires NamesOk(m, d.inodeTaken) && FilesMatch(d, m, files)
    requires BlocksOk(d.inodes, d.inodeTaken, d.blockTaken, d.p.blockSize)
    ensures BlockMap(m, d.inodes, d.inodeTaken).Keys == M.NonEmpty(files)
  {
    forall n | n in m ensures files[n] != [] <==> d.inodes[m[n]].size > 0 {
      ContentsSize(d, m[n]);
    }
  }

  /** Every block but the root's belongs to a non-empty file, so allocation fails exactly at `blockCount - 1` of them. */
  lemma BlocksByCount(d: Disk, used: nat, files: map<cstring, seq<byte>>)
    requires Inv(d, used) && FilesMatch(d, Entries(d), files)
    ensures |TakenSet(d.blockTaken)| == |M.NonEmpty(files)| + 1 <= d.p.blockCount
    ensures FirstFree(d.blockTaken) == d.p.blockCount <==> |M.NonEmpty(files)| == d.p.blockCount - 1
  {
    BlocksFull(Entries(d), d.inodes, d.inodeTaken, d.blockTaken, d.p.blockSize);
    NonEmptyFiles(d, Entries(d), files);
  }
}
