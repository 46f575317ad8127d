/** Opening and unlinking: the calls that change the directory. */
module NameSimulation {
  import opened Bytes
  import opened CString
  import opened Counting
  import opened Disk
  import opened Calls
  import opened DiskInvariant
  import opened TableUpdates
  import opened Simulation
  import Ops = Operations
  import Directory
  import M = FileModel

  /** The high-water mark of the directory in a state reached in one call. */
  ghost function MarkAfter(d: Disk, used: nat): nat {
    if RootOk(d) then Directory.NextMark(used, Directory.Slots(RootBlock(d))) else used
  }

  /** A concrete outcome and an abstract one: no crash, matching states, equal return values. */
  ghost predicate Agrees(o: Outcome<(Disk, int)>, used: nat, r: (M.Fs, int)) {
    o.Done? && Shows(o.value.0, MarkAfter(o.value.0, used), r.0) && o.value.1 == r.1
  }

  /** The same, with no new directory slot filled. */
  ghost predicate AgreesInPlace(o: Outcome<(Disk, int)>, used: nat, r: (M.Fs, int)) {
    o.Done? && Shows(o.value.0, used, r.0) && MarkAfter(o.value.0, used) == used && o.value.1 == r.1
  }

  /** The same for a call with its reply. */
  ghost predicate CallAgreesInPlace(o: Outcome<(Disk, Reply)>, used: nat, r: (M.Fs, Reply)) {
    o.Done? && Shows(o.value.0, used, r.0) && MarkAfter(o.value.0, used) == used && o.value.1 == r.1
  }

  ghost predicate CallAgrees(o: Outcome<(Disk, Reply)>, used: nat, r: (M.Fs, Reply)) {
    o.Done? && Shows(o.value.0, MarkAfter(o.value.0, used), r.0) && o.value.1 == r.1
  }

  /** The high-water mark moves only when the directory does. */
  lemma AgreesSameMark(d: Disk, used: nat, a: M.Fs, r: int)
    requires Shows(d, used, a)
    ensures AgreesInPlace(Done((d, r)), used, (a, r)) && Agrees(Done((d, r)), used, (a, r))
  {
  }

  lemma FilesSkip(d: Disk, m: map<cstring, int>, files: map<cstring, seq<byte>>, k: nat, inode: Inode)
    requires FilesMatch(d, m, files) && NamesOk(m, d.inodeTaken) && k < d.p.inodeCount && !d.inodeTaken[k]
    ensures FilesMatch(SetInode(d, k, inode), m, files)
  {
    assert forall n :: n in files ==> Contents(SetInode(d, k, inode), m[n]) == Contents(d, m[n]);
  }

  /** States that differ only in what the view does not show: a free inode. */
  lemma FreeInodeHidden(d: Disk, used: nat, a: M.Fs, k: nat, inode: Inode)
    requires Shows(d, used, a) && k < d.p.inodeCount && !d.inodeTaken[k]
    ensures Shows(SetInode(d, k, inode), used, a)
  {
    var d1 := SetInode(d, k, inode);
    BlocksFreeInode(d.inodes, d.inodeTaken, d.blockTaken, d.p.blockSize, k, inode);
    FilesSkip(d, Entries(d), a.files, k, inode);
    ShowsInside(d, used, a);
    ShowsSameNames(d, used, a, d1, a);
  }

  // ----- creation -----

  /** After `inode_create(T_FILE)` took inode `k`. */
  function Reserved(d: Disk, k: nat): Disk
    requires ValidInumber(d, k)
  {
    SetInode(d.(inodeTaken := d.inodeTaken[k := true]), k, NEW_FILE)
  }

  /** ... and the directory block became `blk`. */
  function Linked(d: Disk, k: nat, blk: seq<byte>): Disk
    requires ValidInumber(d, k) && RootOk(d) && |blk| == d.p.blockSize && k != 0
  {
    PutBlock(Reserved(d, k), d.inodes[0].block, 0, blk)
  }

  lemma RootReplaced(d: Disk, blk: seq<byte>)
    requires RootOk(d) && |blk| == d.p.blockSize
    ensures var d1 := PutBlock(d, d.inodes[0].block, 0, blk);
      && RootOk(d1) && RootBlock(d1) == blk
      && (forall c :: ValidBlock(d, c) && c != d.inodes[0].block ==> Block(d1, c) == Block(d, c))
  {
    PutBlockFrame(d, d.inodes[0].block, 0, blk);
  }

  /** Files keep their contents while the directory block is rewritten. */
  lemma FilesKept(d: Disk, m: map<cstring, int>, files: map<cstring, seq<byte>>, d1: Disk, kept: set<cstring>)
    requires NamesOk(m, d.inodeTaken) && BlocksOk(d.inodes, d.inodeTaken, d.blockTaken, d.p.blockSize)
    requires FilesMatch(d, m, files) && kept <= m.Keys && d1.p == d.p && d.p.blockSize > 0
    requires d.inodes[0].size > 0 && ValidBlock(d, d.inodes[0].block)
    requires forall c :: ValidBlock(d, c) && c != d.inodes[0].block ==> Block(d1, c) == Block(d, c)
    requires forall n :: n in kept ==> d1.inodes[m[n]] == d.inodes[m[n]]
    ensures forall n :: n in kept ==> files[n] == Contents(d1, m[n])
  {
    assert Owner(d.inodes, d.inodeTaken, 0);
    forall n | n in kept ensures files[n] == Contents(d1, m[n]) {
      assert d.inodes[m[n]].size > 0 ==> Owner(d.inodes, d.inodeTaken, m[n]);
    }
  }

  lemma LinkedPieces(d: Disk, m: map<cstring, int>, a: M.Fs, name: cstring, k: nat, blk: seq<byte>)
    requires RootOk(d) && NamesOk(m, d.inodeTaken) && BlocksOk(d.inodes, d.inodeTaken, d.blockTaken, d.p.blockSize)
    requires FilesMatch(d, m, a.files) && HandlesMatch(m, d.table, d.tableTaken, a.handles)
    requires name !in m && k < d.p.inodeCount && !d.inodeTaken[k] && |blk| == d.p.blockSize
    ensures var d2, m2 := Linked(d, k, blk), m[name := k];
      && RootOk(d2) && RootBlock(d2) == blk
      && NamesOk(m2, d2.inodeTaken)
      && BlocksOk(d2.inodes, d2.inodeTaken, d2.blockTaken, d2.p.blockSize)
      && FilesMatch(d2, m2, a.files[name := []])
      && HandlesMatch(m2, d2.table, d2.tableTaken, a.handles)
  {
    NamesNew(m, d.inodeTaken, name, k);
    BlocksNew(d.inodes, d.inodeTaken, d.blockTaken, d.p.blockSize, k);
    RootReplaced(Reserved(d, k), blk);
    FilesKept(d, m, a.files, Linked(d, k, blk), m.Keys);
  }

  lemma LinkedFromPieces(d: Disk, m: map<cstring, int>, a: M.Fs, name: cstring, k: nat, blk: seq<byte>, mark: nat)
    requires RootOk(d) && NamesOk(m, d.inodeTaken) && BlocksOk(d.inodes, d.inodeTaken, d.blockTaken, d.p.blockSize)
    requires FilesMatch(d, m, a.files) && HandlesMatch(m, d.table, d.tableTaken, a.handles)
    requires name !in m && k < d.p.inodeCount && !d.inodeTaken[k] && |blk| == d.p.blockSize
    requires Directory.Valid(Directory.Slots(blk), mark) && Directory.Entries(Directory.Slots(blk)) == m[name := k]
    requires a.lim == Limits(d) && M.OffsetsInside(a)
    ensures Shows(Linked(d, k, blk), mark, a.(files := a.files[name := []]))
  {
    LinkedPieces(d, m, a, name, k, blk);
    M.CreateInside(a, name);
    ShowsFromPieces(Linked(d, k, blk), mark, m[name := k], a.(files := a.files[name := []]));
  }

  lemma LinkedShows(d: Disk, used: nat, a: M.Fs, name: cstring, k: nat)
    requires Shows(d, used, a) && name !in a.files && k < d.p.inodeCount && !d.inodeTaken[k]
    requires Directory.Add(RootBlock(d), name, k).Some?
    ensures var blk := Directory.Add(RootBlock(d), name, k).value;
      && |blk| == d.p.blockSize
      && Shows(Linked(d, k, blk), MarkAfter(Linked(d, k, blk), used), a.(files := a.files[name := []]))
      && Entries(Linked(d, k, blk)) == Entries(d)[name := k]
  {
    Directory.AddIsUpdate(RootBlock(d), used, name, k);
    var blk := Directory.Add(RootBlock(d), name, k).value;
    RootReplaced(Reserved(d, k), blk);
    ShowsInside(d, used, a);
    LinkedFromPieces(d, Entries(d), a, name, k, blk, MarkAfter(Linked(d, k, blk), used));
  }

  // ----- unlinking -----

  /** After `inode_delete(k)`. */
  function Deleted(d: Disk, k: nat): Disk
    requires ValidInumber(d, k)
  {
    d.(inodeTaken := d.inodeTaken[k := false], blockTaken := AfterDelete(d.inodes[k], d.blockTaken))
  }

  function Unlinked(d: Disk, k: nat, blk: seq<byte>): Disk
    requires ValidInumber(d, k) && RootOk(d) && |blk| == d.p.blockSize && k != 0
  {
    PutBlock(Deleted(d, k), d.inodes[0].block, 0, blk)
  }

  lemma UnlinkedPieces(d: Disk, m: map<cstring, int>, a: M.Fs, name: cstring, blk: seq<byte>)
    requires RootOk(d) && NamesOk(m, d.inodeTaken) && BlocksOk(d.inodes, d.inodeTaken, d.blockTaken, d.p.blockSize)
    requires FilesMatch(d, m, a.files) && HandlesMatch(m, d.table, d.tableTaken, a.handles)
    requires name in m && |blk| == d.p.blockSize && M.NotOpen(a, name)
    ensures var d2, m2 := Unlinked(d, m[name], blk), m - {name};
      && RootOk(d2) && RootBlock(d2) == blk
      && NamesOk(m2, d2.inodeTaken)
      && BlocksOk(d2.inodes, d2.inodeTaken, d2.blockTaken, d2.p.blockSize)
      && FilesMatch(d2, m2, a.files - {name})
      && HandlesMatch(m2, d2.table, d2.tableTaken, a.handles)
  {
    NamesDelete(m, d.inodeTaken, name);
    BlocksDelete(d.inodes, d.inodeTaken, d.blockTaken, d.p.blockSize, m[name]);
    RootReplaced(Deleted(d, m[name]), blk);
    FilesKept(d, m, a.files, Unlinked(d, m[name], blk), m.Keys - {name});
  }

  lemma UnlinkedShows(d: Disk, used: nat, a: M.Fs, name: cstring)
    requires Shows(d, used, a) && name in a.files && M.NotOpen(a, name)
    ensures Directory.Clear(RootBlock(d), name).Some?
    ensures var k, blk := Entries(d)[name], Directory.Clear(RootBlock(d), name).value;
      |blk| == d.p.blockSize && Shows(Unlinked(d, k, blk), used, a.(files := a.files - {name}))
  {
    Directory.ClearIsRemove(RootBlock(d), used, name);
    var k, blk := Entries(d)[name], Directory.Clear(RootBlock(d), name).value;
    UnlinkedPieces(d, Entries(d), a, name, blk);
    ShowsInside(d, used, a);
    M.UnlinkInside(a, name);
    ShowsFromPieces(Unlinked(d, k, blk), used, Entries(d) - {name}, a.(files := a.files - {name}));
  }

  // ----- tfs_open -----

  lemma OpenExistingIs(d: Disk, k: int, mode: Mode, d1: Disk)
    requires Ops.Truncate(d, k, mode) == Done(d1) && ValidInumber(d1, k)
    ensures Ops.OpenExisting(d, k, mode) == Done(AddToTable(d1, k, if mode.append then d1.inodes[k].size else 0))
  {
  }

  lemma OpenExistingSimulates(d: Disk, used: nat, a: M.Fs, name: cstring, mode: Mode)
    requires Shows(d, used, a) && name in a.files
    requires mode.trunc && a.files[name] != [] ==> M.AllAtStart(a, name)
    ensures Agrees(Ops.OpenExisting(d, Entries(d)[name], mode), used, M.OpenExisting(a, name, mode))
  {
    TruncateShows(d, used, a, name, mode);
    var d1 := Ops.Truncate(d, Entries(d)[name], mode).value;
    var content := if mode.trunc then [] else a.files[name];
    var offset := if mode.append then |content| else 0;
    var a1 := a.(files := a.files[name := content]);
    FileInode(d1, used, a1, name);
    OpenExistingIs(d, Entries(d)[name], mode, d1);
    AddToTableShows(d1, used, a1, name, offset);
    var (d2, h) := AddToTable(d1, Entries(d1)[name], offset);
    AgreesSameMark(d2, used, M.OpenAt(a1, name, offset).0, h);
  }

  lemma InodeCreateIs(d: Disk)
    ensures var k: int := FirstFree(d.inodeTaken);
      InodeCreate(d, TFile) == Done(if k == d.p.inodeCount then (d, -1) else (Reserved(d, k), k))
  {
  }

  lemma LinkIs(d: Disk, name: cstring, k: nat)
    requires RootOk(d) && k < d.p.inodeCount && !d.inodeTaken[k]
    ensures var r := Directory.Add(RootBlock(d), name, k);
      Ops.Link(Reserved(d, k), name, k) ==
        if r.None? then Done((SetInode(d, k, NEW_FILE), -1))
        else if |r.value| == d.p.blockSize then Done(AddToTable(Linked(d, k, r.value), k, 0))
        else Ops.Link(Reserved(d, k), name, k)
  {
    var d1 := Reserved(d, k);
    assert Block(d1, d.inodes[0].block) == RootBlock(d);
    assert d1.inodeTaken[k := false] == d.inodeTaken;
  }

  lemma TableMark(d: Disk, used: nat, k: int, offset: nat)
    requires RootOk(d)
    ensures MarkAfter(AddToTable(d, k, offset).0, used) == MarkAfter(d, used)
  {
    assert RootBlock(AddToTable(d, k, offset).0) == RootBlock(d);
  }

  lemma AgreesAtMark(d: Disk, used: nat, mark: nat, a: M.Fs, r: int)
    requires Shows(d, mark, a) && mark == MarkAfter(d, used)
    ensures Agrees(Done((d, r)), used, (a, r))
  {
  }

  lemma ThenOpen(d: Disk, used: nat, mark: nat, a: M.Fs, name: cstring, k: nat)
    requires Shows(d, mark, a) && mark == MarkAfter(d, used) && name in a.files && Entries(d)[name] == k
    ensures Agrees(Done(AddToTable(d, k, 0)), used, M.OpenAt(a, name, 0))
  {
    AddToTableShows(d, mark, a, name, 0);
    TableMark(d, used, k, 0);
    AgreesAtMark(AddToTable(d, k, 0).0, used, mark, M.OpenAt(a, name, 0).0, AddToTable(d, k, 0).1);
  }

  lemma LinkSucceeds(d: Disk, used: nat, a: M.Fs, name: cstring, k: nat)
    requires Shows(d, used, a) && name !in a.files && k < d.p.inodeCount && !d.inodeTaken[k]
    requires Directory.Add(RootBlock(d), name, k).Some?
    ensures Agrees(Ops.Link(Reserved(d, k), name, k), used, M.OpenAt(a.(files := a.files[name := []]), name, 0))
  {
    LinkIs(d, name, k);
    LinkedShows(d, used, a, name, k);
    var d2 := Linked(d, k, Directory.Add(RootBlock(d), name, k).value);
    ThenOpen(d2, used, MarkAfter(d2, used), a.(files := a.files[name := []]), name, k);
  }

  lemma LinkFails(d: Disk, used: nat, a: M.Fs, name: cstring, k: nat)
    requires Shows(d, used, a) && k < d.p.inodeCount && !d.inodeTaken[k]
    requires Directory.Add(RootBlock(d), name, k).None?
    ensures Agrees(Ops.Link(Reserved(d, k), name, k), used, (a, -1))
  {
    LinkIs(d, name, k);
    FreeInodeHidden(d, used, a, k, NEW_FILE);
    AgreesSameMark(SetInode(d, k, NEW_FILE), used, a, -1);
  }

  lemma OpenNewSimulates(d: Disk, used: nat, a: M.Fs, name: cstring)
    requires Shows(d, used, a) && name !in a.files && name != []
    ensures Agrees(Ops.OpenNew(d, name), used, M.OpenNew(a, name))
  {
    var k := FirstFree(d.inodeTaken);
    InodesByCount(Entries(d), d.inodeTaken);
    InodeCreateIs(d);
    assert Entries(d).Keys == a.files.Keys;
    if k < d.p.inodeCount {
      assert k !in Entries(d).Values;
      Directory.AddIsUpdate(RootBlock(d), used, name, k);
      if Directory.Add(RootBlock(d), name, k).Some? {
        LinkSucceeds(d, used, a, name, k);
      } else {
        LinkFails(d, used, a, name, k);
      }
    } else {
      AgreesSameMark(d, used, a, -1);
    }
  }

  lemma OpenSimulates(d: Disk, used: nat, a: M.Fs, path: Path, mode: Mode)
    requires Shows(d, used, a) && M.Allowed(a, Call.Open(path, mode))
    ensures Agrees(Ops.Open(d, path, mode), used, M.Open(a, path, mode))
  {
    LookupShows(d, used, a, path);
    AgreesSameMark(d, used, a, -1);
    if ValidPathname(path) {
      var name := BaseName(path);
      if name in a.files {
        FileInode(d, used, a, name);
        OpenExistingSimulates(d, used, a, name, mode);
      } else if mode.creat {
        OpenNewSimulates(d, used, a, name);
      }
    }
  }

  // ----- tfs_unlink -----

  lemma UnlinkIs(d: Disk, path: Path, k: nat)
    requires RootOk(d) && ValidPathname(path) && Ops.Lookup(d, path) == Done(k)
    requires 0 < k < d.p.inodeCount && d.inodeTaken[k]
    requires d.inodes[k].size > 0 ==> ValidBlock(d, d.inodes[k].block)
    ensures var r := Directory.Clear(RootBlock(d), BaseName(path));
      r.Some? && |r.value| == d.p.blockSize ==> Ops.Unlink(d, path) == Done((Unlinked(d, k, r.value), 0))
  {
    assert Block(Deleted(d, k), d.inodes[0].block) == RootBlock(d);
  }

  lemma UnlinkSimulates(d: Disk, used: nat, a: M.Fs, path: Path)
    requires Shows(d, used, a) && M.Allowed(a, Call.Unlink(path))
    ensures AgreesInPlace(Ops.Unlink(d, path), used, M.Unlink(a, path))
  {
    LookupShows(d, used, a, path);
    if ValidPathname(path) && BaseName(path) in a.files {
      var name, k := BaseName(path), Entries(d)[BaseName(path)];
      FileInode(d, used, a, name);
      UnlinkedShows(d, used, a, name);
      UnlinkIs(d, path, k);
      var d1 := Unlinked(d, k, Directory.Clear(RootBlock(d), name).value);
      AgreesSameMark(d1, used, M.Unlink(a, path).0, 0);
    } else {
      AgreesSameMark(d, used, a, -1);
    }
  }
}
