/**
 Every operation on the tables and bitmaps does to the client's view what `FileModel`
 says, as long as the call is allowed.
 */
module Simulation {
  import opened Bytes
  import opened CString
  import opened Counting
  import opened Disk
  import opened Calls
  import opened DiskInvariant
  import opened TableUpdates
  import Ops = Operations
  import Directory
  import M = FileModel

  /** A lookup is a lookup in the map of names. */
  lemma LookupShows(d: Disk, used: nat, a: M.Fs, path: Path)
    requires Shows(d, used, a)
    ensures Ops.Lookup(d, path) == Done(
      if ValidPathname(path) && BaseName(path) in a.files then Entries(d)[BaseName(path)] else -1)
  {
    if ValidPathname(path) {
      Directory.FindIsLookup(RootBlock(d), used, BaseName(path));
    }
  }

  // ----- handles -----

  lemma HandlesAdded(m: map<cstring, int>, table: seq<OpenFile>, tableTaken: seq<bool>, handles: map<nat, M.Handle>,
                     name: cstring, offset: nat)
    requires HandlesMatch(m, table, tableTaken, handles) && name in m
    ensures var h := FirstFree(tableTaken);
      && h == Lowest(handles.Keys, |table|)
      && (h < |table| ==>
            HandlesMatch(m, table[h := OpenFile(m[name], offset)], tableTaken[h := true],
                         handles[h := M.Handle(name, offset)]))
  {
    FirstFreeIsLowest(tableTaken);
    var h := FirstFree(tableTaken);
    if h < |table| {
      assert TakenSet(tableTaken[h := true]) == TakenSet(tableTaken) + {h};
    }
  }

  lemma HandlesMoved(m: map<cstring, int>, table: seq<OpenFile>, tableTaken: seq<bool>, handles: map<nat, M.Handle>,
                     h: nat, offset: nat)
    requires HandlesMatch(m, table, tableTaken, handles) && h in handles
    ensures h < |table| && tableTaken[h]
    ensures HandlesMatch(m, table[h := table[h].(offset := offset)], tableTaken, handles[h := handles[h].(offset := offset)])
  {
    assert h in TakenSet(tableTaken);
  }

  lemma HandlesRemoved(m: map<cstring, int>, table: seq<OpenFile>, tableTaken: seq<bool>, handles: map<nat, M.Handle>, h: nat)
    requires HandlesMatch(m, table, tableTaken, handles) && h < |table| && tableTaken[h]
    ensures h in handles && HandlesMatch(m, table, tableTaken[h := false], handles - {h})
  {
    assert h in TakenSet(tableTaken);
    assert TakenSet(tableTaken[h := false]) == TakenSet(tableTaken) - {h};
  }

  lemma AddToTableShows(d: Disk, used: nat, a: M.Fs, name: cstring, offset: nat)
    requires Shows(d, used, a) && name in a.files && offset <= |a.files[name]|
    ensures var (d1, h) := AddToTable(d, Entries(d)[name], offset);
      Shows(d1, used, M.OpenAt(a, name, offset).0) && h == M.OpenAt(a, name, offset).1
  {
    HandlesAdded(Entries(d), d.table, d.tableTaken, a.handles, name, offset);
    ShowsInside(d, used, a);
    M.OpenAtInside(a, name, offset);
    ShowsNewTable(d, used, a, AddToTable(d, Entries(d)[name], offset).0, M.OpenAt(a, name, offset).0.handles);
  }

  lemma OpenHandles(d: Disk, used: nat, a: M.Fs, h: int)
    requires Shows(d, used, a)
    ensures IsOpen(d, h) <==> h in a.handles
    ensures IsOpen(d, h) ==> Ops.OpenOnInode(d, h) && M.Usable(a, h)
  {
    assert IsOpen(d, h) <==> h in TakenSet(d.tableTaken);
  }

  lemma CloseShows(d: Disk, used: nat, a: M.Fs, h: int)
    requires Shows(d, used, a)
    ensures Ops.Close(d, h).Done?
    ensures Shows(Ops.Close(d, h).value.0, used, M.Close(a, h).0) && Ops.Close(d, h).value.1 == M.Close(a, h).1
  {
    OpenHandles(d, used, a, h);
    if IsOpen(d, h) {
      HandlesRemoved(Entries(d), d.table, d.tableTaken, a.handles, h);
      ShowsInside(d, used, a);
      ShowsNewTable(d, used, a, Ops.Close(d, h).value.0, a.handles - {h});
    }
  }

  /** The offset of one handle changes. */
  lemma OffsetShows(d: Disk, used: nat, a: M.Fs, h: nat, offset: nat)
    requires Shows(d, used, a) && h in a.handles
    requires M.Usable(a, h) && offset <= |a.files[a.handles[h].name]|
    ensures IsOpen(d, h)
    ensures Shows(Ops.SetOffset(d, h, offset), used, M.SetOffset(a, h, offset))
  {
    HandlesMoved(Entries(d), d.table, d.tableTaken, a.handles, h, offset);
    ShowsInside(d, used, a);
    ShowsNewTable(d, used, a, Ops.SetOffset(d, h, offset), M.SetOffset(a, h, offset).handles);
  }

  // ----- truncation -----

  /** Inodes other than `k` keep their contents when only block `b` of `k`, or a free block, changes. */
  lemma FilesAfter(d: Disk, m: map<cstring, int>, files: map<cstring, seq<byte>>, d1: Disk, name: cstring, b: int, content: seq<byte>)
    requires NamesOk(m, d.inodeTaken) && BlocksOk(d.inodes, d.inodeTaken, d.blockTaken, d.p.blockSize)
    requires FilesMatch(d, m, files) && name in m && d1.p == d.p
    requires forall l :: ValidInumber(d, l) && l != m[name] ==> d1.inodes[l] == d.inodes[l]
    requires forall c :: ValidBlock(d, c) && c != b ==> Block(d1, c) == Block(d, c)
    requires forall l :: Owner(d.inodes, d.inodeTaken, l) && l != m[name] ==> d.inodes[l].block != b
    requires ValidInumber(d1, m[name]) && Contents(d1, m[name]) == content
    ensures FilesMatch(d1, m, files[name := content])
  {
    forall n | n in m && n != name ensures Contents(d1, m[n]) == Contents(d, m[n]) {
      assert d.inodes[m[n]].size > 0 ==> Owner(d.inodes, d.inodeTaken, m[n]);
    }
  }

  function Truncated(d: Disk, k: nat): Disk
    requires ValidInumber(d, k) && ValidBlock(d, d.inodes[k].block)
  {
    SetInode(d.(blockTaken := d.blockTaken[d.inodes[k].block := false]), k, d.inodes[k].(size := 0))
  }

  lemma TruncatedPieces(d: Disk, m: map<cstring, int>, files: map<cstring, seq<byte>>, name: cstring)
    requires NamesOk(m, d.inodeTaken) && BlocksOk(d.inodes, d.inodeTaken, d.blockTaken, d.p.blockSize)
    requires FilesMatch(d, m, files) && name in m && Owner(d.inodes, d.inodeTaken, m[name])
    ensures var d1 := Truncated(d, m[name]);
      && BlocksOk(d1.inodes, d1.inodeTaken, d1.blockTaken, d1.p.blockSize)
      && FilesMatch(d1, m, files[name := []])
  {
    BlocksTruncate(d.inodes, d.inodeTaken, d.blockTaken, d.p.blockSize, m[name]);
    FilesAfter(d, m, files, Truncated(d, m[name]), name, -1, []);
  }

  lemma TruncatedShows(d: Disk, used: nat, a: M.Fs, name: cstring)
    requires Shows(d, used, a) && name in a.files && Owner(d.inodes, d.inodeTaken, Entries(d)[name])
    requires M.AllAtStart(a, name)
    ensures Shows(Truncated(d, Entries(d)[name]), used, a.(files := a.files[name := []]))
    ensures Entries(Truncated(d, Entries(d)[name])) == Entries(d)
  {
    TruncatedPieces(d, Entries(d), a.files, name);
    ShowsInside(d, used, a);
    M.TruncateInside(a, name);
    ShowsSameNames(d, used, a, Truncated(d, Entries(d)[name]), a.(files := a.files[name := []]));
  }

  lemma TruncateIs(d: Disk, k: int, mode: Mode)
    requires ValidInumber(d, k) && (d.inodes[k].size > 0 ==> ValidBlock(d, d.inodes[k].block))
    ensures Ops.Truncate(d, k, mode) == Done(if mode.trunc && d.inodes[k].size > 0 then Truncated(d, k) else d)
  {
  }

  lemma FileInode(d: Disk, used: nat, a: M.Fs, name: cstring)
    requires Shows(d, used, a) && name in a.files
    ensures var k := Entries(d)[name];
      && 0 < k < d.p.inodeCount && d.inodeTaken[k]
      && |a.files[name]| == d.inodes[k].size <= d.p.blockSize
      && (d.inodes[k].size > 0 ==> ValidBlock(d, d.inodes[k].block) && Owner(d.inodes, d.inodeTaken, k))
  {
    ContentsSize(d, Entries(d)[name]);
    assert d.inodes[Entries(d)[name]].size > 0 ==> Owner(d.inodes, d.inodeTaken, Entries(d)[name]);
  }

  /** Truncating a file whose handles are all at the start. */
  lemma TruncateShows(d: Disk, used: nat, a: M.Fs, name: cstring, mode: Mode)
    requires Shows(d, used, a) && name in a.files
    requires mode.trunc && a.files[name] != [] ==> M.AllAtStart(a, name)
    ensures var o := Ops.Truncate(d, Entries(d)[name], mode);
      && o.Done?
      && Shows(o.value, used, a.(files := a.files[name := if mode.trunc then [] else a.files[name]]))
      && Entries(o.value) == Entries(d)
  {
    FileInode(d, used, a, name);
    TruncateIs(d, Entries(d)[name], mode);
    if mode.trunc && a.files[name] != [] {
      TruncatedShows(d, used, a, name);
    } else {
      assert a.files[name := a.files[name]] == a.files;
      assert a.(files := a.files) == a;
    }
  }
}
