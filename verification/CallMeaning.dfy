/**
 What each call means to a client, in terms of byte strings, maps and the parameters of
 `tfs_init` alone: which paths are accepted, which file a path names, what the call changes
 and what it returns.
 */
module CallMeaning {
  import opened Bytes
  import opened CString
  import opened Counting
  import opened Disk
  import opened Calls
  import opened DiskInvariant
  import opened Simulation
  import opened NameSimulation
  import opened TransferSimulation
  import Discipline
  import FileProperties
  import Ops = Operations
  import Directory
  import M = FileModel

  // ----- paths -----

  /** The path of the file called `name`: a slash and the name. */
  function Under(name: cstring): Path {
    Path.Path([47] + name)
  }

  /** Not the path of any file: NULL, too short, or not absolute. */
  predicate NoPath(path: Path) {
    path.Null? || |path.s| < 2 || path.s[0] != 47
  }

  lemma PathCases(path: Path)
    ensures NoPath(path) || (path.s[1..] != [] && path == Under(path.s[1..]))
  {
    if !NoPath(path) {
      assert path.s == [47] + path.s[1..];
    }
  }

  lemma NameOfPath(name: cstring)
    requires name != []
    ensures ValidPathname(Under(name)) && BaseName(Under(name)) == name
  {
    assert ([47] + name)[1..] == name;
  }

  /** No other string is accepted, whatever the state and the mode. */
  lemma NoPathIsRejected(d: Disk, used: nat, a: M.Fs, path: Path, mode: Mode)
    requires Shows(d, used, a) && NoPath(path)
    ensures Ops.Open(d, path, mode) == Done((d, -1)) && Ops.Unlink(d, path) == Done((d, -1))
  {
    assert !ValidPathname(path);
  }

  // ----- tfs_open -----

  predicate LowestFree(handles: map<nat, M.Handle>, h: int) {
    0 <= h && h !in handles && forall g: nat :: g < h ==> g in handles
  }

  /** The files are `files`, and `ret` is a new handle at `offset` in `name`, if the table has room for one. */
  predicate GetsHandle(p: Params, a: M.Fs, files: map<cstring, seq<byte>>, name: cstring, offset: nat, a1: M.Fs, ret: int) {
    if |a.handles| < p.openCount then
      LowestFree(a.handles, ret) && ret < p.openCount
      && a1 == M.Fs(a.lim, files, a.handles[ret := M.Handle(name, offset)])
    else ret == -1 && a1 == M.Fs(a.lim, files, a.handles)
  }

  /** `tfs_open` of the file called `name` makes `a` into `a1` and returns `ret`. */
  predicate Opens(p: Params, a: M.Fs, name: cstring, mode: Mode, a1: M.Fs, ret: int) {
    if name in a.files then
      var content := if mode.trunc then [] else a.files[name];
      GetsHandle(p, a, a.files[name := content], name, if mode.append then |content| else 0, a1, ret)
    else if mode.creat && |name| <= 39 && |a.files| < p.inodeCount - 1 && |a.files| < p.blockSize / 44 then
      GetsHandle(p, a, a.files[name := []], name, 0, a1, ret)
    else ret == -1 && a1 == a
  }

  lemma OpenAtGetsHandle(d: Disk, used: nat, a: M.Fs, files: map<cstring, seq<byte>>, name: cstring, offset: nat)
    requires Shows(d, used, a)
    ensures var r := M.OpenAt(a.(files := files), name, offset);
      GetsHandle(d.p, a, files, name, offset, r.0, r.1)
  {
    FileProperties.TableFull(d, used, a);
  }

  lemma OpenMeans(d: Disk, used: nat, a: M.Fs, name: cstring, mode: Mode) returns (a1: M.Fs)
    requires Shows(d, used, a) && name != []
    requires name in a.files && mode.trunc && a.files[name] != [] ==>
      forall h :: h in a.handles && a.handles[h].name == name ==> a.handles[h].offset == 0
    ensures var o := Ops.Open(d, Under(name), mode);
      o.Done? && Shows(o.value.0, MarkAfter(o.value.0, used), a1) && Opens(d.p, a, name, mode, a1, o.value.1)
  {
    NameOfPath(name);
    OpenSimulates(d, used, a, Under(name), mode);
    a1 := M.Open(a, Under(name), mode).0;
    if name in a.files {
      var content := if mode.trunc then [] else a.files[name];
      OpenAtGetsHandle(d, used, a, a.files[name := content], name, if mode.append then |content| else 0);
    } else {
      OpenAtGetsHandle(d, used, a, a.files[name := []], name, 0);
    }
  }

  // ----- tfs_unlink -----

  /**
   From every valid state, open files included, `tfs_unlink` returns 0 exactly when there is
   a file of that name, and takes exactly that name out of the directory.
   */
  lemma UnlinkMeans(d: Disk, used: nat, a: M.Fs, name: cstring)
    requires Shows(d, used, a) && name != []
    ensures var o := Ops.Unlink(d, Under(name));
      && o.Done?
      && (name !in a.files ==> o.value == (d, -1))
      && (name in a.files ==> o.value.1 == 0 && RootOk(o.value.0) && Entries(o.value.0) == Entries(d) - {name})
  {
    NameOfPath(name);
    if name in a.files {
      Discipline.UnlinkingIs(d, used, a, Under(name));
      Directory.ClearIsRemove(RootBlock(d), used, name);
      Discipline.UnlinkedRoot(d, used, a, name, Directory.Clear(RootBlock(d), name).value);
    } else {
      LookupShows(d, used, a, Under(name));
    }
  }

  /** The same for any path, without the effect. */
  lemma UnlinkReturns(d: Disk, used: nat, a: M.Fs, path: Path)
    requires Shows(d, used, a)
    ensures NoPath(path) ==> Ops.Unlink(d, path) == Done((d, -1))
    ensures !NoPath(path) ==>
      var o := Ops.Unlink(d, path);
      o.Done? && o.value.1 == if path.s[1..] in a.files then 0 else -1
  {
    PathCases(path);
    if NoPath(path) {
      NoPathIsRejected(d, used, a, path, Mode(false, false, false));
    } else {
      UnlinkMeans(d, used, a, path.s[1..]);
    }
  }

  lemma RemoveAbsent(files: map<cstring, seq<byte>>, name: cstring)
    requires name !in files
    ensures files - {name} == files
  {
  }

  /** When the file is not open, the client loses that file and nothing else. */
  lemma UnlinkTakesFile(d: Disk, used: nat, a: M.Fs, name: cstring)
    requires Shows(d, used, a) && name != []
    requires forall h :: h in a.handles ==> a.handles[h].name != name
    ensures var o := Ops.Unlink(d, Under(name));
      o.Done? && Shows(o.value.0, used, a.(files := a.files - {name}))
  {
    NameOfPath(name);
    UnlinkSimulates(d, used, a, Under(name));
    if name !in a.files {
      RemoveAbsent(a.files, name);
    }
  }

  // ----- tfs_close -----

  /** 0 for an open handle, which goes; nothing else a client sees changes. */
  lemma CloseMeans(d: Disk, used: nat, a: M.Fs, h: nat)
    requires Shows(d, used, a) && h in a.handles
    ensures var o := Ops.Close(d, h);
      o.Done? && o.value.1 == 0 && Shows(o.value.0, used, a.(handles := a.handles - {h}))
  {
    CloseShows(d, used, a, h);
  }

  // ----- tfs_write -----

  /** The bytes of `buf` from `offset` on, the old bytes elsewhere. */
  predicate Overwritten(content: seq<byte>, offset: nat, buf: seq<byte>, n: nat, result: seq<byte>)
    requires offset <= |content| && n <= |buf|
  {
    && |result| == (if |content| <= offset + n then offset + n else |content|)
    && forall i :: 0 <= i < |result| ==> result[i] == if offset <= i < offset + n then buf[i - offset] else content[i]
  }

  /** `tfs_write` of `buf` through handle `h` makes `a` into `a1` and returns `ret`. */
  predicate Writes(p: Params, a: M.Fs, h: nat, buf: seq<byte>, a1: M.Fs, ret: int)
    requires h in a.handles
  {
    var name, offset := a.handles[h].name, a.handles[h].offset;
    && name in a.files && offset <= |a.files[name]| && offset <= p.blockSize
    && var n := if |buf| <= p.blockSize - offset then |buf| else p.blockSize - offset;
    if n == 0 then ret == 0 && a1 == a
    else if a.files[name] == [] && |M.NonEmpty(a.files)| == p.blockCount - 1 then ret == -1 && a1 == a
    else
      && ret == n && name in a1.files
      && Overwritten(a.files[name], offset, buf, n, a1.files[name])
      && a1 == a.(files := a.files[name := a1.files[name]], handles := a.handles[h := M.Handle(name, offset + n)])
  }

  lemma SpliceOverwrites(content: seq<byte>, offset: nat, buf: seq<byte>, n: nat)
    requires offset <= |content| && n <= |buf|
    ensures Overwritten(content, offset, buf, n, M.Splice(content, offset, buf[..n]))
  {
  }

  lemma ModelWrites(p: Params, a: M.Fs, h: nat, buf: seq<byte>)
    requires M.Usable(a, h) && a.lim.size == p.blockSize && a.lim.nonEmpty == p.blockCount - 1
    requires |M.NonEmpty(a.files)| <= p.blockCount - 1
    requires a.handles[h].offset <= |a.files[a.handles[h].name]| <= p.blockSize
    ensures Writes(p, a, h, buf, M.Write(a, h, buf).0, M.Write(a, h, buf).1)
  {
    var name, offset := a.handles[h].name, a.handles[h].offset;
    var n := Min(|buf|, p.blockSize - offset);
    SpliceOverwrites(a.files[name], offset, buf, n);
    assert |buf[..n]| == n;
  }

  lemma WriteMeans(d: Disk, used: nat, a: M.Fs, h: nat, buf: buffer) returns (a1: M.Fs)
    requires Shows(d, used, a) && h in a.handles && |buf| + a.handles[h].offset < 0x1_0000_0000_0000_0000
    ensures var o := Ops.Write(d, h, buf);
      o.Done? && Shows(o.value.0, used, a1) && Writes(d.p, a, h, buf, a1, o.value.1)
  {
    a1 := M.Write(a, h, buf).0;
    WriteSimulates(d, used, a, h, buf);
    HandleFacts(d, used, a, h);
    FileInode(d, used, a, a.handles[h].name);
    BlocksByCount(d, used, a.files);
    ModelWrites(d.p, a, h, buf);
  }

  // ----- tfs_read -----

  /** `tfs_read` of `len` bytes through handle `h` makes `a` into `a1` and returns `reply`. */
  predicate Reads(a: M.Fs, h: nat, len: nat, a1: M.Fs, reply: Reply)
    requires h in a.handles
  {
    var name, offset := a.handles[h].name, a.handles[h].offset;
    && name in a.files && offset <= |a.files[name]|
    && var n := if len <= |a.files[name]| - offset then len else |a.files[name]| - offset;
    && reply == Reply(n, a.files[name][offset..offset + n])
    && a1 == a.(handles := a.handles[h := M.Handle(name, offset + n)])
  }

  lemma ModelReads(a: M.Fs, h: nat, len: nat)
    requires M.Usable(a, h) && a.handles[h].offset <= |a.files[a.handles[h].name]|
    ensures Reads(a, h, len, M.Read(a, h, len).0, M.Read(a, h, len).1)
  {
    assert a.handles[h := a.handles[h]] == a.handles;
  }

  lemma ReadMeans(d: Disk, used: nat, a: M.Fs, h: nat, len: size_t) returns (a1: M.Fs)
    requires Shows(d, used, a) && h in a.handles
    ensures var o := Ops.Read(d, h, len);
      o.Done? && Shows(o.value.0, used, a1) && Reads(a, h, len, a1, o.value.1)
  {
    a1 := M.Read(a, h, len).0;
    ReadSimulates(d, used, a, h, len);
    HandleFacts(d, used, a, h);
    ModelReads(a, h, len);
  }

  /** Every call on a number that is not an open handle returns -1 and changes nothing. */
  lemma NoHandleIsRejected(d: Disk, used: nat, a: M.Fs, h: int, buf: buffer, len: size_t)
    requires Shows(d, used, a) && h !in a.handles
    ensures Ops.Close(d, h) == Done((d, -1))
    ensures Ops.Write(d, h, buf) == Done((d, -1))
    ensures Ops.Read(d, h, len) == Done((d, Reply(-1, [])))
  {
    OpenHandles(d, used, a, h);
  }
}
