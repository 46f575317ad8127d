/**
 fs/state.c and fs/operations.c as they are written: loops over allocation tables, a flat
 byte array updated in place, and a library mutex taken and released by every call.
 `Value()` is the state as a value; every method is proved to have on it the effect that
 `Disk` and `Operations` give its function.
 */
module FileSystem {
  import opened Bytes
  import opened CString
  import opened Counting
  import opened Disk
  import D = Disk
  import opened Calls
  import opened DiskInvariant
  import opened NameSimulation
  import Directory
  import Discipline
  import CallMeaning
  import Ops = Operations
  import M = FileModel
  import Refinement

  class FileSystem {
    const p: Params
    const inodeTable: array<Inode>
    const inodeTaken: array<bool>
    const fsData: array<byte>
    const blockTaken: array<bool>
    const openFileTable: array<OpenFile>
    const openTaken: array<bool>

    /** Whether `g_library_mutex` is held. */
    var locked: bool

    /** High-water mark of the root directory. */
    ghost var used: nat

    /** The tables are separate and have the sizes given by the parameters. */
    ghost predicate Separate() {
      && inodeTable.Length == inodeTaken.Length == p.inodeCount
      && fsData.Length == MemorySize(p)
      && blockTaken.Length == p.blockCount
      && openFileTable.Length == openTaken.Length == p.openCount
      && p.inodeCount < INT_LIMIT && p.blockCount < INT_LIMIT && p.openCount < INT_LIMIT
      && inodeTaken != blockTaken && inodeTaken != openTaken && blockTaken != openTaken
    }

    ghost function Value(): Disk
      requires Separate()
      reads inodeTable, inodeTaken, fsData, blockTaken, openFileTable, openTaken
    {
      Disk(p, inodeTable[..], inodeTaken[..], fsData[..], blockTaken[..], openFileTable[..], openTaken[..])
    }

    ghost predicate Valid()
      reads this, inodeTable, inodeTaken, fsData, blockTaken, openFileTable, openTaken
    {
      Separate() && Inv(Value(), used)
    }

    /** What a client sees. */
    ghost function View(): (a: M.Fs)
      requires Valid()
      reads this, inodeTable, inodeTaken, fsData, blockTaken, openFileTable, openTaken
      ensures Shows(Value(), used, a)
    {
      DiskInvariant.View(Value(), used)
    }

    // ----- memory -----

    /** `memcpy`, `memset` or `strncpy` of known bytes to address `at`. */
    method CopyBytes(at: nat, bytes: seq<byte>)
      requires Separate() && at + |bytes| <= fsData.Length
      modifies fsData
      ensures Value() == old(Value()).(data := Put(old(fsData[..]), at, bytes))
    {
      var i := 0;
      while i < |bytes|
        invariant 0 <= i <= |bytes|
        invariant forall j :: 0 <= j < fsData.Length ==>
          fsData[j] == if at <= j < at + i then bytes[j - at] else old(fsData[j])
      {
        fsData[at + i] := bytes[i];
        i := i + 1;
      }
      assert fsData[..] == Put(old(fsData[..]), at, bytes);
    }

    /** `memcpy` of `n` bytes from address `at`. */
    method ReadBytes(at: nat, n: nat) returns (bytes: seq<byte>)
      requires Separate() && at + n <= fsData.Length
      ensures bytes == fsData[at..][..n]
    {
      bytes := [];
      var i := 0;
      while i < n
        invariant 0 <= i <= n
        invariant bytes == fsData[at..at + i]
      {
        bytes := bytes + [fsData[at + i]];
        i := i + 1;
      }
    }

    /** `strncmp(&fs_data[at], name, 40) == 0` */
    method StrncmpIsZero(at: nat, name: cstring) returns (same: bool)
      requires Separate() && at + MAX_FILE_NAME <= fsData.Length
      ensures same == StrncmpZero(fsData[at..at + MAX_FILE_NAME], Memory(name), MAX_FILE_NAME)
    {
      ghost var field, query := fsData[at..at + MAX_FILE_NAME], Memory(name);
      var j := 0;
      while j < MAX_FILE_NAME
        invariant 0 <= j <= MAX_FILE_NAME && j <= |name|
        invariant StrncmpZero(field, query, MAX_FILE_NAME) == StrncmpZero(field[j..], query[j..], MAX_FILE_NAME - j)
      {
        var c := fsData[at + j];
        var d := if j < |name| then name[j] else 0;
        assert field[j..][0] == c && query[j..][0] == d;
        assert field[j..][1..] == field[j + 1..] && query[j..][1..] == query[j + 1..];
        if c != d {
          return false;
        }
        if c == 0 {
          return true;
        }
        assert j < |name|;
        j := j + 1;
      }
      return true;
    }

    /**
     `strcmp(&fs_data[at], name) == 0`.  The string at `at` is terminated before `limit`,
     so the comparison stops there.
     */
    method StrcmpIsZero(at: nat, limit: nat, name: cstring) returns (same: bool)
      requires Separate() && at <= limit <= fsData.Length && Terminated(fsData[at..limit])
      ensures same == StrcmpZero(fsData[at..limit], Memory(name))
    {
      ghost var text, query := fsData[at..limit], Memory(name);
      var j := 0;
      while true
        invariant 0 <= j <= |name| && j <= Nul(text)
        invariant StrcmpZero(text, query) == StrcmpZero(text[j..], query[j..])
        decreases Nul(text) - j
      {
        var c := fsData[at + j];
        var d := if j < |name| then name[j] else 0;
        assert text[j..][0] == c && query[j..][0] == d;
        assert text[j..][1..] == text[j + 1..] && query[j..][1..] == query[j + 1..];
        if c != d {
          return false;
        }
        if c == 0 {
          return true;
        }
        assert j < |name|;
        j := j + 1;
      }
    }

    // ----- allocators -----

    /** `inode_alloc` */
    method InodeAlloc() returns (k: int)
      requires Separate()
      modifies inodeTaken
      ensures var i := FirstFree(old(inodeTaken[..]));
        if i == p.inodeCount then k == -1 && Value() == old(Value())
        else k == i && Value() == old(Value()).(inodeTaken := old(inodeTaken[..])[i := true])
    {
      var i := 0;
      while i < inodeTaken.Length
        invariant 0 <= i <= inodeTaken.Length && inodeTaken[..] == old(inodeTaken[..])
        invariant FirstFree(inodeTaken[..]) == FirstFree(inodeTaken[..], i)
      {
        if !inodeTaken[i] {
          inodeTaken[i] := true;
          return i;
        }
        i := i + 1;
      }
      return -1;
    }

    /** `data_block_alloc` */
    method DataBlockAlloc() returns (b: int)
      requires Separate()
      modifies blockTaken
      ensures (Value(), b) == BlockAlloc(old(Value()))
    {
      var i := 0;
      while i < blockTaken.Length
        invariant 0 <= i <= blockTaken.Length && blockTaken[..] == old(blockTaken[..])
        invariant FirstFree(blockTaken[..]) == FirstFree(blockTaken[..], i)
      {
        if !blockTaken[i] {
          blockTaken[i] := true;
          return i;
        }
        i := i + 1;
      }
      return -1;
    }

    /** `data_block_free` */
    method DataBlockFree(b: int)
      requires Separate() && BlockFree(Value(), b).Done?
      modifies blockTaken
      ensures Value() == BlockFree(old(Value()), b).value
    {
      assert 0 <= b < p.blockCount;
      blockTaken[b] := false;
    }

    /** `data_block_get`: the address of block `b`. */
    method DataBlockGet(b: int) returns (at: nat)
      requires Separate() && ValidBlock(Value(), b)
      ensures at == Start(p, b) && at + p.blockSize <= fsData.Length
    {
      BlockInside(p, b);
      StartIs(p, b);
      at := b * p.blockSize;
    }

    /** `add_to_open_file_table` */
    method AddToOpenFileTable(k: int, offset: nat) returns (h: int)
      requires Separate()
      modifies openFileTable, openTaken
      ensures (Value(), h) == AddToTable(old(Value()), k, offset)
    {
      var i := 0;
      while i < openTaken.Length
        invariant 0 <= i <= openTaken.Length
        invariant openTaken[..] == old(openTaken[..]) && openFileTable[..] == old(openFileTable[..])
        invariant FirstFree(openTaken[..]) == FirstFree(openTaken[..], i)
      {
        if !openTaken[i] {
          openTaken[i] := true;
          openFileTable[i] := OpenFile(k, offset);
          return i;
        }
        i := i + 1;
      }
      return -1;
    }

    /** `remove_from_open_file_table` */
    method RemoveFromOpenFileTable(h: int)
      requires Separate() && RemoveFromTable(Value(), h).Done?
      modifies openTaken
      ensures Value() == RemoveFromTable(old(Value()), h).value
    {
      assert 0 <= h < p.openCount && openTaken[h];
      openTaken[h] := false;
    }

    /** `get_open_file_entry(h) != NULL` */
    method HasOpenFileEntry(h: int) returns (b: bool)
      requires Separate()
      ensures b == IsOpen(Value(), h)
    {
      b := 0 <= h < p.openCount && openTaken[h];
    }

    // ----- the directory -----

    /** Bytes `[at, at + |bytes|)` of block `b` replaced. */
    method CopyIntoBlock(b: nat, at: nat, bytes: seq<byte>)
      requires Separate() && b < p.blockCount && at + |bytes| <= p.blockSize
      modifies fsData
      ensures Value() == PutBlock(old(Value()), b, at, bytes)
    {
      var base := DataBlockGet(b);
      CopyBytes(base + at, bytes);
    }

    /** `dir_entry[i].d_inumber` in block `b`. */
    method ReadInumber(b: nat, i: nat) returns (k: int)
      requires Separate() && b < p.blockCount && i < p.blockSize / Directory.ENTRY_SIZE
      ensures k == Directory.Inum(Block(Value(), b), i)
    {
      var base := DataBlockGet(b);
      var at := base + Directory.ENTRY_SIZE * i + MAX_FILE_NAME;
      assert Block(Value(), b)[Directory.ENTRY_SIZE * i + MAX_FILE_NAME..Directory.ENTRY_SIZE * i + Directory.ENTRY_SIZE]
          == fsData[at..at + 4];
      k := DecodeInt([fsData[at], fsData[at + 1], fsData[at + 2], fsData[at + 3]]);
      assert fsData[at..at + 4] == [fsData[at], fsData[at + 1], fsData[at + 2], fsData[at + 3]];
    }

    /** Whether the bounded comparison accepts the name of `dir_entry[i]` in block `b`. */
    method NameMatches(b: nat, i: nat, name: cstring) returns (same: bool)
      requires Separate() && b < p.blockCount && i < p.blockSize / Directory.ENTRY_SIZE
      ensures same == StrncmpZero(Directory.Field(Block(Value(), b), i), Memory(name), MAX_FILE_NAME)
    {
      var base := DataBlockGet(b);
      var at := base + Directory.ENTRY_SIZE * i;
      same := StrncmpIsZero(at, name);
      assert Directory.Field(Block(Value(), b), i) == fsData[at..at + MAX_FILE_NAME];
    }

    /** Whether the unbounded comparison accepts it; the name is terminated inside its field. */
    method TextMatches(b: nat, i: nat, name: cstring) returns (same: bool)
      requires Separate() && b < p.blockCount && i < p.blockSize / Directory.ENTRY_SIZE
      requires Terminated(Directory.Field(Block(Value(), b), i))
      ensures same == StrcmpZero(Block(Value(), b)[Directory.ENTRY_SIZE * i..], Memory(name))
    {
      var base := DataBlockGet(b);
      var at := base + Directory.ENTRY_SIZE * i;
      ghost var rest := Block(Value(), b)[Directory.ENTRY_SIZE * i..];
      assert rest == fsData[at..base + p.blockSize];
      assert rest[..MAX_FILE_NAME] == Directory.Field(Block(Value(), b), i);
      NameOfPrefix(rest, MAX_FILE_NAME);
      same := StrcmpIsZero(at, base + p.blockSize, name);
    }

    /** `find_in_dir` */
    method FindInDir(dir: Inode, name: cstring) returns (k: int)
      requires Separate() && D.FindInDir(Value(), dir, name).Done?
      ensures Done(k) == D.FindInDir(Value(), dir, name)
    {
      if dir.kind != TDirectory {
        return -1;
      }
      ghost var blk := Block(Value(), dir.block);
      var i := 0;
      while i < p.blockSize / Directory.ENTRY_SIZE
        invariant 0 <= i <= Directory.MaxEntries(blk)
        invariant Directory.FindSlot(blk, name) == Directory.FindSlot(blk, name, i)
      {
        k := ReadInumber(dir.block, i);
        if k != -1 {
          var same := NameMatches(dir.block, i, name);
          if same {
            return k;
          }
        }
        i := i + 1;
      }
      return -1;
    }

    /** `add_dir_entry` */
    method AddDirEntry(dir: Inode, name: cstring, k: nat) returns (r: int)
      requires Separate() && k < INT_LIMIT && D.AddDirEntry(Value(), dir, name, k).Done?
      modifies fsData
      ensures Done((Value(), r)) == D.AddDirEntry(old(Value()), dir, name, k)
    {
      if |name| == 0 || |name| > MAX_FILE_NAME - 1 {
        return -1;
      }
      if dir.kind != TDirectory {
        return -1;
      }
      ghost var d, blk := Value(), Block(Value(), dir.block);
      var i := 0;
      while i < p.blockSize / Directory.ENTRY_SIZE
        invariant 0 <= i <= Directory.MaxEntries(blk) && Value() == d
        invariant Directory.FreeSlot(blk) == Directory.FreeSlot(blk, i)
      {
        var inumber := ReadInumber(dir.block, i);
        if inumber == -1 {
          FillSlot(dir.block, i, name, k);
          return 0;
        }
        i := i + 1;
      }
      return -1;
    }

    /** The stores of `add_dir_entry` into the free slot it found: the inumber, 39 bytes of name, a NUL. */
    method FillSlot(b: nat, i: nat, name: cstring, k: int)
      requires Separate() && b < p.blockCount && i < p.blockSize / Directory.ENTRY_SIZE && -INT_LIMIT <= k < INT_LIMIT
      modifies fsData
      ensures var blk := Block(old(Value()), b);
        Value() == PutBlock(old(Value()), b, 0, Directory.SetField(Directory.SetInum(blk, i, k), i, NameField(name)))
    {
      ghost var d, blk, blk1 := Value(), Block(Value(), b), Directory.SetInum(Block(Value(), b), i, k);
      var at := Directory.ENTRY_SIZE * i;
      PutBlockSame(d, b);
      PutBlockTwice(d, b, blk, at + MAX_FILE_NAME, EncodeInt(k));
      CopyIntoBlock(b, at + MAX_FILE_NAME, EncodeInt(k));
      var padded := NameField(name)[..MAX_FILE_NAME - 1];
      PutBlockTwice(d, b, blk1, at, padded);
      CopyIntoBlock(b, at, padded);
      PutBlockTwice(d, b, Put(blk1, at, padded), at + MAX_FILE_NAME - 1, [0]);
      CopyIntoBlock(b, at + MAX_FILE_NAME - 1, [0]);
      PutAdjacent(blk1, at, padded, [0]);
      assert padded + [0] == NameField(name);
    }

    /**
     `clear_dir_entry`, called with a name that is in the directory.  Every name compared on
     the way is terminated, so the comparison stays inside that name's field.
     */
    method ClearDirEntry(dir: Inode, name: cstring) returns (r: int)
      requires Separate() && dir.kind == TDirectory && ValidBlock(Value(), dir.block)
      requires var blk := Block(Value(), dir.block);
        var k := Directory.ClearSlot(blk, name);
        k < Directory.MaxEntries(blk) && forall i :: 0 <= i <= k ==> Terminated(Directory.Field(blk, i))
      modifies fsData
      ensures Done((Value(), r)) == D.ClearDirEntry(old(Value()), dir, name)
    {
      ghost var d, blk := Value(), Block(Value(), dir.block);
      var i := 0;
      while i < p.blockSize / Directory.ENTRY_SIZE
        invariant 0 <= i <= Directory.ClearSlot(blk, name) && Value() == d
        invariant Directory.ClearSlot(blk, name) == Directory.ClearSlot(blk, name, i)
      {
        assert Terminated(Directory.Field(blk, i));
        var same := TextMatches(dir.block, i, name);
        if same {
          EmptySlot(dir.block, i);
          return 0;
        }
        i := i + 1;
      }
      return -1;
    }

    /** The stores of `clear_dir_entry` into the slot it found: inumber -1 and 40 NULs. */
    method EmptySlot(b: nat, i: nat)
      requires Separate() && b < p.blockCount && i < p.blockSize / Directory.ENTRY_SIZE
      modifies fsData
      ensures var blk := Block(old(Value()), b);
        Value() == PutBlock(old(Value()), b, 0, Directory.SetField(Directory.SetInum(blk, i, -1), i, Zeros(MAX_FILE_NAME)))
    {
      ghost var d, blk := Value(), Block(Value(), b);
      var at := Directory.ENTRY_SIZE * i;
      PutBlockSame(d, b);
      PutBlockTwice(d, b, blk, at + MAX_FILE_NAME, EncodeInt(-1));
      CopyIntoBlock(b, at + MAX_FILE_NAME, EncodeInt(-1));
      PutBlockTwice(d, b, Directory.SetInum(blk, i, -1), at, Zeros(MAX_FILE_NAME));
      CopyIntoBlock(b, at, Zeros(MAX_FILE_NAME));
    }

    // ----- inodes -----

    /** `inode_delete` */
    method InodeDelete(k: int)
      requires Separate() && D.InodeDelete(Value(), k).Done?
      modifies inodeTaken, blockTaken
      ensures Done(Value()) == D.InodeDelete(old(Value()), k)
    {
      assert 0 <= k < p.inodeCount && inodeTaken[k];
      if inodeTable[k].size > 0 {
        DataBlockFree(inodeTable[k].block);
      }
      inodeTaken[k] := false;
    }

    /** The loop of `inode_create` over the entries of a new directory: only inumbers are set. */
    method MarkEntriesFree(b: nat)
      requires Separate() && b < p.blockCount
      modifies fsData
      ensures Value() == PutBlock(old(Value()), b, 0, Directory.Fresh(Block(old(Value()), b)))
    {
      ghost var d, blk := Value(), Block(Value(), b);
      PutBlockSame(d, b);
      var i := 0;
      while i < p.blockSize / Directory.ENTRY_SIZE
        invariant 0 <= i <= Directory.MaxEntries(blk) && |blk| == p.blockSize
        invariant Value() == PutBlock(d, b, 0, blk)
        invariant Directory.Fresh(Block(d, b)) == Directory.Fresh(blk, i)
      {
        var at := Directory.ENTRY_SIZE * i + MAX_FILE_NAME;
        PutBlockTwice(d, b, blk, at, EncodeInt(-1));
        CopyIntoBlock(b, at, EncodeInt(-1));
        blk := Directory.SetInum(blk, i, -1);
        i := i + 1;
      }
    }

    /** `inode_create` */
    method InodeCreate(kind: InodeType) returns (k: int)
      requires Separate() && D.InodeCreate(Value(), kind).Done?
      modifies inodeTable, inodeTaken, blockTaken, fsData
      ensures Done((Value(), k)) == D.InodeCreate(old(Value()), kind)
    {
      k := InodeAlloc();
      if k == -1 {
        return;
      }
      inodeTable[k] := inodeTable[k].(kind := kind);
      ghost var inodes := old(inodeTable[..]);
      match kind {
        case TDirectory =>
          var b := DataBlockAlloc();
          if b == -1 {
            inodeTable[k] := inodeTable[k].(size := 0, block := -1);
            assert inodeTable[..] == inodes[k := Inode(kind, 0, -1)];
            InodeDelete(k);
            return -1;
          }
          inodeTable[k] := inodeTable[k].(size := p.blockSize, block := b);
          assert inodeTable[..] == inodes[k := Inode(kind, p.blockSize, b)];
          MarkEntriesFree(b);
        case TFile =>
          inodeTable[k] := inodeTable[k].(size := 0, block := -1);
          assert inodeTable[..] == inodes[k := Inode(kind, 0, -1)];
      }
    }

    // ----- the library mutex -----

    /** `pthread_mutex_lock(&g_library_mutex)` */
    method Lock()
      requires !locked
      modifies `locked
      ensures locked
    {
      locked := true;
    }

    /** `pthread_mutex_unlock(&g_library_mutex)`: only by the call that holds it. */
    method Unlock()
      requires locked
      modifies `locked
      ensures !locked
    {
      locked := false;
    }

    // ----- tfs_init -----

    /** `tfs_init`: whatever the fresh memory holds, the client sees an empty file system. */
    constructor (params: Params)
      requires ParamsOk(params)
      ensures Valid() && !locked && p == params
      ensures View() == M.Empty(Refinement.LimitsOf(params))
    {
      p := params;
      inodeTable := new Inode[params.inodeCount];
      inodeTaken := new bool[params.inodeCount];
      StartIs(params, params.blockCount);
      fsData := new byte[params.blockCount * params.blockSize];
      blockTaken := new bool[params.blockCount];
      openFileTable := new OpenFile[params.openCount];
      openTaken := new bool[params.openCount];
      locked := false;
      used := 0;
      new;
      FreeEverything();
      ghost var d := Value();
      Discipline.InitConclusion(d.p, d.inodes, d.data, d.table);
      var root := InodeCreate(TDirectory);
      assert root == Ops.ROOT_DIR_INUM;
    }

    /** The loops of `state_init`. */
    method FreeEverything()
      requires Separate()
      modifies inodeTaken, blockTaken, openTaken
      ensures var d := old(Value()); Value() == D.StateInit(d.p, d.inodes, d.data, d.table)
    {
      SetFree(inodeTaken);
      SetFree(blockTaken);
      SetFree(openTaken);
    }

    /** One of the loops of `state_init`. */
    static method SetFree(taken: array<bool>)
      modifies taken
      ensures taken[..] == seq(taken.Length, _ => false)
    {
      var i := 0;
      while i < taken.Length
        invariant 0 <= i <= taken.Length
        invariant forall j :: 0 <= j < i ==> !taken[j]
      {
        taken[i] := false;
        i := i + 1;
      }
    }

    // ----- tfs_open -----

    /**
     `tfs_open`.  The invariant survives exactly when no handle of a truncated file is past
     its start; then the client sees what the model says.
     */
    method Open(path: Path, mode: Mode) returns (ret: int)
      requires Valid() && !locked
      modifies this, inodeTable, inodeTaken, fsData, blockTaken, openFileTable, openTaken
      ensures !locked && Separate()
      ensures Done((Value(), ret)) == Ops.Open(old(Value()), path, mode)
      ensures Discipline.Sound(Value()) <==> M.Allowed(old(View()), Call.Open(path, mode))
      ensures M.Allowed(old(View()), Call.Open(path, mode)) ==>
        Valid() && (View(), ret) == M.Open(old(View()), path, mode)
      ensures CallMeaning.NoPath(path) ==> ret == -1 && Value() == old(Value())
    {
      ghost var d, a := Value(), View();
      Discipline.OpenNeverCrashes(d, used, a, path, mode);
      if CallMeaning.NoPath(path) {
        CallMeaning.NoPathIsRejected(d, used, a, path, mode);
      }
      ret := OpenLocked(path, mode);
      Discipline.OpenConclusion(d, used, a, path, mode);
      used := MarkAfter(Value(), used);
      if M.Allowed(a, Call.Open(path, mode)) {
        ViewUnique(Value(), used, M.Open(a, path, mode).0);
      }
    }

    /** The body of `tfs_open`. */
    method OpenLocked(path: Path, mode: Mode) returns (ret: int)
      requires Separate() && !locked && Ops.Open(Value(), path, mode).Done? && 0 < p.inodeCount
      modifies `locked, inodeTable, inodeTaken, fsData, blockTaken, openFileTable, openTaken
      ensures !locked
      ensures Done((Value(), ret)) == Ops.Open(old(Value()), path, mode)
    {
      Lock();
      if !ValidPathname(path) {
        Unlock();
        return -1;
      }
      ghost var d := Value();
      var name := BaseName(path);
      var inum := FindInDir(inodeTable[Ops.ROOT_DIR_INUM], name);
      var offset;
      if inum >= 0 {
        assert Ops.OpenExisting(d, inum, mode).Done?;
        if mode.trunc {
          if inodeTable[inum].size > 0 {
            DataBlockFree(inodeTable[inum].block);
            inodeTable[inum] := inodeTable[inum].(size := 0);
          }
        }
        assert Done(Value()) == Ops.Truncate(d, inum, mode);
        if mode.append {
          offset := inodeTable[inum].size;
        } else {
          offset := 0;
        }
      } else if mode.creat {
        assert Ops.OpenNew(d, name).Done?;
        inum := InodeCreate(TFile);
        if inum == -1 {
          Unlock();
          return -1;
        }
        assert Ops.Link(Value(), name, inum) == Ops.OpenNew(d, name);
        var r := AddDirEntry(inodeTable[Ops.ROOT_DIR_INUM], name, inum);
        if r == -1 {
          InodeDelete(inum);
          Unlock();
          return -1;
        }
        offset := 0;
      } else {
        Unlock();
        return -1;
      }
      ret := AddToOpenFileTable(inum, offset);
      Unlock();
    }

    // ----- tfs_close -----

    method Close(h: int) returns (ret: int)
      requires Valid() && !locked
      modifies `locked, openTaken
      ensures !locked && Valid()
      ensures Done((Value(), ret)) == Ops.Close(old(Value()), h)
      ensures (View(), ret) == M.Close(old(View()), h)
      ensures ret == if h in old(View()).handles then 0 else -1
    {
      ghost var d, a := Value(), View();
      Discipline.CloseConclusion(d, used, a, h);
      ret := CloseLocked(h);
      ViewUnique(Value(), used, M.Close(a, h).0);
    }

    /** The body of `tfs_close`. */
    method CloseLocked(h: int) returns (ret: int)
      requires Separate() && !locked && Ops.Close(Value(), h).Done?
      modifies `locked, openTaken
      ensures !locked
      ensures Done((Value(), ret)) == Ops.Close(old(Value()), h)
    {
      Lock();
      var open := HasOpenFileEntry(h);
      if !open {
        Unlock();
        return -1;
      }
      RemoveFromOpenFileTable(h);
      Unlock();
      return 0;
    }

    // ----- tfs_write -----

    /**
     `tfs_write`.  The sum of the length and the offset must fit in a `size_t`: the copy
     would leave the block memory otherwise.
     */
    method Write(h: int, buf: buffer) returns (ret: int)
      requires Valid() && !locked && M.Allowed(View(), Call.Write(h, buf))
      modifies `locked, inodeTable, fsData, blockTaken, openFileTable
      ensures !locked && Valid()
      ensures Done((Value(), ret)) == Ops.Write(old(Value()), h, buf)
      ensures (View(), ret) == M.Write(old(View()), h, buf)
    {
      ghost var d, a := Value(), View();
      Discipline.WriteConclusion(d, used, a, h, buf);
      ret := WriteLocked(h, buf);
      ViewUnique(Value(), used, M.Write(a, h, buf).0);
    }

    /** The body of `tfs_write`. */
    method WriteLocked(h: int, buf: buffer) returns (ret: int)
      requires Separate() && !locked && Ops.Write(Value(), h, buf).Done?
      modifies `locked, inodeTable, fsData, blockTaken, openFileTable
      ensures !locked
      ensures Done((Value(), ret)) == Ops.Write(old(Value()), h, buf)
    {
      Lock();
      var open := HasOpenFileEntry(h);
      if !open {
        Unlock();
        return -1;
      }
      ghost var d := Value();
      var k := openFileTable[h].inumber;
      var toWrite := |buf|;
      if Wrap(toWrite + openFileTable[h].offset) > p.blockSize {
        toWrite := Wrap(p.blockSize - openFileTable[h].offset);
      }
      assert toWrite == Ops.WriteLength(d, d.table[h].offset, |buf|);
      if toWrite > 0 {
        assert Ops.WriteSome(d, h, buf, toWrite).Done?;
        if inodeTable[k].size == 0 {
          var bnum := DataBlockAlloc();
          if bnum == -1 {
            Unlock();
            return -1;
          }
          inodeTable[k] := inodeTable[k].(block := bnum);
        }
        assert (Value(), 0) == Ops.AllocateFor(d, h);
        StoreBytes(h, buf, toWrite);
      }
      Unlock();
      return toWrite;
    }

    /** The copy of `tfs_write`, and the new offset and size. */
    method StoreBytes(h: int, buf: buffer, n: nat)
      requires Separate() && Ops.OpenOnInode(Value(), h) && Ops.Store(Value(), h, buf, n).Done?
      modifies inodeTable, fsData, openFileTable
      ensures Done((Value(), n as int)) == Ops.Store(old(Value()), h, buf, n)
    {
      var k := openFileTable[h].inumber;
      assert Ops.CopyIn(Value(), h, buf, n).Done?;
      var block := DataBlockGet(inodeTable[k].block);
      CopyBytes(block + openFileTable[h].offset, buf[..n]);
      openFileTable[h] := openFileTable[h].(offset := openFileTable[h].offset + n);
      if openFileTable[h].offset > inodeTable[k].size {
        inodeTable[k] := inodeTable[k].(size := openFileTable[h].offset);
      }
    }

    // ----- tfs_read -----

    method Read(h: int, len: size_t) returns (ret: Reply)
      requires Valid() && !locked
      modifies `locked, openFileTable
      ensures !locked && Valid()
      ensures Done((Value(), ret)) == Ops.Read(old(Value()), h, len)
      ensures (View(), ret) == M.Read(old(View()), h, len)
    {
      ghost var d, a := Value(), View();
      Discipline.ReadConclusion(d, used, a, h, len);
      ret := ReadLocked(h, len);
      ViewUnique(Value(), used, M.Read(a, h, len).0);
    }

    /** The body of `tfs_read`. */
    method ReadLocked(h: int, len: size_t) returns (ret: Reply)
      requires Separate() && !locked && Ops.Read(Value(), h, len).Done?
      modifies `locked, openFileTable
      ensures !locked
      ensures Done((Value(), ret)) == Ops.Read(old(Value()), h, len)
    {
      Lock();
      var open := HasOpenFileEntry(h);
      if !open {
        Unlock();
        return Reply(-1, []);
      }
      ghost var d := Value();
      var k, offset := openFileTable[h].inumber, openFileTable[h].offset;
      var toRead := Wrap(inodeTable[k].size - offset);
      if toRead > len {
        toRead := len;
      }
      assert toRead == Ops.ReadLength(d, h, len);
      var bytes := [];
      if toRead > 0 {
        assert Ops.CopyOut(d, h, toRead).Done?;
        var block := DataBlockGet(inodeTable[k].block);
        bytes := ReadBytes(block + offset, toRead);
        openFileTable[h] := openFileTable[h].(offset := offset + toRead);
      }
      Unlock();
      return Reply(toRead, bytes);
    }

    // ----- tfs_unlink -----

    /**
     `tfs_unlink`.  The invariant survives exactly when the file is not open; then the
     client sees what the model says.
     */
    method Unlink(path: Path) returns (ret: int)
      requires Valid() && !locked
      modifies this, inodeTaken, fsData, blockTaken
      ensures !locked && Separate()
      ensures Done((Value(), ret)) == Ops.Unlink(old(Value()), path)
      ensures Discipline.Sound(Value()) <==> M.Allowed(old(View()), Call.Unlink(path))
      ensures M.Allowed(old(View()), Call.Unlink(path)) ==>
        Valid() && (View(), ret) == M.Unlink(old(View()), path)
      ensures CallMeaning.NoPath(path) ==> ret == -1 && Value() == old(Value())
      ensures !CallMeaning.NoPath(path) ==> ret == if path.s[1..] in old(View()).files then 0 else -1
    {
      ghost var d, a := Value(), View();
      Discipline.UnlinkConclusion(d, used, a, path);
      CallMeaning.UnlinkReturns(d, used, a, path);
      ret := UnlinkLocked(path);
      if M.Allowed(a, Call.Unlink(path)) {
        ViewUnique(Value(), used, M.Unlink(a, path).0);
      }
    }

    /** The body of `tfs_unlink`. */
    method UnlinkLocked(path: Path) returns (ret: int)
      requires Separate() && !locked && Discipline.UnlinkSafe(Value(), path)
      modifies `locked, inodeTaken, fsData, blockTaken
      ensures !locked
      ensures Done((Value(), ret)) == Ops.Unlink(old(Value()), path)
    {
      Lock();
      if !ValidPathname(path) {
        Unlock();
        return -1;
      }
      ghost var d := Value();
      var name := BaseName(path);
      var inum := FindInDir(inodeTable[Ops.ROOT_DIR_INUM], name);
      if inum == -1 {
        Unlock();
        return -1;
      }
      InodeDelete(inum);
      assert Block(Value(), d.inodes[0].block) == Block(d, d.inodes[0].block);
      var r := ClearDirEntry(inodeTable[Ops.ROOT_DIR_INUM], name);
      ret := if r == -1 then -1 else 0;
      Unlock();
    }
  }
}
