/**
 The file system a client sees: named byte sequences, handles with offsets, and numeric
 limits.  No inodes, no blocks, no directory slots.
 */
module FileModel {
  import opened Bytes
  import opened CString
  import opened Calls
  import opened Counting

  /** How many files, directory entries, non-empty files and handles there can be, and the largest file. */
  datatype Limits = Limits(files: nat, entries: nat, nonEmpty: nat, handles: nat, size: nat)

  datatype Handle = Handle(name: cstring, offset: nat)

  datatype Fs = Fs(lim: Limits, files: map<cstring, seq<byte>>, handles: map<nat, Handle>)

  /** A new file system. */
  function Empty(lim: Limits): Fs {
    Fs(lim, map[], map[])
  }

  function NonEmpty(files: map<cstring, seq<byte>>): (s: set<cstring>)
    ensures forall n :: n in s <==> n in files && files[n] != []
  {
    set n | n in files && files[n] != []
  }

  // ----- open -----

  predicate CanCreate(a: Fs, name: cstring) {
    |name| <= MAX_FILE_NAME - 1 && |a.files| < a.lim.files && |a.files| < a.lim.entries
  }

  /** A handle at `offset` in file `name`: the lowest free number, if any. */
  function OpenAt(a: Fs, name: cstring, offset: nat): (Fs, int) {
    var h: int := Lowest(a.handles.Keys, a.lim.handles);
    if h == a.lim.handles then (a, -1) else (a.(handles := a.handles[h := Handle(name, offset)]), h)
  }

  function OpenExisting(a: Fs, name: cstring, mode: Mode): (Fs, int)
    requires name in a.files
  {
    var content := if mode.trunc then [] else a.files[name];
    OpenAt(a.(files := a.files[name := content]), name, if mode.append then |content| else 0)
  }

  function OpenNew(a: Fs, name: cstring): (Fs, int) {
    if CanCreate(a, name) then OpenAt(a.(files := a.files[name := []]), name, 0) else (a, -1)
  }

  function Open(a: Fs, path: Path, mode: Mode): (Fs, int) {
    if !ValidPathname(path) then (a, -1)
    else if BaseName(path) in a.files then OpenExisting(a, BaseName(path), mode)
    else if mode.creat then OpenNew(a, BaseName(path))
    else (a, -1)
  }

  // ----- close, write, read, unlink -----

  function Close(a: Fs, h: int): (Fs, int) {
    if h in a.handles then (a.(handles := a.handles - {h}), 0) else (a, -1)
  }

  /** `content` with `bytes` written at `offset`; a gap would be filled with zeros. */
  function Splice(content: seq<byte>, offset: nat, bytes: seq<byte>): seq<byte> {
    if offset > |content| then content + Zeros(offset - |content|) + bytes
    else if offset + |bytes| >= |content| then content[..offset] + bytes
    else Put(content, offset, bytes)
  }

  /** A handle of an existing file. */
  predicate Usable(a: Fs, h: int) {
    h in a.handles && a.handles[h].name in a.files
  }

  /** `bytes` written through handle `h`. */
  function Written(a: Fs, h: nat, bytes: seq<byte>): Fs
    requires Usable(a, h)
  {
    var Handle(name, offset) := a.handles[h];
    a.(files := a.files[name := Splice(a.files[name], offset, bytes)],
       handles := a.handles[h := Handle(name, offset + |bytes|)])
  }

  function Write(a: Fs, h: int, buf: seq<byte>): (Fs, int) {
    if !Usable(a, h) then (a, -1)
    else
      var Handle(name, offset) := a.handles[h];
      var n := Min(|buf|, a.lim.size - offset);
      if n <= 0 then (a, 0)
      else if a.files[name] == [] && |NonEmpty(a.files)| >= a.lim.nonEmpty then (a, -1)
      else (Written(a, h, buf[..n]), n)
  }

  function SetOffset(a: Fs, h: nat, offset: nat): Fs
    requires h in a.handles
  {
    a.(handles := a.handles[h := a.handles[h].(offset := offset)])
  }

  function Read(a: Fs, h: int, len: nat): (Fs, Reply) {
    if !Usable(a, h) then (a, Reply(-1, []))
    else
      var Handle(name, offset) := a.handles[h];
      var n := Min(len, |a.files[name]| - offset);
      if n <= 0 then (a, Reply(0, []))
      else (SetOffset(a, h, offset + n), Reply(n, a.files[name][offset..offset + n]))
  }

  function Unlink(a: Fs, path: Path): (Fs, int) {
    if ValidPathname(path) && BaseName(path) in a.files then (a.(files := a.files - {BaseName(path)}), 0)
    else (a, -1)
  }

  function WithCode(r: (Fs, int)): (Fs, Reply) {
    (r.0, Reply(r.1, []))
  }

  function Apply(a: Fs, call: Call): (Fs, Reply) {
    match call
    case Open(path, mode) => WithCode(Open(a, path, mode))
    case Close(h) => WithCode(Close(a, h))
    case Write(h, buf) => WithCode(Write(a, h, buf))
    case Read(h, len) => Read(a, h, len)
    case Unlink(path) => WithCode(Unlink(a, path))
  }

  function Run(a: Fs, calls: seq<Call>): (Fs, seq<Reply>)
    decreases |calls|
  {
    if calls == [] then (a, [])
    else
      var (a1, r) := Apply(a, calls[0]);
      var (a2, rs) := Run(a1, calls[1..]);
      (a2, [r] + rs)
  }

  /** Every handle is at an offset inside an existing file. */
  predicate OffsetsInside(a: Fs) {
    forall h :: h in a.handles ==>
      a.handles[h].name in a.files && a.handles[h].offset <= |a.files[a.handles[h].name]|
  }

  lemma OpenAtInside(a: Fs, name: cstring, offset: nat)
    requires OffsetsInside(a) && name in a.files && offset <= |a.files[name]|
    ensures OffsetsInside(OpenAt(a, name, offset).0)
  {
  }

  // ----- what the implementation leaves to its clients -----

  /** No handle of the file is past its beginning. */
  predicate AllAtStart(a: Fs, name: cstring) {
    forall h :: h in a.handles && a.handles[h].name == name ==> a.handles[h].offset == 0
  }

  predicate NotOpen(a: Fs, name: cstring) {
    forall h :: h in a.handles ==> a.handles[h].name != name
  }

  /**
   The client discipline.  The implementation checks neither whether a file is open before
   it truncates or unlinks it, nor whether `to_write + of_offset` fits in a `size_t`.
   */
  predicate Allowed(a: Fs, call: Call) {
    match call
    case Open(path, mode) =>
      ValidPathname(path) && BaseName(path) in a.files && mode.trunc && a.files[BaseName(path)] != [] ==>
        AllAtStart(a, BaseName(path))
    case Write(h, buf) => h in a.handles ==> |buf| + a.handles[h].offset < SIZE_LIMIT
    case Unlink(path) => ValidPathname(path) && BaseName(path) in a.files ==> NotOpen(a, BaseName(path))
    case Close(_) => true
    case Read(_, _) => true
  }

  predicate AllAllowed(a: Fs, calls: seq<Call>)
    decreases |calls|
  {
    calls == [] || (Allowed(a, calls[0]) && AllAllowed(Apply(a, calls[0]).0, calls[1..]))
  }

  lemma TruncateInside(a: Fs, name: cstring)
    requires OffsetsInside(a) && name in a.files
    ensures OffsetsInside(a.(files := a.files[name := []])) <==> AllAtStart(a, name)
  {
    var a1 := a.(files := a.files[name := []]);
    if OffsetsInside(a1) {
      forall h | h in a.handles && a.handles[h].name == name ensures a.handles[h].offset == 0 {
        assert a1.handles[h].offset <= |a1.files[name]|;
      }
    }
  }

  lemma CreateInside(a: Fs, name: cstring)
    requires OffsetsInside(a) && name !in a.files
    ensures OffsetsInside(a.(files := a.files[name := []]))
  {
  }

  lemma UnlinkInside(a: Fs, name: cstring)
    requires OffsetsInside(a) && name in a.files
    ensures OffsetsInside(a.(files := a.files - {name})) <==> NotOpen(a, name)
  {
    var a1 := a.(files := a.files - {name});
    if OffsetsInside(a1) {
      assert forall h :: h in a.handles ==> a1.handles[h].name in a1.files;
    }
  }

  lemma WrittenInside(a: Fs, h: nat, bytes: seq<byte>)
    requires OffsetsInside(a) && h in a.handles
    ensures OffsetsInside(Written(a, h, bytes))
  {
  }

  /** The files after an open, whether or not there is a handle for it. */
  function FilesAfterOpen(a: Fs, path: Path, mode: Mode): map<cstring, seq<byte>> {
    if !ValidPathname(path) then a.files
    else if BaseName(path) in a.files then (if mode.trunc then a.files[BaseName(path) := []] else a.files)
    else if mode.creat && CanCreate(a, BaseName(path)) then a.files[BaseName(path) := []]
    else a.files
  }

  lemma OpenWithoutHandle(a: Fs, path: Path, mode: Mode)
    requires Lowest(a.handles.Keys, a.lim.handles) == a.lim.handles
    ensures Open(a, path, mode) == (a.(files := FilesAfterOpen(a, path, mode)), -1)
  {
    if ValidPathname(path) && BaseName(path) in a.files {
      assert a.files[BaseName(path) := a.files[BaseName(path)]] == a.files;
    }
  }
}
