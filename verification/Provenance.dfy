/** Where the bytes of a file come from: no byte is older than the file's latest creation or truncation. */
module Provenance {
  import opened Bytes
  import opened CString
  import opened Calls
  import opened FileModel
  import opened ModelProperties

  /** The state after the first `j` calls. */
  function After(a: Fs, calls: seq<Call>, j: nat): Fs
    requires j <= |calls|
  {
    Run(a, calls[..j]).0
  }

  lemma AfterNext(a: Fs, calls: seq<Call>, j: nat)
    requires j < |calls|
    ensures After(a, calls, j + 1) == Apply(After(a, calls, j), calls[j]).0
  {
    assert calls[..j + 1] == calls[..j] + ([calls[j]] + []);
    RunAppend(a, calls[..j], [calls[j]] + []);
    RunCons(After(a, calls, j), calls[j], []);
  }

  lemma AllowedNext(a: Fs, calls: seq<Call>, j: nat)
    requires j < |calls| && AllAllowed(a, calls)
    ensures Allowed(After(a, calls, j), calls[j])
  {
    assert calls == calls[..j] + ([calls[j]] + calls[j + 1..]);
    RunAppend(a, calls[..j], [calls[j]] + calls[j + 1..]);
    RunCons(After(a, calls, j), calls[j], calls[j + 1..]);
  }

  /** A call that stored `b` at position `i` of file `name`. */
  predicate Stores(a: Fs, call: Call, name: cstring, i: nat, b: byte) {
    && call.Write? && Usable(a, call.h) && a.handles[call.h].name == name
    && var offset := a.handles[call.h].offset;
    && offset <= i < offset + Apply(a, call).1.code
    && i - offset < |call.buf| && call.buf[i - offset] == b
  }

  predicate HasByte(a: Fs, name: cstring, i: nat, b: byte) {
    name in a.files && i < |a.files[name]| && a.files[name][i] == b
  }

  lemma SplicedByte(content: seq<byte>, offset: nat, bytes: seq<byte>, i: nat)
    requires offset <= |content| && i < |Splice(content, offset, bytes)|
    ensures Splice(content, offset, bytes)[i] ==
      if offset <= i < offset + |bytes| then bytes[i - offset] else content[i]
  {
  }

  /** One call leaves a byte of a file alone, or has just written it. */
  lemma ByteStep(a: Fs, call: Call, name: cstring, i: nat, b: byte)
    requires OffsetsInside(a) && HasByte(Apply(a, call).0, name, i, b)
    ensures HasByte(a, name, i, b) || Stores(a, call, name, i, b)
  {
    match call {
      case Write(h, buf) =>
        var (a1, n) := FileModel.Write(a, h, buf);
        if n > 0 && a.handles[h].name == name {
          SplicedByte(a.files[name], a.handles[h].offset, buf[..n], i);
        }
      case Open(_, _) =>
      case Close(_) =>
      case Read(_, _) =>
      case Unlink(_) =>
    }
  }

  lemma InsideStep(a: Fs, call: Call)
    requires OffsetsInside(a) && Allowed(a, call)
    ensures OffsetsInside(Apply(a, call).0)
  {
    match call {
      case Open(path, mode) =>
        if ValidPathname(path) {
          var name := BaseName(path);
          if name in a.files {
            var content := if mode.trunc then [] else a.files[name];
            if mode.trunc && a.files[name] != [] {
              TruncateInside(a, name);
            } else {
              assert a.files[name := content] == a.files;
            }
            OpenAtInside(a.(files := a.files[name := content]), name, if mode.append then |content| else 0);
          } else if mode.creat && CanCreate(a, name) {
            CreateInside(a, name);
            OpenAtInside(a.(files := a.files[name := []]), name, 0);
          }
        }
      case Write(h, buf) =>
        if Usable(a, h) {
          var n := Min(|buf|, a.lim.size - a.handles[h].offset);
          if n > 0 {
            WrittenInside(a, h, buf[..n]);
          }
        }
      case Unlink(path) =>
        if ValidPathname(path) && BaseName(path) in a.files {
          UnlinkInside(a, BaseName(path));
        }
      case Close(_) =>
      case Read(_, _) =>
    }
  }

  lemma {:induction false} InsideAlways(a: Fs, calls: seq<Call>, j: nat)
    requires OffsetsInside(a) && AllAllowed(a, calls) && j <= |calls|
    ensures OffsetsInside(After(a, calls, j))
    decreases j
  {
    if j > 0 {
      InsideAlways(a, calls, j - 1);
      AfterNext(a, calls, j - 1);
      AllowedNext(a, calls, j - 1);
      InsideStep(After(a, calls, j - 1), calls[j - 1]);
    }
  }

  /** Call `j` stored the byte, and every state since then has it. */
  predicate WrittenAndKept(a: Fs, calls: seq<Call>, j: nat, end: nat, name: cstring, i: nat, b: byte)
    requires j < end <= |calls|
  {
    && Stores(After(a, calls, j), calls[j], name, i, b)
    && forall k :: j < k <= end ==> HasByte(After(a, calls, k), name, i, b)
  }

  ghost predicate SomeWriteKept(a: Fs, calls: seq<Call>, end: nat, name: cstring, i: nat, b: byte)
    requires end <= |calls|
  {
    exists j: nat :: j < end && WrittenAndKept(a, calls, j, end, name, i, b)
  }

  /**
   No stale bytes.  In every run of allowed calls from an empty file system, every byte of
   every file was stored at its position by a write to that same file, and has stayed there
   since: the file was neither truncated nor removed in between.
   */
  lemma {:induction false} NoStaleBytes(lim: Limits, calls: seq<Call>, end: nat, name: cstring, i: nat, b: byte)
    requires AllAllowed(Empty(lim), calls) && end <= |calls|
    requires HasByte(After(Empty(lim), calls, end), name, i, b)
    ensures SomeWriteKept(Empty(lim), calls, end, name, i, b)
    decreases end
  {
    var a := Empty(lim);
    if end > 0 {
      InsideAlways(a, calls, end - 1);
      AfterNext(a, calls, end - 1);
      ByteStep(After(a, calls, end - 1), calls[end - 1], name, i, b);
      if Stores(After(a, calls, end - 1), calls[end - 1], name, i, b) {
        assert WrittenAndKept(a, calls, end - 1, end, name, i, b);
      } else {
        NoStaleBytes(lim, calls, end - 1, name, i, b);
        var j: nat :| j < end - 1 && WrittenAndKept(a, calls, j, end - 1, name, i, b);
        assert WrittenAndKept(a, calls, j, end, name, i, b);
      }
    }
  }

  /** A read through `h` after all `calls` returns `b` at position `i`, and some call wrote it there. */
  ghost predicate WrittenBefore(a: Fs, calls: seq<Call>, h: int, i: nat, b: byte) {
    var now := After(a, calls, |calls|);
    && h in now.handles
    && SomeWriteKept(a, calls, |calls|, now.handles[h].name, now.handles[h].offset + i, b)
  }

  lemma ReadsWrittenBytes(lim: Limits, calls: seq<Call>, h: int, len: nat, i: nat)
    requires AllAllowed(Empty(lim), calls)
    requires i < |FileModel.Read(Run(Empty(lim), calls).0, h, len).1.bytes|
    ensures WrittenBefore(Empty(lim), calls, h, i, FileModel.Read(Run(Empty(lim), calls).0, h, len).1.bytes[i])
  {
    assert calls[..|calls|] == calls;
    var now := After(Empty(lim), calls, |calls|);
    var b := FileModel.Read(now, h, len).1.bytes[i];
    ReadByte(now, h, len, i);
    NoStaleBytes(lim, calls, |calls|, now.handles[h].name, now.handles[h].offset + i, b);
  }

  lemma ReadByte(a: Fs, h: int, len: nat, i: nat)
    requires i < |FileModel.Read(a, h, len).1.bytes|
    ensures h in a.handles
    ensures HasByte(a, a.handles[h].name, a.handles[h].offset + i, FileModel.Read(a, h, len).1.bytes[i])
  {
  }
}
