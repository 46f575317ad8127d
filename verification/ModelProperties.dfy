/** What the client's model promises over whole runs: streams of chunks, and where bytes come from. */
module ModelProperties {
  import opened Bytes
  import opened CString
  import opened Calls
  import opened Counting
  import opened FileModel

  // ----- runs -----

  lemma RunCons(a: Fs, call: Call, rest: seq<Call>)
    ensures var (a1, r) := Apply(a, call);
      Run(a, [call] + rest) == (Run(a1, rest).0, [r] + Run(a1, rest).1)
    ensures AllAllowed(a, [call] + rest) <==> Allowed(a, call) && AllAllowed(Apply(a, call).0, rest)
  {
    assert ([call] + rest)[1..] == rest;
  }

  lemma AppendAssociates<T>(x: T, s: seq<T>, t: seq<T>)
    ensures [x] + (s + t) == [x] + s + t
    ensures [x] + s != [] && ([x] + s)[0] == x && ([x] + s)[1..] == s
  {
  }

  lemma {:induction false} RunAppend(a: Fs, first: seq<Call>, second: seq<Call>)
    ensures Run(a, first + second).0 == Run(Run(a, first).0, second).0
    ensures Run(a, first + second).1 == Run(a, first).1 + Run(Run(a, first).0, second).1
    ensures AllAllowed(a, first + second) <==> AllAllowed(a, first) && AllAllowed(Run(a, first).0, second)
    decreases |first|
  {
    if first == [] {
      var ss: seq<Reply> := Run(a, second).1;
      assert first + second == second && [] + ss == ss;
    } else {
      var call, rest := first[0], first[1..];
      var (a1, r) := Apply(a, call);
      assert first == [call] + rest;
      RunAppend(a1, rest, second);
      RunCons(a, call, rest);
      RunCons(a, call, rest + second);
      AppendAssociates(call, rest, second);
      AppendAssociates(r, Run(a1, rest).1, Run(Run(a1, rest).0, second).1);
    }
  }

  // ----- streams -----

  function Concat(chunks: seq<buffer>): seq<byte> {
    if chunks == [] then [] else chunks[0] + Concat(chunks[1..])
  }

  function Clip(s: seq<byte>, n: nat): seq<byte> {
    s[..Min(|s|, n)]
  }

  function Sum(lens: seq<size_t>): nat {
    if lens == [] then 0 else lens[0] + Sum(lens[1..])
  }

  function Codes(rs: seq<Reply>): int {
    if rs == [] then 0 else rs[0].code + Codes(rs[1..])
  }

  function Data(rs: seq<Reply>): seq<byte> {
    if rs == [] then [] else rs[0].bytes + Data(rs[1..])
  }

  function Writes(h: int, chunks: seq<buffer>): (calls: seq<Call>) {
    if chunks == [] then [] else [Call.Write(h, chunks[0])] + Writes(h, chunks[1..])
  }

  function Reads(h: int, lens: seq<size_t>): (calls: seq<Call>) {
    if lens == [] then [] else [Call.Read(h, lens[0])] + Reads(h, lens[1..])
  }

  /** The chunks are C objects, so no size_t sum wraps. */
  predicate Objects(chunks: seq<buffer>) {
    forall i :: 0 <= i < |chunks| ==> |chunks[i]| <= OBJECT_LIMIT
  }

  /** There is a block for the file, or it has one. */
  predicate Room(a: Fs, name: cstring) {
    name in a.files && (a.files[name] != [] || |NonEmpty(a.files)| < a.lim.nonEmpty)
  }

  /** File `name` replaced, with handle `h` at its end. */
  function Appended(a: Fs, h: nat, name: cstring, content: seq<byte>): Fs {
    a.(files := a.files[name := content], handles := a.handles[h := Handle(name, |content|)])
  }

  lemma AppendChunk(a: Fs, h: nat, name: cstring, chunk: buffer)
    requires Room(a, name) && 0 < a.lim.size <= OBJECT_LIMIT && |chunk| <= OBJECT_LIMIT
    requires h in a.handles && a.handles[h] == Handle(name, |a.files[name]|) && |a.files[name]| <= a.lim.size
    ensures Allowed(a, Call.Write(h, chunk))
    ensures var content := Clip(a.files[name] + chunk, a.lim.size);
      FileModel.Write(a, h, chunk) == (Appended(a, h, name, content), |content| - |a.files[name]|)
  {
    var before, n := a.files[name], Min(|chunk|, a.lim.size - |a.files[name]|);
    var content := Clip(before + chunk, a.lim.size);
    assert content == before + chunk[..n];
    if n == 0 {
      assert content == before;
      assert a.files[name := before] == a.files && a.handles[h := Handle(name, |before|)] == a.handles;
    } else {
      assert Splice(before, |before|, chunk[..n]) == content;
    }
  }

  lemma ClipTwice(s: seq<byte>, t: seq<byte>, n: nat)
    ensures Clip(Clip(s, n) + t, n) == Clip(s + t, n)
  {
  }

  lemma ClipAssociates(s: seq<byte>, t: seq<byte>, u: seq<byte>, n: nat)
    ensures Clip(Clip(s + t, n) + u, n) == Clip(s + (t + u), n)
  {
    ClipTwice(s + t, u, n);
    assert s + t + u == s + (t + u);
  }

  /** A file that grew still has room, and can be appended to again. */
  lemma AppendAgain(a: Fs, h: nat, name: cstring, first: seq<byte>, content: seq<byte>)
    requires Room(a, name) && |a.files[name]| <= |first|
    ensures Room(Appended(a, h, name, first), name)
    ensures Appended(Appended(a, h, name, first), h, name, content) == Appended(a, h, name, content)
  {
    if first == [] {
      assert a.files[name := first] == a.files;
    }
  }

  /**
   Any list of chunks written through one handle at the end of a file stores the longest
   prefix that fits, and the write results add up to what was stored.
   */
  lemma {:induction false} StreamWrites(a: Fs, h: nat, name: cstring, chunks: seq<buffer>)
    requires Room(a, name) && Objects(chunks) && 0 < a.lim.size <= OBJECT_LIMIT
    requires h in a.handles && a.handles[h] == Handle(name, |a.files[name]|) && |a.files[name]| <= a.lim.size
    ensures var content := Clip(a.files[name] + Concat(chunks), a.lim.size);
      && AllAllowed(a, Writes(h, chunks))
      && Run(a, Writes(h, chunks)).0 == Appended(a, h, name, content)
      && Codes(Run(a, Writes(h, chunks)).1) == |content| - |a.files[name]|
    decreases |chunks|
  {
    var before, content := a.files[name], Clip(a.files[name] + Concat(chunks), a.lim.size);
    if chunks == [] {
      assert content == before;
      assert a.files[name := before] == a.files && a.handles[h := Handle(name, |before|)] == a.handles;
    } else {
      var first := Clip(before + chunks[0], a.lim.size);
      var a1 := Appended(a, h, name, first);
      AppendChunk(a, h, name, chunks[0]);
      AppendAgain(a, h, name, first, content);
      StreamWrites(a1, h, name, chunks[1..]);
      ClipAssociates(before, chunks[0], Concat(chunks[1..]), a.lim.size);
      RunCons(a, Call.Write(h, chunks[0]), Writes(h, chunks[1..]));
    }
  }

  lemma ReadChunk(a: Fs, h: nat, name: cstring, len: size_t, end: nat)
    requires h in a.handles && name in a.files && a.handles[h].name == name && a.handles[h].offset <= |a.files[name]|
    requires end == a.handles[h].offset + Min(len, |a.files[name]| - a.handles[h].offset)
    ensures var (a1, r) := Apply(a, Call.Read(h, len));
      && a1 == a.(handles := a.handles[h := Handle(name, end)])
      && r == Reply(end - a.handles[h].offset, a.files[name][a.handles[h].offset..end])
  {
    assert a.handles[h := a.handles[h]] == a.handles;
  }

  /** Reading in any chunking returns the bytes from the offset on, in order. */
  lemma {:induction false} StreamReads(a: Fs, h: nat, name: cstring, lens: seq<size_t>, end: nat)
    requires h in a.handles && name in a.files && a.handles[h].name == name && a.handles[h].offset <= |a.files[name]|
    requires end == a.handles[h].offset + Min(Sum(lens), |a.files[name]| - a.handles[h].offset)
    ensures AllAllowed(a, Reads(h, lens))
    ensures Run(a, Reads(h, lens)).0 == a.(handles := a.handles[h := Handle(name, end)])
    ensures Data(Run(a, Reads(h, lens)).1) == a.files[name][a.handles[h].offset..end]
    ensures Codes(Run(a, Reads(h, lens)).1) == end - a.handles[h].offset
    decreases |lens|
  {
    var offset := a.handles[h].offset;
    if lens == [] {
      assert a.handles[h := a.handles[h]] == a.handles;
    } else {
      var middle := offset + Min(lens[0], |a.files[name]| - offset);
      ReadChunk(a, h, name, lens[0], middle);
      var a1 := a.(handles := a.handles[h := Handle(name, middle)]);
      StreamReads(a1, h, name, lens[1..], end);
      RunCons(a, Call.Read(h, lens[0]), Reads(h, lens[1..]));
      assert a1.handles[h := Handle(name, end)] == a.handles[h := Handle(name, end)];
      assert a.files[name][offset..middle] + a.files[name][middle..end] == a.files[name][offset..end];
    }
  }

  // ----- one session per chunk -----

  const APPEND := Mode(false, false, true)

  /** Open for append, write one chunk, close; `h` is the handle that the open returns. */
  function Session(path: Path, h: int, chunk: buffer): seq<Call> {
    [Call.Open(path, APPEND)] + ([Call.Write(h, chunk)] + ([Call.Close(h)] + []))
  }

  function Sessions(path: Path, h: int, chunks: seq<buffer>): seq<Call> {
    if chunks == [] then [] else Session(path, h, chunks[0]) + Sessions(path, h, chunks[1..])
  }

  /** The sum of the write results among the replies to sessions. */
  function SessionCodes(rs: seq<Reply>): int {
    if |rs| < 3 then 0 else rs[1].code + SessionCodes(rs[3..])
  }

  lemma SessionCodesCons(first: seq<Reply>, rest: seq<Reply>)
    requires |first| == 3
    ensures SessionCodes(first) == first[1].code
    ensures SessionCodes(first + rest) == first[1].code + SessionCodes(rest)
  {
    assert (first + rest)[3..] == rest;
  }

  lemma OpenAppend(a: Fs, path: Path, h: nat)
    requires ValidPathname(path) && BaseName(path) in a.files
    requires h == Lowest(a.handles.Keys, a.lim.handles) < a.lim.handles
    ensures var name := BaseName(path);
      Apply(a, Call.Open(path, APPEND)) ==
        (a.(handles := a.handles[h := Handle(name, |a.files[name]|)]), Reply(h, []))
  {
    var name := BaseName(path);
    assert a.files[name := a.files[name]] == a.files;
  }

  lemma RunThree(a: Fs, c0: Call, c1: Call, c2: Call, a1: Fs, a2: Fs, a3: Fs)
    requires Apply(a, c0).0 == a1 && Apply(a1, c1).0 == a2 && Apply(a2, c2).0 == a3
    requires Allowed(a, c0) && Allowed(a1, c1) && Allowed(a2, c2)
    ensures Run(a, [c0] + ([c1] + ([c2] + []))).0 == a3 && AllAllowed(a, [c0] + ([c1] + ([c2] + [])))
    ensures Run(a, [c0] + ([c1] + ([c2] + []))).1 == [Apply(a, c0).1, Apply(a1, c1).1, Apply(a2, c2).1]
  {
    RunCons(a, c0, [c1] + ([c2] + []));
    RunCons(a1, c1, [c2] + []);
    RunCons(a2, c2, []);
  }

  lemma CloseAppended(a: Fs, h: nat, name: cstring, content: seq<byte>, offset: nat)
    requires h !in a.handles
    ensures var a1 := a.(handles := a.handles[h := Handle(name, offset)]);
      Apply(Appended(a1, h, name, content), Call.Close(h)).0 == a.(files := a.files[name := content])
  {
    assert a.handles[h := Handle(name, offset)][h := Handle(name, |content|)] - {h} == a.handles;
  }

  /** A run of sessions that makes `content` of file `name`; the write results add up to what it adds. */
  predicate SessionsStore(a: Fs, calls: seq<Call>, name: cstring, content: seq<byte>)
    requires name in a.files
  {
    && AllAllowed(a, calls)
    && Run(a, calls).0 == a.(files := a.files[name := content])
    && SessionCodes(Run(a, calls).1) == |content| - |a.files[name]|
  }

  lemma SessionCodesThree(r0: Reply, r1: Reply, r2: Reply)
    ensures SessionCodes([r0, r1, r2]) == r1.code
  {
  }

  /** Three calls that make up a session, given the states between them. */
  lemma SessionIs(a: Fs, name: cstring, c0: Call, c1: Call, c2: Call, a1: Fs, a2: Fs, content: seq<byte>)
    requires name in a.files && Apply(a, c0).0 == a1 && Apply(a1, c1).0 == a2
    requires Apply(a2, c2).0 == a.(files := a.files[name := content])
    requires Apply(a1, c1).1.code == |content| - |a.files[name]|
    requires Allowed(a, c0) && Allowed(a1, c1) && Allowed(a2, c2)
    ensures var calls := [c0] + ([c1] + ([c2] + []));
      SessionsStore(a, calls, name, content) && |Run(a, calls).1| == 3
  {
    RunThree(a, c0, c1, c2, a1, a2, Apply(a2, c2).0);
    SessionCodesThree(Apply(a, c0).1, Apply(a1, c1).1, Apply(a2, c2).1);
  }

  lemma SessionAppends(a: Fs, path: Path, chunk: buffer)
    requires ValidPathname(path) && Room(a, BaseName(path))
    requires 0 < a.lim.size <= OBJECT_LIMIT && |chunk| <= OBJECT_LIMIT && |a.files[BaseName(path)]| <= a.lim.size
    requires Lowest(a.handles.Keys, a.lim.handles) < a.lim.handles
    ensures var name, calls := BaseName(path), Session(path, Lowest(a.handles.Keys, a.lim.handles), chunk);
      SessionsStore(a, calls, name, Clip(a.files[name] + chunk, a.lim.size)) && |Run(a, calls).1| == 3
  {
    var name, h := BaseName(path), Lowest(a.handles.Keys, a.lim.handles);
    var content := Clip(a.files[name] + chunk, a.lim.size);
    var a1 := a.(handles := a.handles[h := Handle(name, |a.files[name]|)]);
    OpenAppend(a, path, h);
    AppendChunk(a1, h, name, chunk);
    CloseAppended(a, h, name, content, |a.files[name]|);
    SessionIs(a, name, Call.Open(path, APPEND), Call.Write(h, chunk), Call.Close(h), a1,
              Appended(a1, h, name, content), content);
  }

  lemma JoinFiles(a: Fs, name: cstring, middle: seq<byte>, content: seq<byte>)
    ensures var a1 := a.(files := a.files[name := middle]);
      a1.(files := a1.files[name := content]) == a.(files := a.files[name := content]) && a1.files[name] == middle
  {
  }

  lemma JoinSessions(a: Fs, first: seq<Call>, rest: seq<Call>, name: cstring, middle: seq<byte>, content: seq<byte>)
    requires name in a.files && SessionsStore(a, first, name, middle) && |Run(a, first).1| == 3
    requires SessionsStore(a.(files := a.files[name := middle]), rest, name, content)
    ensures SessionsStore(a, first + rest, name, content)
  {
    var a1, calls := a.(files := a.files[name := middle]), first + rest;
    JoinFiles(a, name, middle, content);
    RunAppend(a, first, rest);
    var rs, ss := Run(a, first).1, Run(a1, rest).1;
    SessionCodesCons(rs, ss);
    assert Run(a, calls).1 == rs + ss;
  }

  /**
   Repeated append sessions leave the handles alone and store the longest prefix that fits,
   and the write results add up to what was stored.
   */
  lemma {:induction false} SessionsAppend(a: Fs, path: Path, chunks: seq<buffer>)
    requires ValidPathname(path) && Room(a, BaseName(path)) && Objects(chunks)
    requires 0 < a.lim.size <= OBJECT_LIMIT && |a.files[BaseName(path)]| <= a.lim.size
    requires Lowest(a.handles.Keys, a.lim.handles) < a.lim.handles
    ensures var name, calls := BaseName(path), Sessions(path, Lowest(a.handles.Keys, a.lim.handles), chunks);
      SessionsStore(a, calls, name, Clip(a.files[name] + Concat(chunks), a.lim.size))
    decreases |chunks|
  {
    var name, h := BaseName(path), Lowest(a.handles.Keys, a.lim.handles);
    var content := Clip(a.files[name] + Concat(chunks), a.lim.size);
    if chunks == [] {
      assert content == a.files[name];
      assert a.files[name := a.files[name]] == a.files;
    } else {
      var first := Clip(a.files[name] + chunks[0], a.lim.size);
      var a1 := a.(files := a.files[name := first]);
      SessionAppends(a, path, chunks[0]);
      assert first == [] ==> a.files[name] == [] && a1.files == a.files;
      SessionsAppend(a1, path, chunks[1..]);
      ClipAssociates(a.files[name], chunks[0], Concat(chunks[1..]), a.lim.size);
      JoinSessions(a, Session(path, h, chunks[0]), Sessions(path, h, chunks[1..]), name, first, content);
    }
  }

  // ----- round trips -----

  lemma {:induction false} RunLength(a: Fs, calls: seq<Call>)
    ensures |Run(a, calls).1| == |calls|
    decreases |calls|
  {
    if calls != [] {
      RunLength(Apply(a, calls[0]).0, calls[1..]);
    }
  }

  /** What writing `chunks` to an empty file and reading `lens` back must return. */
  predicate RoundTrip(chunks: seq<buffer>, lens: seq<size_t>, size: nat, readReplies: seq<Reply>) {
    Data(readReplies) == Clip(Clip(Concat(chunks), size), Sum(lens))
  }

  lemma StreamRoundTrip(a: Fs, w: nat, r: nat, name: cstring, chunks: seq<buffer>, lens: seq<size_t>)
    requires w != r && Room(a, name) && a.files[name] == [] && Objects(chunks) && 0 < a.lim.size <= OBJECT_LIMIT
    requires w in a.handles && a.handles[w] == Handle(name, 0) && r in a.handles && a.handles[r] == Handle(name, 0)
    ensures var writes, calls := Writes(w, chunks), Writes(w, chunks) + Reads(r, lens);
      var replies := Run(a, calls).1;
      && AllAllowed(a, calls) && |writes| <= |replies|
      && Codes(replies[..|writes|]) == |Clip(Concat(chunks), a.lim.size)|
      && RoundTrip(chunks, lens, a.lim.size, replies[|writes|..])
  {
    var stored, writes := Clip(Concat(chunks), a.lim.size), Writes(w, chunks);
    var end := Min(Sum(lens), |stored|);
    assert a.files[name] + Concat(chunks) == Concat(chunks);
    StreamWrites(a, w, name, chunks);
    StreamReads(Appended(a, w, name, stored), r, name, lens, end);
    RunAppend(a, writes, Reads(r, lens));
    RunLength(a, writes);
  }

  lemma SessionsRoundTrip(a: Fs, path: Path, chunks: seq<buffer>, r: nat, lens: seq<size_t>)
    requires ValidPathname(path) && Room(a, BaseName(path)) && Objects(chunks) && 0 < a.lim.size <= OBJECT_LIMIT
    requires a.files[BaseName(path)] == [] && Lowest(a.handles.Keys, a.lim.handles) < a.lim.handles
    requires r in a.handles && a.handles[r] == Handle(BaseName(path), 0)
    ensures var sessions := Sessions(path, Lowest(a.handles.Keys, a.lim.handles), chunks);
      var replies := Run(a, sessions + Reads(r, lens)).1;
      && AllAllowed(a, sessions + Reads(r, lens)) && |sessions| <= |replies|
      && SessionCodes(replies[..|sessions|]) == |Clip(Concat(chunks), a.lim.size)|
      && RoundTrip(chunks, lens, a.lim.size, replies[|sessions|..])
  {
    var name, sessions := BaseName(path), Sessions(path, Lowest(a.handles.Keys, a.lim.handles), chunks);
    var stored := Clip(Concat(chunks), a.lim.size);
    var end := Min(Sum(lens), |stored|);
    assert a.files[name] + Concat(chunks) == Concat(chunks);
    SessionsAppend(a, path, chunks);
    StreamReads(a.(files := a.files[name := stored]), r, name, lens, end);
    RunAppend(a, sessions, Reads(r, lens));
    RunLength(a, sessions);
  }
}
