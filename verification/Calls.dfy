/** The interface of fs/operations.h: arguments and results of the `tfs_*` calls. */
module Calls {
  import opened Bytes
  import opened CString

  /** Flags of `tfs_open`. */
  datatype Mode = Mode(creat: bool, trunc: bool, append: bool)

  /** A `char const *` that may be NULL. */
  datatype Path = Null | Path(s: cstring)

  /** A buffer argument; its length is a `size_t`. */
  type buffer = s: seq<byte> | |s| < SIZE_LIMIT

  type size_t = n: nat | n < SIZE_LIMIT

  datatype Call =
    | Open(path: Path, mode: Mode)
    | Close(h: int)
    | Write(h: int, buf: buffer)
    | Read(h: int, len: size_t)
    | Unlink(path: Path)

  /** A return value, with the bytes stored in the caller's buffer by `tfs_read`. */
  datatype Reply = Reply(code: int, bytes: seq<byte>)

  const SLASH: byte := 47

  predicate ValidPathname(path: Path) {
    path.Path? && |path.s| > 1 && path.s[0] == SLASH
  }

  /** The name below the root directory. */
  function BaseName(path: Path): (name: cstring)
    requires ValidPathname(path)
    ensures |name| >= 1
  {
    path.s[1..]
  }
}
