/** Bytes, fixed-width integers and splices of byte memory. */
module Bytes {

  type byte = b: int | 0 <= b < 256

  /** Number of values of a `size_t` (64 bits). */
  const SIZE_LIMIT := 0x1_0000_0000_0000_0000

  /** Largest object a C program can own; `ssize_t` and `ptrdiff_t` stop here. */
  const OBJECT_LIMIT := 0x7FFF_FFFF_FFFF_FFFF

  const INT_LIMIT := 0x8000_0000

  /** The value a `size_t` computation stores: unsigned arithmetic is modulo 2^64. */
  function Wrap(x: int): (r: nat)
    ensures r < SIZE_LIMIT
    ensures 0 <= x < SIZE_LIMIT ==> r == x
    ensures -SIZE_LIMIT <= x < 0 ==> r == x + SIZE_LIMIT
    ensures SIZE_LIMIT <= x < 2 * SIZE_LIMIT ==> r == x - SIZE_LIMIT
  {
    x % SIZE_LIMIT
  }

  function Min(x: int, y: int): int {
    if x <= y then x else y
  }

  function Zeros(n: nat): (z: seq<byte>) {
    seq(n, _ => 0)
  }

  /** The memory `m` after `bytes` were copied to address `at`. */
  function Put(m: seq<byte>, at: nat, bytes: seq<byte>): (r: seq<byte>)
    requires at + |bytes| <= |m|
    ensures |r| == |m|
    ensures forall i :: 0 <= i < |m| ==> r[i] == if at <= i < at + |bytes| then bytes[i - at] else m[i]
  {
    m[..at] + bytes + m[at + |bytes|..]
  }

  /** A splice does not touch a region that it does not overlap. */
  lemma PutElsewhere(m: seq<byte>, at: nat, bytes: seq<byte>, lo: nat, hi: nat)
    requires at + |bytes| <= |m| && lo <= hi <= |m|
    requires hi <= at || at + |bytes| <= lo
    ensures Put(m, at, bytes)[lo..hi] == m[lo..hi]
  {
  }

  /** A splice inside a region is a splice of that region. */
  lemma PutInside(m: seq<byte>, at: nat, bytes: seq<byte>, lo: nat, hi: nat)
    requires lo <= at && at + |bytes| <= hi <= |m|
    ensures Put(m, at, bytes)[lo..hi] == Put(m[lo..hi], at - lo, bytes)
  {
  }

  /** Rewriting a region with a splice of it is that splice. */
  lemma PutNested(m: seq<byte>, lo: nat, hi: nat, at: nat, bytes: seq<byte>)
    requires lo <= hi <= |m| && at + |bytes| <= hi - lo
    ensures Put(m, lo, Put(m[lo..hi], at, bytes)) == Put(m, lo + at, bytes)
  {
  }

  /** The second of two splices of the same region wins. */
  lemma PutAgain(m: seq<byte>, lo: nat, first: seq<byte>, second: seq<byte>)
    requires |first| == |second| && lo + |first| <= |m|
    ensures Put(Put(m, lo, first), lo, second) == Put(m, lo, second)
    ensures Put(m, lo, first)[lo..lo + |first|] == first
  {
  }

  /** Two splices side by side are one. */
  lemma PutAdjacent(m: seq<byte>, lo: nat, first: seq<byte>, second: seq<byte>)
    requires lo + |first| + |second| <= |m|
    ensures Put(Put(m, lo, first), lo + |first|, second) == Put(m, lo, first + second)
  {
  }

  /** A 32-bit `int` as stored in memory, least significant byte first. */
  function EncodeInt(v: int): (m: seq<byte>)
    requires -INT_LIMIT <= v < INT_LIMIT
    ensures |m| == 4
  {
    var u := if v >= 0 then v else v + 2 * INT_LIMIT;
    [u % 0x100, u / 0x100 % 0x100, u / 0x1_0000 % 0x100, u / 0x100_0000]
  }

  function DecodeInt(m: seq<byte>): (v: int)
    requires |m| == 4
    ensures -INT_LIMIT <= v < INT_LIMIT
  {
    var b0: int, b1: int, b2: int, b3: int := m[0], m[1], m[2], m[3];
    var u := b0 + 0x100 * b1 + 0x1_0000 * b2 + 0x100_0000 * b3;
    if u < INT_LIMIT then u else u - 2 * INT_LIMIT
  }

  lemma IntRoundTrip(v: int)
    requires -INT_LIMIT <= v < INT_LIMIT
    ensures DecodeInt(EncodeInt(v)) == v
  {
    var u := if v >= 0 then v else v + 2 * INT_LIMIT;
    var a, b, c := u / 0x100, u / 0x1_0000, u / 0x100_0000;
    assert u == 0x100 * a + u % 0x100;
    assert b == a / 0x100 && a == 0x100 * b + a % 0x100;
    assert c == b / 0x100 && b == 0x100 * c + b % 0x100;
  }
}
