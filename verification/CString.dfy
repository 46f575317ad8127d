/** C strings held in byte memory: strlen, strncmp, strcmp and strncpy of ISO/IEC 9899:2018, section 7.24. */
module CString {
  import opened Bytes

  /** The contents of a NUL-terminated string, without its terminator. */
  type cstring = s: seq<byte> | 0 !in s

  const MAX_FILE_NAME := 40

  /** Position of the first NUL byte in `m`, or `|m|` when there is none. */
  function Nul(m: seq<byte>): (k: nat)
    ensures k <= |m|
    ensures k < |m| ==> m[k] == 0
    ensures forall j :: 0 <= j < k ==> m[j] != 0
  {
    if |m| == 0 || m[0] == 0 then 0 else 1 + Nul(m[1..])
  }

  predicate Terminated(m: seq<byte>) {
    Nul(m) < |m|
  }

  /** The string that starts at the beginning of `m`. */
  function Name(m: seq<byte>): cstring {
    m[..Nul(m)]
  }

  /** The bytes a `char const *` argument points to. */
  function Memory(s: cstring): seq<byte> {
    s + [0]
  }

  /** `strncmp(a, b, n) == 0`, the comparison reading nothing outside `a` and `b`. */
  predicate StrncmpZero(a: seq<byte>, b: seq<byte>, n: nat) {
    n == 0 ||
    (|a| > 0 && |b| > 0 && a[0] == b[0] && (a[0] == 0 || StrncmpZero(a[1..], b[1..], n - 1)))
  }

  /** `strcmp(a, b) == 0`, the comparison reading nothing outside `a` and `b`. */
  predicate StrcmpZero(a: seq<byte>, b: seq<byte>) {
    |a| > 0 && |b| > 0 && a[0] == b[0] && (a[0] == 0 || StrcmpZero(a[1..], b[1..]))
  }

  /** The name field after `strncpy(field, name, 39)` and `field[39] = 0`. */
  function NameField(name: cstring): (f: seq<byte>)
    ensures |f| == MAX_FILE_NAME
  {
    seq(MAX_FILE_NAME, i requires 0 <= i => if i < |name| && i < MAX_FILE_NAME - 1 then name[i] else 0)
  }

  lemma NulUnique(m: seq<byte>, k: nat)
    requires k < |m| && m[k] == 0 && forall j :: 0 <= j < k ==> m[j] != 0
    ensures Nul(m) == k
  {
    var n := Nul(m);
    if n < k {
      assert false;
    }
  }

  /** A name of at most 39 bytes survives the fixed-width field. */
  lemma NameFieldRoundTrip(name: cstring)
    requires |name| <= MAX_FILE_NAME - 1
    ensures Terminated(NameField(name)) && Name(NameField(name)) == name
  {
    var f := NameField(name);
    forall j | 0 <= j < |name| ensures f[j] != 0 {
      assert f[j] == name[j] && name[j] in name;
    }
    NulUnique(f, |name|);
  }

  /** A longer name does not: the field keeps only its first 39 bytes. */
  lemma NameFieldTruncates(name: cstring)
    requires |name| > MAX_FILE_NAME - 1
    ensures Terminated(NameField(name)) && Name(NameField(name)) == name[..MAX_FILE_NAME - 1] != name
  {
    var f := NameField(name);
    forall j | 0 <= j < MAX_FILE_NAME - 1 ensures f[j] != 0 {
      assert f[j] == name[j] && name[j] in name;
    }
    NulUnique(f, MAX_FILE_NAME - 1);
  }

  /** On a terminated field a bounded comparison decides equality with a query of any length. */
  lemma {:induction false} StrncmpDecides(f: seq<byte>, q: cstring, n: nat)
    requires Terminated(f) && |f| <= n
    ensures StrncmpZero(f, Memory(q), n) <==> Name(f) == q
  {
    if f[0] == 0 {
      assert q != [] ==> q[0] in q;
    } else if q != [] {
      assert q[0] in q && 0 !in q[1..];
      assert Memory(q)[1..] == Memory(q[1..]);
      StrncmpDecides(f[1..], q[1..], n - 1);
      assert Name(f) == [f[0]] + Name(f[1..]);
      assert q == [q[0]] + q[1..];
    }
  }

  /** The unbounded comparison decides equality with the string at the start of terminated memory. */
  lemma {:induction false} StrcmpDecides(m: seq<byte>, q: cstring)
    requires Terminated(m)
    ensures StrcmpZero(m, Memory(q)) <==> Name(m) == q
  {
    if m[0] == 0 {
      assert q != [] ==> q[0] in q;
    } else if q != [] {
      assert q[0] in q && 0 !in q[1..];
      assert Memory(q)[1..] == Memory(q[1..]);
      StrcmpDecides(m[1..], q[1..]);
      assert Name(m) == [m[0]] + Name(m[1..]);
      assert q == [q[0]] + q[1..];
    }
  }

  /** What follows a terminated field does not matter. */
  lemma NameOfPrefix(m: seq<byte>, n: nat)
    requires n <= |m| && Terminated(m[..n])
    ensures Terminated(m) && Name(m) == Name(m[..n])
  {
    NulUnique(m, Nul(m[..n]));
  }
}
