/** Arithmetic and contents of the circular buffer `pcq_buffer`. */
module Ring {

  /** A `void *` handed through the queue. */
  type Elem = int

  /** Index `i` steps after `head`, modulo the capacity. */
  function Slot(head: nat, i: nat, cap: nat): (k: nat)
    requires cap > 0
    ensures k < cap
  {
    (head + i) % cap
  }

  /** For an index less than twice the capacity the remainder is at most one subtraction. */
  lemma ModOnce(x: nat, cap: nat)
    requires 0 < cap && x < 2 * cap
    ensures x % cap == if x < cap then x else x - cap
  {
    var q := x / cap;
    assert x == cap * q + x % cap;
    assert q >= 2 ==> cap * q >= cap * 2;
  }

  lemma SlotIs(head: nat, i: nat, cap: nat)
    requires head < cap && i <= cap
    ensures Slot(head, i, cap) == if head + i < cap then head + i else head + i - cap
  {
    ModOnce(head + i, cap);
  }

  /** Moving the head on by one. */
  lemma SlotShift(head: nat, i: nat, cap: nat)
    requires head < cap && i < cap
    ensures Slot(head, 1, cap) < cap && Slot(Slot(head, 1, cap), i, cap) == Slot(head, i + 1, cap)
  {
    SlotIs(head, 1, cap);
    SlotIs(head, i + 1, cap);
    SlotIs(Slot(head, 1, cap), i, cap);
  }

  lemma SlotNext(head: nat, i: nat, cap: nat)
    requires head < cap && i < cap
    ensures Slot(Slot(head, i, cap), 1, cap) == Slot(head, i + 1, cap)
  {
    SlotIs(head, i, cap);
    SlotIs(head, i + 1, cap);
    SlotIs(Slot(head, i, cap), 1, cap);
  }

  lemma SlotsApart(head: nat, i: nat, j: nat, cap: nat)
    requires head < cap && i < cap && j < cap && i != j
    ensures Slot(head, i, cap) != Slot(head, j, cap)
  {
    SlotIs(head, i, cap);
    SlotIs(head, j, cap);
  }

  /** The `n` elements from `head` on, oldest first. */
  function Contents(buf: seq<Elem>, head: nat, n: nat): (s: seq<Elem>)
    requires |buf| > 0
    ensures |s| == n
  {
    seq(n, i requires 0 <= i < n => buf[Slot(head, i, |buf|)])
  }

  /** Storing into the slot after the last element leaves the contents alone, and appends once counted. */
  lemma ContentsAppend(buf: seq<Elem>, head: nat, n: nat, v: Elem)
    requires n < |buf| && head < |buf|
    ensures var buf' := buf[Slot(head, n, |buf|) := v];
      && Contents(buf', head, n) == Contents(buf, head, n)
      && Contents(buf', head, n + 1) == Contents(buf, head, n) + [v]
  {
    var buf' := buf[Slot(head, n, |buf|) := v];
    forall i | 0 <= i < n ensures buf'[Slot(head, i, |buf|)] == buf[Slot(head, i, |buf|)] {
      SlotsApart(head, i, n, |buf|);
    }
    var s, t := Contents(buf', head, n + 1), Contents(buf, head, n) + [v];
    assert forall i :: 0 <= i < n + 1 ==> s[i] == t[i];
  }

  lemma ContentsExtend(buf: seq<Elem>, head: nat, n: nat)
    requires n < |buf| && head < |buf|
    ensures Contents(buf, head, n + 1) == Contents(buf, head, n) + [buf[Slot(head, n, |buf|)]]
  {
    var s, t := Contents(buf, head, n + 1), Contents(buf, head, n) + [buf[Slot(head, n, |buf|)]];
    assert forall i :: 0 <= i < n + 1 ==> s[i] == t[i];
  }

  /** Moving the head on by one drops the oldest element. */
  lemma ContentsDrop(buf: seq<Elem>, head: nat, n: nat)
    requires 0 < n <= |buf| && head < |buf|
    ensures Contents(buf, head, n) == [buf[head]] + Contents(buf, Slot(head, 1, |buf|), n - 1)
  {
    SlotIs(head, 0, |buf|);
    forall i | 0 <= i < n - 1
      ensures Slot(Slot(head, 1, |buf|), i, |buf|) == Slot(head, i + 1, |buf|)
    {
      SlotShift(head, i, |buf|);
    }
    var s, t := Contents(buf, head, n), [buf[head]] + Contents(buf, Slot(head, 1, |buf|), n - 1);
    assert forall i :: 0 <= i < n ==> s[i] == t[i];
  }
}
