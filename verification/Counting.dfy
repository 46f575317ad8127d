/** Allocation bitmaps (FREE / TAKEN tables) and the counting facts behind "no space left". */
module Counting {

  /** Index of the first free entry at or after `i`; the length of the table when there is none. */
  function FirstFree(taken: seq<bool>, i: nat := 0): (k: nat)
    requires i <= |taken|
    ensures i <= k <= |taken|
    ensures k < |taken| ==> !taken[k]
    ensures forall j :: i <= j < k ==> taken[j]
    decreases |taken| - i
  {
    if i == |taken| || !taken[i] then i else FirstFree(taken, i + 1)
  }

  ghost function TakenSet(taken: seq<bool>): set<nat> {
    set k: nat | k < |taken| && taken[k]
  }

  /** The numbers smaller than `n`. */
  ghost function Below(n: nat): (s: set<nat>)
    ensures forall k: nat :: k in s <==> k < n
    ensures |s| == n
  {
    if n == 0 then {} else Below(n - 1) + {n - 1}
  }

  lemma SubsetSize<T>(a: set<T>, b: set<T>)
    requires a <= b
    ensures |a| <= |b|
    ensures |a| == |b| ==> a == b
  {
    assert b == a + (b - a);
    assert |b| == |a| + |b - a|;
  }

  /** The scan for a free entry fails exactly when as many entries are taken as there are. */
  lemma FullIffAllTaken(taken: seq<bool>)
    ensures |TakenSet(taken)| <= |taken|
    ensures FirstFree(taken) == |taken| <==> |TakenSet(taken)| == |taken|
  {
    SubsetSize(TakenSet(taken), Below(|taken|));
    var k := FirstFree(taken);
    if k == |taken| {
      assert TakenSet(taken) == Below(|taken|);
    } else {
      assert k in Below(|taken|) && k !in TakenSet(taken);
    }
  }

  /** An injective map has as many values as keys. */
  lemma {:induction false} InjectiveSize<K, V>(m: map<K, V>)
    requires forall x, y :: x in m && y in m && x != y ==> m[x] != m[y]
    ensures |m.Values| == |m.Keys|
    decreases |m|
  {
    if m.Keys != {} {
      var k :| k in m.Keys;
      var rest := m - {k};
      assert rest.Keys == m.Keys - {k};
      InjectiveSize(rest);
      forall v | v in m.Values ensures v in rest.Values + {m[k]} {
        var x :| x in m && m[x] == v;
        assert x == k || (x in rest && rest[x] == v);
      }
      forall v | v in rest.Values ensures v in m.Values && v != m[k] {
        var x :| x in rest && rest[x] == v;
        assert m[x] == v;
      }
      assert m.Values == rest.Values + {m[k]};
    } else {
      assert m.Values == {};
    }
  }

  /**
   When the entries of `m` are in one-to-one correspondence with the taken entries of a
   table other than `own`, the table is full exactly when `m` is one short of its size.
   */
  lemma FullByCount<K>(m: map<K, int>, taken: seq<bool>, own: nat)
    requires own < |taken| && taken[own]
    requires forall x, y :: x in m && y in m && x != y ==> m[x] != m[y]
    requires forall x :: x in m ==> 0 <= m[x] < |taken| && m[x] != own && taken[m[x]]
    requires forall k :: 0 <= k < |taken| && taken[k] && k != own ==> k in m.Values
    ensures |TakenSet(taken)| == |m| + 1 <= |taken|
    ensures FirstFree(taken) == |taken| <==> |m| == |taken| - 1
  {
    InjectiveSize(m);
    var others: set<int> := TakenSet(taken) - {own};
    assert m.Values == others;
    assert TakenSet(taken) == TakenSet(taken) - {own} + {own};
    FullIffAllTaken(taken);
  }

  /** Smallest number not in `used`, searching below `limit` (the result is `limit` when all are used). */
  function Lowest(used: set<nat>, limit: nat, i: nat := 0): (k: nat)
    requires i <= limit
    ensures i <= k <= limit
    ensures k < limit ==> k !in used
    ensures forall j :: i <= j < k ==> j in used
    decreases limit - i
  {
    if i == limit || i !in used then i else Lowest(used, limit, i + 1)
  }

  /** The table scan and the abstract search find the same number. */
  lemma FirstFreeIsLowest(taken: seq<bool>)
    ensures FirstFree(taken) == Lowest(TakenSet(taken), |taken|)
  {
    var k, l := FirstFree(taken), Lowest(TakenSet(taken), |taken|);
    assert k < l ==> k in TakenSet(taken);
    assert l < k ==> l in TakenSet(taken);
  }
}
