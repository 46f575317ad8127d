/** How the table invariants survive the updates that the operations make. */
module TableUpdates {
  import opened Bytes
  import opened CString
  import opened Disk
  import opened DiskInvariant

  const NEW_FILE := Inode(TFile, 0, -1)

  // ----- block ownership -----

  lemma BlocksNew(inodes: seq<Inode>, taken: seq<bool>, blockTaken: seq<bool>, size: nat, k: nat)
    requires BlocksOk(inodes, taken, blockTaken, size) && k < |taken| && !taken[k]
    ensures BlocksOk(inodes[k := NEW_FILE], taken[k := true], blockTaken, size)
  {
    var inodes', taken' := inodes[k := NEW_FILE], taken[k := true];
    forall b | 0 <= b < |blockTaken| && blockTaken[b] ensures HasOwner(inodes', taken', b) {
      assert HasOwner(inodes, taken, b);
      var l :| Owns(inodes, taken, l, b);
      assert Owns(inodes', taken', l, b);
    }
  }

  /** The fields of a free inode do not matter. */
  lemma BlocksFreeInode(inodes: seq<Inode>, taken: seq<bool>, blockTaken: seq<bool>, size: nat, k: nat, inode: Inode)
    requires BlocksOk(inodes, taken, blockTaken, size) && k < |taken| && !taken[k]
    ensures BlocksOk(inodes[k := inode], taken, blockTaken, size)
  {
    forall b | 0 <= b < |blockTaken| && blockTaken[b] ensures HasOwner(inodes[k := inode], taken, b) {
      assert HasOwner(inodes, taken, b);
      var l :| Owns(inodes, taken, l, b);
      assert Owns(inodes[k := inode], taken, l, b);
    }
  }

  lemma BlocksTruncate(inodes: seq<Inode>, taken: seq<bool>, blockTaken: seq<bool>, size: nat, k: nat)
    requires BlocksOk(inodes, taken, blockTaken, size) && Owner(inodes, taken, k)
    ensures BlocksOk(inodes[k := inodes[k].(size := 0)], taken, blockTaken[inodes[k].block := false], size)
  {
    var inodes' := inodes[k := inodes[k].(size := 0)];
    forall b | 0 <= b < |blockTaken| && blockTaken[b] && b != inodes[k].block
      ensures HasOwner(inodes', taken, b)
    {
      assert HasOwner(inodes, taken, b);
      var l :| Owns(inodes, taken, l, b);
      assert Owns(inodes', taken, l, b);
    }
  }

  function AfterDelete(inode: Inode, blockTaken: seq<bool>): seq<bool> {
    if inode.size > 0 && 0 <= inode.block < |blockTaken| then blockTaken[inode.block := false] else blockTaken
  }

  lemma BlocksDelete(inodes: seq<Inode>, taken: seq<bool>, blockTaken: seq<bool>, size: nat, k: nat)
    requires BlocksOk(inodes, taken, blockTaken, size) && k < |taken| && taken[k]
    ensures BlocksOk(inodes, taken[k := false], AfterDelete(inodes[k], blockTaken), size)
  {
    var taken', blockTaken' := taken[k := false], AfterDelete(inodes[k], blockTaken);
    assert inodes[k].size > 0 ==> Owner(inodes, taken, k);
    forall b | 0 <= b < |blockTaken| && blockTaken'[b] ensures HasOwner(inodes, taken', b) {
      assert HasOwner(inodes, taken, b);
      var l :| Owns(inodes, taken, l, b);
      assert Owns(inodes, taken', l, b);
    }
  }

  /** Inode `k` gets contents in block `b`, which is its own or was free. */
  lemma BlocksWrite(inodes: seq<Inode>, taken: seq<bool>, blockTaken: seq<bool>, size: nat, k: nat, b: nat, n: nat)
    requires BlocksOk(inodes, taken, blockTaken, size) && k < |taken| && taken[k]
    requires b < |blockTaken| && 0 < n <= size
    requires if inodes[k].size > 0 then b == inodes[k].block else !blockTaken[b]
    ensures BlocksOk(inodes[k := inodes[k].(size := n, block := b)], taken, blockTaken[b := true], size)
  {
    var inodes', blockTaken' := inodes[k := inodes[k].(size := n, block := b)], blockTaken[b := true];
    assert inodes[k].size > 0 ==> Owner(inodes, taken, k);
    assert Owns(inodes', taken, k, b);
    forall c | 0 <= c < |blockTaken| && blockTaken'[c] ensures HasOwner(inodes', taken, c) {
      if c != b {
        assert HasOwner(inodes, taken, c);
        var l :| Owns(inodes, taken, l, c);
        assert Owns(inodes', taken, l, c);
      }
    }
    assert forall l :: Owner(inodes', taken, l) && l != k ==> Owner(inodes, taken, l);
  }

  // ----- names -----

  lemma NamesNew(m: map<cstring, int>, taken: seq<bool>, name: cstring, k: nat)
    requires NamesOk(m, taken) && name !in m && k < |taken| && !taken[k]
    ensures NamesOk(m[name := k], taken[k := true])
  {
    var m' := m[name := k];
    forall l | 0 < l < |taken| && taken[k := true][l] ensures l in m'.Values {
      if l == k {
        assert m'[name] == k;
      } else {
        assert l in m.Values;
        var n :| n in m && m[n] == l;
        assert m'[n] == l;
      }
    }
  }

  lemma NamesDelete(m: map<cstring, int>, taken: seq<bool>, name: cstring)
    requires NamesOk(m, taken) && name in m
    ensures NamesOk(m - {name}, taken[m[name] := false])
  {
    forall l | 0 < l < |taken| && taken[l] && l != m[name] ensures l in (m - {name}).Values {
      assert l in m.Values;
      var n :| n in m && m[n] == l;
      assert (m - {name})[n] == l;
    }
  }
}
