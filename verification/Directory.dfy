/**
 The directory held in one data block: an array of `dir_entry_t`, each 40 bytes of
 name followed by a 32-bit inumber, decoded from the bytes of the block.
 */
module Directory {
  import opened Bytes
  import opened CString
  import opened Counting

  const ENTRY_SIZE := 44

  datatype Option<T> = None | Some(value: T)

  function MaxEntries(blk: seq<byte>): nat {
    |blk| / ENTRY_SIZE
  }

  /** `dir_entry[i].d_name` */
  function Field(blk: seq<byte>, i: nat): (f: seq<byte>)
    requires i < MaxEntries(blk)
    ensures |f| == MAX_FILE_NAME
  {
    blk[ENTRY_SIZE * i..ENTRY_SIZE * i + MAX_FILE_NAME]
  }

  /** `dir_entry[i].d_inumber` */
  function Inum(blk: seq<byte>, i: nat): (v: int)
    requires i < MaxEntries(blk)
    ensures -INT_LIMIT <= v < INT_LIMIT
  {
    DecodeInt(blk[ENTRY_SIZE * i + MAX_FILE_NAME..ENTRY_SIZE * i + ENTRY_SIZE])
  }

  function SetInum(blk: seq<byte>, i: nat, v: int): (r: seq<byte>)
    requires i < MaxEntries(blk) && -INT_LIMIT <= v < INT_LIMIT
    ensures |r| == |blk|
  {
    Put(blk, ENTRY_SIZE * i + MAX_FILE_NAME, EncodeInt(v))
  }

  function SetField(blk: seq<byte>, i: nat, f: seq<byte>): (r: seq<byte>)
    requires i < MaxEntries(blk) && |f| == MAX_FILE_NAME
    ensures |r| == |blk|
  {
    Put(blk, ENTRY_SIZE * i, f)
  }

  // ----- the operations of fs/state.c on a directory block -----

  /** A fresh directory: only the inumbers of slots `i` onwards are written, their names stay arbitrary. */
  function Fresh(blk: seq<byte>, i: nat := 0): (r: seq<byte>)
    requires i <= MaxEntries(blk)
    ensures |r| == |blk|
    decreases MaxEntries(blk) - i
  {
    if i == MaxEntries(blk) then blk else Fresh(SetInum(blk, i, -1), i + 1)
  }

  /** First slot, from `i` on, whose inumber is not -1 and whose name passes the bounded comparison. */
  function FindSlot(blk: seq<byte>, name: cstring, i: nat := 0): (k: nat)
    requires i <= MaxEntries(blk)
    ensures i <= k <= MaxEntries(blk)
    decreases MaxEntries(blk) - i
  {
    if i == MaxEntries(blk) || (Inum(blk, i) != -1 && StrncmpZero(Field(blk, i), Memory(name), MAX_FILE_NAME)) then i
    else FindSlot(blk, name, i + 1)
  }

  function Find(blk: seq<byte>, name: cstring): int {
    var k := FindSlot(blk, name);
    if k == MaxEntries(blk) then -1 else Inum(blk, k)
  }

  /** First slot, from `i` on, whose inumber is -1. */
  function FreeSlot(blk: seq<byte>, i: nat := 0): (k: nat)
    requires i <= MaxEntries(blk)
    ensures i <= k <= MaxEntries(blk)
    ensures k < MaxEntries(blk) ==> Inum(blk, k) == -1
    ensures forall j :: i <= j < k ==> Inum(blk, j) != -1
    decreases MaxEntries(blk) - i
  {
    if i == MaxEntries(blk) || Inum(blk, i) == -1 then i else FreeSlot(blk, i + 1)
  }

  function Add(blk: seq<byte>, name: cstring, inum: int): Option<seq<byte>>
    requires -INT_LIMIT <= inum < INT_LIMIT
  {
    if |name| == 0 || |name| > MAX_FILE_NAME - 1 then None
    else
      var k := FreeSlot(blk);
      if k == MaxEntries(blk) then None else Some(SetField(SetInum(blk, k, inum), k, NameField(name)))
  }

  /** First slot, from `i` on, whose name passes the unbounded comparison, live or not. */
  function ClearSlot(blk: seq<byte>, name: cstring, i: nat := 0): (k: nat)
    requires i <= MaxEntries(blk)
    ensures i <= k <= MaxEntries(blk)
    decreases MaxEntries(blk) - i
  {
    if i == MaxEntries(blk) || StrcmpZero(blk[ENTRY_SIZE * i..], Memory(name)) then i
    else ClearSlot(blk, name, i + 1)
  }

  function Clear(blk: seq<byte>, name: cstring): Option<seq<byte>> {
    var k := ClearSlot(blk, name);
    if k == MaxEntries(blk) then None
    else Some(SetField(SetInum(blk, k, -1), k, Zeros(MAX_FILE_NAME)))
  }

  // ----- the decoded directory and its invariant -----

  /** A decoded entry; `Garbage` stands for a name field without a terminator. */
  datatype Text = Garbage | Text(s: cstring)
  datatype Slot = Slot(text: Text, inum: int) {
    predicate Live() {
      inum != -1
    }

    /** Holds an entry: a terminated, non-empty name and an inumber. */
    predicate Named() {
      0 <= inum < INT_LIMIT && text.Text? && text.s != []
    }

    /** Held an entry once, and was cleared. */
    predicate Vacated() {
      this == Slot(Text([]), -1)
    }

    predicate Holds(name: cstring) {
      Live() && text == Text(name)
    }
  }

  function Decode(f: seq<byte>): Text {
    if Terminated(f) then Text(Name(f)) else Garbage
  }

  function Slots(blk: seq<byte>): (s: seq<Slot>)
    ensures |s| == MaxEntries(blk)
  {
    seq(MaxEntries(blk), i requires 0 <= i < MaxEntries(blk) => Slot(Decode(Field(blk, i)), Inum(blk, i)))
  }

  /** The names and the inumbers of live slots are pairwise distinct. */
  ghost predicate Distinct(slots: seq<Slot>) {
    forall i, j :: 0 <= i < |slots| && 0 <= j < |slots| && i != j && slots[i].Live() && slots[j].Live() ==>
      slots[i].inum != slots[j].inum && slots[i].text != slots[j].text
  }

  /**
   The first `used` slots are those that ever held an entry.  Each of them is live or holds
   the empty name; the slots after them are free and their names were never written.
   */
  ghost predicate Valid(slots: seq<Slot>, used: nat) {
    && used <= |slots|
    && (forall i :: 0 <= i < used ==> slots[i].Named() || slots[i].Vacated())
    && (forall i :: used <= i < |slots| ==> !slots[i].Live())
    && Distinct(slots)
  }

  ghost predicate HeldBySome(slots: seq<Slot>, name: cstring) {
    exists i :: 0 <= i < |slots| && slots[i].Holds(name)
  }

  /** `m` maps the name of every live slot to its inumber, and no other name. */
  ghost predicate Represents(slots: seq<Slot>, m: map<cstring, int>) {
    && (forall i :: 0 <= i < |slots| && slots[i].Live() && slots[i].text.Text? ==>
          slots[i].text.s in m && m[slots[i].text.s] == slots[i].inum)
    && (forall n {:trigger HeldBySome(slots, n)} :: n in m ==> HeldBySome(slots, n))
  }

  lemma {:induction false} Representable(slots: seq<Slot>)
    requires Distinct(slots)
    ensures exists m :: Represents(slots, m)
  {
    if slots == [] {
      assert Represents(slots, map[]);
    } else {
      var last := |slots| - 1;
      var front, s := slots[..last], slots[last];
      Representable(front);
      var m :| Represents(front, m);
      assert forall i :: 0 <= i < last ==> slots[i] == front[i];
      var m' := if s.Live() && s.text.Text? then m[s.text.s := s.inum] else m;
      forall n | n in m' ensures HeldBySome(slots, n) {
        if s.Holds(n) {
          assert slots[last].Holds(n);
        } else {
          assert HeldBySome(front, n);
          var i :| 0 <= i < |front| && front[i].Holds(n);
          assert slots[i].Holds(n);
        }
      }
      assert Represents(slots, m');
    }
  }

  /** The directory as a map from names to inumbers. */
  ghost function Entries(slots: seq<Slot>): map<cstring, int> {
    if exists m :: Represents(slots, m) then
      var m :| Represents(slots, m);
      m
    else map[]
  }

  lemma EntriesRepresents(slots: seq<Slot>)
    requires Distinct(slots)
    ensures Represents(slots, Entries(slots))
  {
    Representable(slots);
  }

  lemma RepresentsUnique(slots: seq<Slot>, m: map<cstring, int>)
    requires Represents(slots, m)
    ensures m == Entries(slots)
  {
    var e := Entries(slots);
    assert Represents(slots, e);
    assert forall n :: n in m ==> HeldBySome(slots, n);
    assert forall n :: n in e ==> HeldBySome(slots, n);
  }

  lemma EntriesInjective(slots: seq<Slot>, used: nat)
    requires Valid(slots, used)
    ensures var m := Entries(slots);
      && (forall n :: n in m ==> n != [] && 0 <= m[n] < INT_LIMIT)
      && (forall n, p :: n in m && p in m && n != p ==> m[n] != m[p])
  {
    EntriesRepresents(slots);
    RepresentsInjective(slots, used, Entries(slots));
  }

  lemma RepresentsInjective(slots: seq<Slot>, used: nat, m: map<cstring, int>)
    requires Valid(slots, used) && Represents(slots, m)
    ensures forall n :: n in m ==> n != [] && 0 <= m[n] < INT_LIMIT
    ensures forall n, p :: n in m && p in m && n != p ==> m[n] != m[p]
  {
    forall n | n in m ensures n != [] && 0 <= m[n] < INT_LIMIT {
      assert HeldBySome(slots, n);
      var i :| 0 <= i < |slots| && slots[i].Holds(n);
    }
    forall n, p | n in m && p in m && n != p ensures m[n] != m[p] {
      assert HeldBySome(slots, n) && HeldBySome(slots, p);
      var i :| 0 <= i < |slots| && slots[i].Holds(n);
      var j :| 0 <= j < |slots| && slots[j].Holds(p);
    }
  }

  // ----- what the byte operations do to the decoded directory -----

  /** Storing an inumber changes that inumber and nothing else in the directory. */
  lemma SetInumSlots(blk: seq<byte>, i: nat, v: int)
    requires i < MaxEntries(blk) && -INT_LIMIT <= v < INT_LIMIT
    ensures Slots(SetInum(blk, i, v)) == Slots(blk)[i := Slots(blk)[i].(inum := v)]
  {
    var r := SetInum(blk, i, v);
    IntRoundTrip(v);
    assert r[ENTRY_SIZE * i + MAX_FILE_NAME..ENTRY_SIZE * i + ENTRY_SIZE] == EncodeInt(v);
    forall j: nat | j < MaxEntries(blk)
      ensures Field(r, j) == Field(blk, j) && (j != i ==> Inum(r, j) == Inum(blk, j))
    {
      PutElsewhere(blk, ENTRY_SIZE * i + MAX_FILE_NAME, EncodeInt(v), ENTRY_SIZE * j, ENTRY_SIZE * j + MAX_FILE_NAME);
      if j != i {
        PutElsewhere(blk, ENTRY_SIZE * i + MAX_FILE_NAME, EncodeInt(v),
                     ENTRY_SIZE * j + MAX_FILE_NAME, ENTRY_SIZE * j + ENTRY_SIZE);
      }
    }
  }

  /** Storing a name changes that name and nothing else in the directory. */
  lemma SetFieldSlots(blk: seq<byte>, i: nat, f: seq<byte>)
    requires i < MaxEntries(blk) && |f| == MAX_FILE_NAME
    ensures Slots(SetField(blk, i, f)) == Slots(blk)[i := Slots(blk)[i].(text := Decode(f))]
  {
    var r := SetField(blk, i, f);
    assert r[ENTRY_SIZE * i..ENTRY_SIZE * i + MAX_FILE_NAME] == f;
    forall j: nat | j < MaxEntries(blk)
      ensures Inum(r, j) == Inum(blk, j) && (j != i ==> Field(r, j) == Field(blk, j))
    {
      PutElsewhere(blk, ENTRY_SIZE * i, f, ENTRY_SIZE * j + MAX_FILE_NAME, ENTRY_SIZE * j + ENTRY_SIZE);
      if j != i {
        PutElsewhere(blk, ENTRY_SIZE * i, f, ENTRY_SIZE * j, ENTRY_SIZE * j + MAX_FILE_NAME);
      }
    }
  }

  lemma {:induction false} FreshFrom(blk: seq<byte>, i: nat)
    requires i <= MaxEntries(blk)
    ensures forall j :: i <= j < MaxEntries(blk) ==> !Slots(Fresh(blk, i))[j].Live()
    ensures Slots(Fresh(blk, i))[..i] == Slots(blk)[..i]
    decreases MaxEntries(blk) - i
  {
    if i < MaxEntries(blk) {
      SetInumSlots(blk, i, -1);
      FreshFrom(SetInum(blk, i, -1), i + 1);
      assert Slots(Fresh(blk, i))[i] == Slots(Fresh(blk, i))[..i + 1][i];
    }
  }

  /** Whatever bytes the block held, `inode_create` leaves an empty directory. */
  lemma FreshIsEmpty(blk: seq<byte>)
    ensures Valid(Slots(Fresh(blk)), 0) && Entries(Slots(Fresh(blk))) == map[]
  {
    FreshFrom(blk, 0);
    RepresentsUnique(Slots(Fresh(blk)), map[]);
  }

  lemma {:induction false} FindSlotFrom(blk: seq<byte>, used: nat, name: cstring, i: nat)
    requires Valid(Slots(blk), used) && i <= MaxEntries(blk)
    ensures var k := FindSlot(blk, name, i);
      if k < MaxEntries(blk) then Slots(blk)[k].Holds(name)
      else forall j :: i <= j < MaxEntries(blk) ==> !Slots(blk)[j].Holds(name)
    decreases MaxEntries(blk) - i
  {
    if i < MaxEntries(blk) {
      assert Slots(blk)[i].Live() ==> Slots(blk)[i].Named();
      if Slots(blk)[i].Live() {
        StrncmpDecides(Field(blk, i), name, MAX_FILE_NAME);
      }
      FindSlotFrom(blk, used, name, i + 1);
    }
  }

  /** `find_in_dir` is the lookup in the map, for query strings of any length. */
  lemma FindIsLookup(blk: seq<byte>, used: nat, name: cstring)
    requires Valid(Slots(blk), used)
    ensures Find(blk, name) == if name in Entries(Slots(blk)) then Entries(Slots(blk))[name] else -1
  {
    EntriesRepresents(Slots(blk));
    FindSlotFrom(blk, used, name, 0);
    var k := FindSlot(blk, name);
    assert HeldBySome(Slots(blk), name) <==> k < MaxEntries(blk);
    assert k < MaxEntries(blk) ==> Slots(blk)[k].inum == Entries(Slots(blk))[name];
  }

  ghost function LiveFlags(slots: seq<Slot>): (l: seq<bool>)
    ensures |l| == |slots| && forall i :: 0 <= i < |l| ==> l[i] == slots[i].Live()
  {
    seq(|slots|, i requires 0 <= i < |slots| => slots[i].Live())
  }

  lemma RepresentsSize(slots: seq<Slot>, used: nat, m: map<cstring, int>)
    requires Valid(slots, used) && Represents(slots, m)
    ensures |m| == |TakenSet(LiveFlags(slots))|
  {
    var inumOf := map i: nat | i in TakenSet(LiveFlags(slots)) :: slots[i].inum;
    assert inumOf.Keys == TakenSet(LiveFlags(slots));
    RepresentsInjective(slots, used, m);
    InjectiveSize(m);
    InjectiveSize(inumOf);
    forall v | v in m.Values ensures v in inumOf.Values {
      var n :| n in m && m[n] == v;
      assert HeldBySome(slots, n);
      var i: nat :| i < |slots| && slots[i].Holds(n);
      assert i in inumOf && inumOf[i] == v;
    }
    forall v | v in inumOf.Values ensures v in m.Values {
      var i :| i in inumOf && inumOf[i] == v;
      assert slots[i].Named() && m[slots[i].text.s] == v;
    }
    assert m.Values == inumOf.Values;
  }

  /** The map has one entry per live slot. */
  lemma RepresentsFull(slots: seq<Slot>, used: nat, m: map<cstring, int>)
    requires Valid(slots, used) && Represents(slots, m)
    ensures |m| <= |slots|
    ensures |m| == |slots| <==> forall i :: 0 <= i < |slots| ==> slots[i].Live()
  {
    RepresentsSize(slots, used, m);
    FullIffAllTaken(LiveFlags(slots));
    var k := FirstFree(LiveFlags(slots));
    assert k < |slots| ==> !slots[k].Live();
  }

  /** The high-water mark of a directory that looks like `slots` after it was `used`. */
  function NextMark(used: nat, slots: seq<Slot>): nat {
    if used < |slots| && slots[used].Live() then used + 1 else used
  }

  lemma FillSlot(slots: seq<Slot>, used: nat, k: nat, s: Slot, m: map<cstring, int>)
    requires Valid(slots, used) && Represents(slots, m)
    requires k < |slots| && !slots[k].Live() && s.Named()
    requires forall j :: 0 <= j < k ==> slots[j].Live()
    requires s.text.s !in m && s.inum !in m.Values
    ensures Valid(slots[k := s], NextMark(used, slots[k := s]))
    ensures Represents(slots[k := s], m[s.text.s := s.inum])
  {
    var r, m' := slots[k := s], m[s.text.s := s.inum];
    assert used < |slots| ==> !slots[used].Live();
    forall i | 0 <= i < |slots| && slots[i].Live() ensures slots[i].inum != s.inum && slots[i].text != s.text {
      assert slots[i].Named();
    }
    forall n | n in m' ensures HeldBySome(r, n) {
      if n == s.text.s {
        assert r[k].Holds(n);
      } else {
        assert HeldBySome(slots, n);
        var i :| 0 <= i < |slots| && slots[i].Holds(n);
        assert r[i].Holds(n);
      }
    }
  }

  /** Filling in both parts of slot `k`. */
  lemma SetSlot(blk: seq<byte>, k: nat, inum: int, f: seq<byte>)
    requires k < MaxEntries(blk) && |f| == MAX_FILE_NAME && -INT_LIMIT <= inum < INT_LIMIT
    ensures Slots(SetField(SetInum(blk, k, inum), k, f)) == Slots(blk)[k := Slot(Decode(f), inum)]
  {
    SetInumSlots(blk, k, inum);
    SetFieldSlots(SetInum(blk, k, inum), k, f);
  }

  lemma FreeSlotIsFirst(blk: seq<byte>)
    ensures var k := FreeSlot(blk);
      && (k < MaxEntries(blk) ==> !Slots(blk)[k].Live())
      && (forall j :: 0 <= j < k ==> Slots(blk)[j].Live())
  {
  }

  lemma AddSlots(blk: seq<byte>, name: cstring, inum: nat)
    requires inum < INT_LIMIT
    ensures Add(blk, name, inum).Some? <==> 1 <= |name| <= MAX_FILE_NAME - 1 && FreeSlot(blk) < MaxEntries(blk)
    ensures Add(blk, name, inum).Some? ==>
      Slots(Add(blk, name, inum).value) == Slots(blk)[FreeSlot(blk) := Slot(Text(name), inum)]
  {
    if Add(blk, name, inum).Some? {
      NameFieldRoundTrip(name);
      SetSlot(blk, FreeSlot(blk), inum, NameField(name));
    }
  }

  /** `add_dir_entry` adds the entry, or fails and changes nothing. */
  lemma AddIsUpdate(blk: seq<byte>, used: nat, name: cstring, inum: nat)
    requires Valid(Slots(blk), used) && inum < INT_LIMIT
    requires name !in Entries(Slots(blk)) && inum !in Entries(Slots(blk)).Values
    ensures Add(blk, name, inum).Some? <==>
      1 <= |name| <= MAX_FILE_NAME - 1 && |Entries(Slots(blk))| < MaxEntries(blk)
    ensures Add(blk, name, inum).Some? ==>
      var r := Add(blk, name, inum).value;
      && |r| == |blk|
      && Valid(Slots(r), NextMark(used, Slots(r)))
      && Entries(Slots(r)) == Entries(Slots(blk))[name := inum]
  {
    var slots, m, k, s := Slots(blk), Entries(Slots(blk)), FreeSlot(blk), Slot(Text(name), inum);
    EntriesRepresents(slots);
    RepresentsFull(slots, used, m);
    FreeSlotIsFirst(blk);
    AddSlots(blk, name, inum);
    if Add(blk, name, inum).Some? {
      FillSlot(slots, used, k, s, m);
      RepresentsUnique(slots[k := s], m[name := inum]);
    }
  }

  /** On a terminated name both comparisons of the code decide equality. */
  lemma SlotDecides(blk: seq<byte>, name: cstring, i: nat)
    requires i < MaxEntries(blk) && Terminated(Field(blk, i))
    ensures StrcmpZero(blk[ENTRY_SIZE * i..], Memory(name)) <==> Name(Field(blk, i)) == name
    ensures StrncmpZero(Field(blk, i), Memory(name), MAX_FILE_NAME) <==> Name(Field(blk, i)) == name
  {
    var rest := blk[ENTRY_SIZE * i..];
    assert rest[..MAX_FILE_NAME] == Field(blk, i);
    NameOfPrefix(rest, MAX_FILE_NAME);
    StrcmpDecides(rest, name);
    StrncmpDecides(Field(blk, i), name, MAX_FILE_NAME);
  }

  lemma {:induction false} ClearSlotFrom(blk: seq<byte>, name: cstring, i: nat, k: nat)
    requires i <= k < MaxEntries(blk) && Slots(blk)[k].Holds(name)
    requires forall j :: i <= j < k ==> Slots(blk)[j].text.Text? && Slots(blk)[j].text.s != name
    ensures ClearSlot(blk, name, i) == FindSlot(blk, name, i) == k
    decreases k - i
  {
    assert Slots(blk)[i].text.Text?;
    SlotDecides(blk, name, i);
    if i < k {
      ClearSlotFrom(blk, name, i + 1, k);
    }
  }

  /**
   The slot that `clear_dir_entry` picks by name alone is the live slot that `find_in_dir`
   found.  Every name compared on the way is terminated inside its own field, so no
   never-written name is read.
   */
  lemma ClearHitsFoundSlot(blk: seq<byte>, used: nat, name: cstring)
    requires Valid(Slots(blk), used) && name in Entries(Slots(blk))
    ensures var k := ClearSlot(blk, name);
      && k == FindSlot(blk, name) < used
      && Slots(blk)[k].Holds(name)
      && (forall i :: 0 <= i <= k ==> Terminated(Field(blk, i)))
  {
    EntriesRepresents(Slots(blk));
    EntriesInjective(Slots(blk), used);
    assert HeldBySome(Slots(blk), name);
    var k :| 0 <= k < MaxEntries(blk) && Slots(blk)[k].Holds(name);
    forall i | 0 <= i <= k ensures Terminated(Field(blk, i)) && (i < k ==> Slots(blk)[i].text != Text(name)) {
      assert Slots(blk)[i].Named() || Slots(blk)[i].Vacated();
    }
    ClearSlotFrom(blk, name, 0, k);
  }

  lemma VacateSlot(slots: seq<Slot>, used: nat, k: nat, name: cstring, m: map<cstring, int>)
    requires Valid(slots, used) && Represents(slots, m)
    requires k < |slots| && slots[k].Holds(name)
    ensures Valid(slots[k := Slot(Text([]), -1)], used)
    ensures Represents(slots[k := Slot(Text([]), -1)], m - {name})
  {
    var r := slots[k := Slot(Text([]), -1)];
    forall n | n in m - {name} ensures HeldBySome(r, n) {
      assert HeldBySome(slots, n);
      var i :| 0 <= i < |slots| && slots[i].Holds(n);
      assert r[i].Holds(n);
    }
  }

  lemma ClearSlots(blk: seq<byte>, name: cstring)
    requires ClearSlot(blk, name) < MaxEntries(blk)
    ensures Clear(blk, name).Some? && |Clear(blk, name).value| == |blk|
    ensures Slots(Clear(blk, name).value) == Slots(blk)[ClearSlot(blk, name) := Slot(Text([]), -1)]
  {
    SetSlot(blk, ClearSlot(blk, name), -1, Zeros(MAX_FILE_NAME));
    NulUnique(Zeros(MAX_FILE_NAME), 0);
  }

  /** `clear_dir_entry` on an existing name removes exactly that name. */
  lemma ClearIsRemove(blk: seq<byte>, used: nat, name: cstring)
    requires Valid(Slots(blk), used) && name in Entries(Slots(blk))
    ensures Clear(blk, name).Some?
    ensures var r := Clear(blk, name).value;
      |r| == |blk| && Valid(Slots(r), used) && Entries(Slots(r)) == Entries(Slots(blk)) - {name}
  {
    var slots, m, k := Slots(blk), Entries(Slots(blk)), ClearSlot(blk, name);
    EntriesRepresents(slots);
    ClearHitsFoundSlot(blk, used, name);
    ClearSlots(blk, name);
    VacateSlot(slots, used, k, name, m);
    RepresentsUnique(slots[k := Slot(Text([]), -1)], m - {name});
  }

  /** A slot that was just cleared is found again for another name. */
  lemma ClearThenAdd(blk: seq<byte>, used: nat, name: cstring, next: cstring, inum: nat)
    requires Valid(Slots(blk), used) && name in Entries(Slots(blk)) && Entries(Slots(blk))[name] == inum < INT_LIMIT
    requires next !in Entries(Slots(blk)) && 1 <= |next| <= MAX_FILE_NAME - 1
    ensures Clear(blk, name).Some?
    ensures var r := Add(Clear(blk, name).value, next, inum);
      r.Some? && |r.value| == |blk| && next in Entries(Slots(r.value)) && Entries(Slots(r.value))[next] == inum
  {
    var m := Entries(Slots(blk));
    ClearIsRemove(blk, used, name);
    EntriesRepresents(Slots(blk));
    EntriesInjective(Slots(blk), used);
    RepresentsFull(Slots(blk), used, m);
    assert m.Keys == (m - {name}).Keys + {name};
    AddIsUpdate(Clear(blk, name).value, used, next, inum);
  }
}
