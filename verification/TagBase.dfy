/** The tag database (src/server/tagbase.c): an array of slots that are never reused, and an index of
    the live ones sorted by name. */
module TagBase {
  import opened Common
  import opened Bits
  import opened Types
  import CdtText

  datatype Attr = ReadOnly | Retain | Owned

  /** An element of `_db`; a deleted tag has no data. */
  datatype Slot = Slot(name: string, typ: TagType, count: nat, fd: int, attr: set<Attr>, data: Option<seq<byte>>) {
    predicate Live() { data.Some? }
  }

  /** An element of `_index`. */
  datatype Entry = Entry(name: string, tagIdx: nat)

  // ---------------------------------------------------------------- strcmp

  function Compare(a: string, b: string): int {
    if a == [] then (if b == [] then 0 else -1)
    else if b == [] then 1
    else if a[0] != b[0] then (a[0] as int) - (b[0] as int)
    else Compare(a[1..], b[1..])
  }

  lemma {:induction false} CompareZero(a: string, b: string)
    ensures Compare(a, b) == 0 <==> a == b
    ensures Compare(a, b) < 0 <==> Compare(b, a) > 0
  {
    if a != [] && b != [] && a[0] == b[0] {
      CompareZero(a[1..], b[1..]);
      assert a == [a[0]] + a[1..] && b == [b[0]] + b[1..];
    }
  }

  lemma {:induction false} CompareTransitive(a: string, b: string, c: string)
    requires Compare(a, b) < 0 && Compare(b, c) < 0
    ensures Compare(a, c) < 0
  {
    if a != [] && b != [] && c != [] && a[0] == b[0] == c[0] {
      CompareTransitive(a[1..], b[1..], c[1..]);
    }
  }

  /** The order is that of the first characters that differ; a prefix comes first. */
  lemma {:induction false} CompareFirst(a: string, b: string, n: nat)
    requires n <= |a| && n <= |b| && a[..n] == b[..n]
    ensures n == |a| < |b| ==> Compare(a, b) < 0
    ensures n < |a| && n < |b| && a[n] < b[n] ==> Compare(a, b) < 0
  {
    if n > 0 {
      assert a[0] == a[..n][0] && b[0] == b[..n][0];
      assert a[1..][..n - 1] == a[..n][1..] && b[1..][..n - 1] == b[..n][1..];
      CompareFirst(a[1..], b[1..], n - 1);
    }
  }

  // ---------------------------------------------------------------- the index and the slots

  /** Neighbours are in order; with transitivity, all are. */
  ghost predicate Sorted(index: seq<Entry>) {
    forall i, j :: 0 <= i < j < |index| ==> Compare(index[i].name, index[j].name) < 0
  }

  ghost predicate Refers(slots: seq<Slot>, e: Entry) {
    e.tagIdx < |slots| && slots[e.tagIdx].Live() && slots[e.tagIdx].name == e.name
  }

  ghost predicate Indexed(index: seq<Entry>, i: nat) {
    exists k :: 0 <= k < |index| && index[k].tagIdx == i
  }

  function LiveCount(slots: seq<Slot>): nat {
    if slots == [] then 0 else LiveCount(slots[..|slots| - 1]) + (if slots[|slots| - 1].Live() then 1 else 0)
  }

  /** The index lists exactly the live slots, in the order of their names. */
  ghost predicate Consistent(slots: seq<Slot>, index: seq<Entry>) {
    && Sorted(index)
    && (forall k :: 0 <= k < |index| ==> Refers(slots, index[k]))
    && (forall i :: 0 <= i < |slots| && slots[i].Live() ==> Indexed(index, i))
    && |index| == LiveCount(slots)
  }

  /** The linear scan that a search by name stands for. */
  function Scan(slots: seq<Slot>, name: string): (r: int)
    ensures r == ERR_NOTFOUND || (0 <= r < |slots| && slots[r].Live() && slots[r].name == name)
    ensures r == ERR_NOTFOUND ==> forall i :: 0 <= i < |slots| && slots[i].Live() ==> slots[i].name != name
  {
    if slots == [] then ERR_NOTFOUND
    else if slots[|slots| - 1].Live() && slots[|slots| - 1].name == name then |slots| - 1
    else Scan(slots[..|slots| - 1], name)
  }

  /** Live slots have different names. */
  lemma UniqueNames(slots: seq<Slot>, index: seq<Entry>, i: nat, j: nat)
    requires Consistent(slots, index) && i < |slots| && j < |slots| && slots[i].Live() && slots[j].Live()
    requires slots[i].name == slots[j].name
    ensures i == j
  {
    assert Indexed(index, i) && Indexed(index, j);
    var a :| 0 <= a < |index| && index[a].tagIdx == i;
    var b :| 0 <= b < |index| && index[b].tagIdx == j;
    assert Refers(slots, index[a]) && Refers(slots, index[b]);
    CompareZero(slots[i].name, slots[i].name);
  }

  lemma ScanUnique(slots: seq<Slot>, index: seq<Entry>, i: nat)
    requires Consistent(slots, index) && i < |slots| && slots[i].Live()
    ensures Scan(slots, slots[i].name) == i
  {
    UniqueNames(slots, index, i, Scan(slots, slots[i].name));
  }

  // ---------------------------------------------------------------- bisection

  /** The part of an index entry that a binary search has excluded. */
  ghost predicate Bracket(index: seq<Entry>, name: string, min: int, max: int) {
    && 0 <= min <= max + 1 <= |index|
    && (forall k :: 0 <= k < min ==> Compare(index[k].name, name) < 0)
    && (forall k :: max < k < |index| ==> Compare(name, index[k].name) < 0)
  }

  /** The bisection loop shared by `_get_by_name`, `_add_index` and `_del_index`: the position of the
      name, or the position at which it belongs. */
  method Bisect(index: seq<Entry>, name: string) returns (found: bool, n: nat)
    requires Sorted(index)
    ensures n <= |index|
    ensures found ==> n < |index| && index[n].name == name
    ensures !found ==> Bracket(index, name, n, n - 1)
  {
    var min, max := 0, |index| - 1;
    while min <= max
      invariant Bracket(index, name, min, max)
    {
      var try := min + (max - min) / 2;
      var i := Compare(name, index[try].name);
      CompareZero(name, index[try].name);
      CompareZero(index[try].name, name);
      if i > 0 {
        ExcludeBelow(index, name, try);
        min := try + 1;
      } else if i < 0 {
        ExcludeAbove(index, name, try);
        max := try - 1;
      } else {
        return true, try;
      }
    }
    return false, min;
  }

  lemma ExcludeBelow(index: seq<Entry>, name: string, try: nat)
    requires Sorted(index) && try < |index| && Compare(index[try].name, name) < 0
    ensures forall k :: 0 <= k <= try ==> Compare(index[k].name, name) < 0
  {
    forall k | 0 <= k < try ensures Compare(index[k].name, name) < 0 {
      CompareTransitive(index[k].name, index[try].name, name);
    }
  }

  lemma ExcludeAbove(index: seq<Entry>, name: string, try: nat)
    requires Sorted(index) && try < |index| && Compare(name, index[try].name) < 0
    ensures forall k :: try <= k < |index| ==> Compare(name, index[k].name) < 0
  {
    forall k | try < k < |index| ensures Compare(name, index[k].name) < 0 {
      CompareTransitive(name, index[try].name, index[k].name);
    }
  }

  /** A name that fits between its neighbours is the name of no entry. */
  lemma Absent(index: seq<Entry>, name: string, n: nat)
    requires Bracket(index, name, n, n - 1)
    ensures forall k :: 0 <= k < |index| ==> index[k].name != name
  {
    CompareZero(name, name);
  }

  /** Bisection of the index and the linear scan of the slots find the same tag. */
  lemma SearchIsScan(slots: seq<Slot>, index: seq<Entry>, name: string, found: bool, n: nat)
    requires Consistent(slots, index)
    requires if found then n < |index| && index[n].name == name else Bracket(index, name, n, n - 1)
    ensures found <==> Scan(slots, name) >= 0
    ensures found ==> index[n].tagIdx == Scan(slots, name)
  {
    hide Compare, LiveCount;
    var s := Scan(slots, name);
    if found {
      assert Refers(slots, index[n]);
      ScanUnique(slots, index, index[n].tagIdx);
    } else {
      Absent(index, name, n);
      assert s >= 0 ==> Indexed(index, s);
      assert forall k :: 0 <= k < |index| ==> Refers(slots, index[k]);
    }
  }

  // ---------------------------------------------------------------- changing the index

  function Inserted(index: seq<Entry>, n: nat, e: Entry): seq<Entry>
    requires n <= |index|
  {
    index[..n] + [e] + index[n..]
  }

  function Removed(index: seq<Entry>, n: nat): seq<Entry>
    requires n < |index|
  {
    index[..n] + index[n + 1..]
  }

  lemma InsertSorted(index: seq<Entry>, n: nat, e: Entry)
    requires Sorted(index) && Bracket(index, e.name, n, n - 1)
    ensures Sorted(Inserted(index, n, e))
  {
    var after := Inserted(index, n, e);
    forall i, j | 0 <= i < j < |after| ensures Compare(after[i].name, after[j].name) < 0 {
      if i < n < j {
        CompareTransitive(index[i].name, e.name, index[j - 1].name);
      }
    }
  }

  lemma LiveCountSnoc(slots: seq<Slot>, s: Slot)
    ensures LiveCount(slots + [s]) == LiveCount(slots) + (if s.Live() then 1 else 0)
  {
    assert (slots + [s])[..|slots|] == slots;
  }

  lemma {:induction false} LiveCountUpdate(slots: seq<Slot>, i: nat, s: Slot)
    requires i < |slots|
    ensures LiveCount(slots[i := s]) + (if slots[i].Live() then 1 else 0)
            == LiveCount(slots) + (if s.Live() then 1 else 0)
  {
    var m := |slots| - 1;
    if i < m {
      LiveCountUpdate(slots[..m], i, s);
      assert slots[i := s][..m] == slots[..m][i := s];
    } else {
      assert slots[i := s][..m] == slots[..m];
    }
  }

  /** A new slot and its entry keep the index consistent. */
  lemma AddConsistent(slots: seq<Slot>, index: seq<Entry>, s: Slot, n: nat)
    requires Consistent(slots, index) && s.Live() && Bracket(index, s.name, n, n - 1)
    ensures Consistent(slots + [s], Inserted(index, n, Entry(s.name, |slots|)))
  {
    hide Compare, LiveCount;
    var e := Entry(s.name, |slots|);
    var after := Inserted(index, n, e);
    InsertSorted(index, n, e);
    hide Sorted;
    LiveCountSnoc(slots, s);
    forall k | 0 <= k < |after| ensures Refers(slots + [s], after[k]) {
      if k < n {
        assert Refers(slots, index[k]);
      } else if k > n {
        assert Refers(slots, index[k - 1]);
      }
    }
    forall i | 0 <= i < |slots + [s]| && (slots + [s])[i].Live() ensures Indexed(after, i) {
      if i == |slots| {
        assert after[n].tagIdx == i;
      } else {
        assert Indexed(index, i);
        var k :| 0 <= k < |index| && index[k].tagIdx == i;
        assert after[if k < n then k else k + 1].tagIdx == i;
      }
    }
  }

  /** Only entry `n` refers to the slot it names. */
  lemma OtherEntry(slots: seq<Slot>, index: seq<Entry>, n: nat, k: nat)
    requires Consistent(slots, index) && n < |index| && k < |index| && k != n
    ensures index[k].tagIdx != index[n].tagIdx
  {
    hide Compare;
    assert Refers(slots, index[n]) && Refers(slots, index[k]);
    CompareZero(index[n].name, index[k].name);
    if k < n {
      CompareZero(index[k].name, index[n].name);
    }
  }

  /** Emptying a slot and removing its entry keep the index consistent. */
  lemma DeleteConsistent(slots: seq<Slot>, index: seq<Entry>, i: nat, n: nat, dead: Slot)
    requires Consistent(slots, index) && i < |slots| && slots[i].Live() && !dead.Live()
    requires n < |index| && index[n].name == slots[i].name
    ensures Consistent(slots[i := dead], Removed(index, n))
  {
    hide Compare, LiveCount;
    var after := Removed(index, n);
    assert Refers(slots, index[n]);
    UniqueNames(slots, index, i, index[n].tagIdx);
    LiveCountUpdate(slots, i, dead);
    forall k | 0 <= k < |after| ensures Refers(slots[i := dead], after[k]) {
      var o := if k < n then k else k + 1;
      assert after[k] == index[o] && Refers(slots, index[o]);
      OtherEntry(slots, index, n, o);
    }
    forall j | 0 <= j < |slots| && slots[i := dead][j].Live() ensures Indexed(after, j) {
      assert Indexed(index, j);
      var k :| 0 <= k < |index| && index[k].tagIdx == j;
      assert after[if k < n then k else k - 1].tagIdx == j;
    }
    RemoveSorted(index, n);
  }

  lemma RemoveSorted(index: seq<Entry>, n: nat)
    requires Sorted(index) && n < |index|
    ensures Sorted(Removed(index, n))
  {
    hide Compare;
  }

  /** Replacing a live slot by one of the same name changes nothing for the index. */
  lemma UpdateConsistent(slots: seq<Slot>, index: seq<Entry>, i: nat, s: Slot)
    requires Consistent(slots, index) && i < |slots| && slots[i].Live() && s.Live() && s.name == slots[i].name
    ensures Consistent(slots[i := s], index)
  {
    LiveCountUpdate(slots, i, s);
    forall k | 0 <= k < |index| ensures Refers(slots[i := s], index[k]) {
      assert Refers(slots, index[k]);
    }
    forall j | 0 <= j < |slots| && slots[i := s][j].Live() ensures Indexed(index, j) {
      assert slots[j].Live();
    }
  }

  // ---------------------------------------------------------------- the operations on slots

  /** `_set_attribute`: the attributes a client may set. */
  function Granted(attr: set<Attr>): set<Attr> {
    if Retain in attr then {Retain}
    else if Owned in attr && ReadOnly in attr then {Owned, ReadOnly}
    else if Owned in attr then {Owned}
    else {}
  }

  /** A tag is retained, or else it may be owned, and read-only if it is owned. */
  lemma GrantedIs(attr: set<Attr>)
    ensures Granted(attr) <= attr
    ensures Retain in Granted(attr) <==> Retain in attr
    ensures Owned in Granted(attr) <==> Owned in attr && Retain !in attr
    ensures ReadOnly in Granted(attr) <==> ReadOnly in attr && Owned in attr && Retain !in attr
  {}

  /** `realloc`: the bytes beyond the old size are whatever the memory held. */
  function Realloc(data: seq<byte>, size: nat, junk: nat -> byte): seq<byte> {
    if size <= |data| then data[..size] else data + seq(size - |data|, junk)
  }

  function Zeros(size: nat): (s: seq<byte>)
    ensures |s| == size && forall k :: 0 <= k < size ==> s[k] == 0
  {
    seq(size, _ => 0)
  }

  datatype Request =
    | Add(fd: int, name: string, typ: TagType, count: nat, attr: set<Attr>, junk: nat -> byte)
    | Del(idx: int)

  /** The effect of `tag_add` or `tag_del` on the slots, and the answer. */
  ghost function Step(reg: Registry, slots: seq<Slot>, q: Request): (seq<Slot>, int)
    requires Sound(reg)
  {
    match q
    case Add(fd, name, typ, count, attr, junk) =>
      var n := Scan(slots, name);
      if count == 0 then (slots, ERR_ARG)
      else if !ValidType(reg, typ) then (slots, ERR_BADTYPE)
      else if !CdtText.ValidName(name) then (slots, ERR_TAG_BAD)
      else if n < 0 then
        (slots + [Slot(name, typ, count, fd, Granted(attr), Some(Zeros(TagBytes(reg, typ, count))))], |slots|)
      else
        var s := slots[n];
        if (Owned in s.attr && s.fd != fd) || s.typ != typ then (slots, ERR_TAG_DUPL)
        else if s.count >= count then (slots[n := s.(attr := s.attr + Granted(attr))], n)
        else
          var data := Some(Realloc(s.data.value, TagBytes(reg, typ, count), junk));
          (slots[n := s.(attr := s.attr + Granted(attr), count := count, data := data)], n)
    case Del(idx) =>
      if !(0 <= idx < |slots|) then (slots, ERR_ARG)
      else if !slots[idx].Live() then (slots, ERR_DELETED)
      else (slots[idx := slots[idx].(name := "", attr := {}, data := None)], 0)
  }

  /** Every live tag has as many bytes as its type and count call for. */
  ghost predicate Sized(reg: Registry, slots: seq<Slot>)
    requires Sound(reg)
  {
    forall i :: 0 <= i < |slots| && slots[i].Live() ==>
      ValidType(reg, slots[i].typ) && |slots[i].data.value| == TagBytes(reg, slots[i].typ, slots[i].count)
  }

  class Database {
    var slots: seq<Slot>
    var index: seq<Entry>
    var tagCount: nat
    var dbsize: nat

    ghost predicate Valid()
      reads this
    {
      Consistent(slots, index) && tagCount == |index| && |slots| <= dbsize && dbsize > 0
    }

    constructor (size: nat)
      requires size > 0
      ensures Valid() && slots == []
    {
      slots, index, tagCount, dbsize := [], [], 0, size;
    }

    /** `_get_by_name` */
    method GetByName(name: string) returns (r: int)
      requires Valid()
      ensures r == Scan(slots, name)
    {
      hide Compare, LiveCount;
      var found, n := Bisect(index, name);
      SearchIsScan(slots, index, name, found, n);
      return if found then index[n].tagIdx else ERR_NOTFOUND;
    }

    /** `tag_add` */
    method TagAdd(reg: Registry, fd: int, name: string, typ: TagType, count: nat, attr: set<Attr>, junk: nat -> byte)
      returns (r: int)
      requires Valid() && Sound(reg)
      modifies this
      ensures Valid()
      ensures (slots, r) == Step(reg, old(slots), Add(fd, name, typ, count, attr, junk))
    {
      hide Compare, LiveCount, Consistent, ElementBits, ArrayBits;
      if count == 0 {
        return ERR_ARG;
      }
      if |slots| >= dbsize {
        dbsize := 2 * dbsize;
      }
      if typ.Custom? && typ.index >= |reg| {
        return ERR_BADTYPE;
      }
      var code := CdtText.ValidateName(name);
      if code != 0 {
        return ERR_TAG_BAD;
      }
      var size := Size(reg, typ, count);
      r := GetByName(name);
      if r >= 0 {
        var s := slots[r];
        if Owned in s.attr && s.fd != fd {
          return ERR_TAG_DUPL;
        }
        if s.typ == typ && s.count >= count {
          Update(r, s.(attr := s.attr + Granted(attr)));
        } else if s.typ == typ {
          var data := Some(Realloc(s.data.value, size, junk));
          Update(r, s.(attr := s.attr + Granted(attr), count := count, data := data));
        } else {
          return ERR_TAG_DUPL;
        }
      } else {
        r := |slots|;
        AddSlot(Slot(name, typ, count, fd, Granted(attr), Some(Zeros(size))));
      }
    }

    /** The new slot and its place in the index (`_add_index`). */
    method AddSlot(s: Slot)
      requires Valid() && s.Live() && Scan(slots, s.name) < 0 && |slots| < dbsize
      modifies this
      ensures Valid() && slots == old(slots) + [s] && dbsize == old(dbsize)
    {
      hide Compare, LiveCount;
      var found, n := Bisect(index, s.name);
      SearchIsScan(slots, index, s.name, found, n);
      AddConsistent(slots, index, s, n);
      index := index[..n] + [Entry(s.name, |slots|)] + index[n..];
      slots := slots + [s];
      tagCount := tagCount + 1;
    }

    method Update(i: nat, s: Slot)
      requires Valid() && i < |slots| && slots[i].Live() && s.Live() && s.name == slots[i].name
      modifies this
      ensures Valid() && slots == old(slots)[i := s]
    {
      UpdateConsistent(slots, index, i, s);
      slots := slots[i := s];
    }

    /** `tag_del` */
    method TagDel(reg: Registry, idx: int) returns (r: int)
      requires Valid() && Sound(reg)
      modifies this
      ensures Valid()
      ensures (slots, r) == Step(reg, old(slots), Del(idx))
    {
      hide Compare, LiveCount;
      if idx >= |slots| || idx < 0 {
        return ERR_ARG;
      }
      if slots[idx].data.None? {
        return ERR_DELETED;
      }
      var found, n := Bisect(index, slots[idx].name);
      SearchIsScan(slots, index, slots[idx].name, found, n);
      ScanUnique(slots, index, idx);
      var dead := slots[idx].(name := "", attr := {}, data := None);
      DeleteConsistent(slots, index, idx, n, dead);
      index := index[..n] + index[n + 1..];
      slots := slots[idx := dead];
      tagCount := tagCount - 1;
      return 0;
    }

    /** `tag_read`, without overrides */
    method TagRead(reg: Registry, idx: int, offset: nat, size: nat) returns (code: int, data: seq<byte>)
      requires Valid() && Sound(reg) && KnownTypes(reg, slots) && Sized(reg, slots)
      ensures (code, data) == ReadOf(reg, slots, idx, offset, size) && (code == 0 ==> |data| == size)
    {
      if idx < 0 || idx >= |slots| {
        return ERR_ARG, [];
      }
      var limit := Size(reg, slots[idx].typ, slots[idx].count);
      if offset + size > limit {
        return ERR_2BIG, [];
      }
      if slots[idx].data.None? {
        return ERR_DELETED, [];
      }
      return 0, slots[idx].data.value[offset..offset + size];
    }

    /** `tag_write`, without events */
    method TagWrite(reg: Registry, idx: int, offset: nat, data: seq<byte>) returns (code: int)
      requires Valid() && Sound(reg) && KnownTypes(reg, slots) && Sized(reg, slots)
      modifies this
      ensures Valid() && Sized(reg, slots)
      ensures code == AccessCode(reg, old(slots), idx, offset, |data|)
      ensures code != 0 ==> slots == old(slots)
      ensures code == 0 ==>
        var was := old(slots)[idx];
        var bytes := was.data.value;
        slots == old(slots)[idx := was.(data := Some(bytes[..offset] + data + bytes[offset + |data|..]))]
    {
      if idx < 0 || idx >= |slots| {
        return ERR_ARG;
      }
      var limit := Size(reg, slots[idx].typ, slots[idx].count);
      if offset + |data| > limit {
        return ERR_2BIG;
      }
      if slots[idx].data.None? {
        return ERR_DELETED;
      }
      var bytes := slots[idx].data.value;
      Update(idx, slots[idx].(data := Some(bytes[..offset] + data + bytes[offset + |data|..])));
      return 0;
    }
  }

  /** What `tag_read` and `tag_write` answer: a bad index, then a bad range, then a deleted tag. */
  ghost function AccessCode(reg: Registry, slots: seq<Slot>, idx: int, offset: nat, size: nat): int
    requires Sound(reg) && KnownTypes(reg, slots)
  {
    if !(0 <= idx < |slots|) then ERR_ARG
    else if offset + size > TagBytes(reg, slots[idx].typ, slots[idx].count) then ERR_2BIG
    else if !slots[idx].Live() then ERR_DELETED
    else 0
  }

  ghost predicate KnownTypes(reg: Registry, slots: seq<Slot>) {
    forall i :: 0 <= i < |slots| ==> ValidType(reg, slots[i].typ)
  }

  method Size(reg: Registry, typ: TagType, count: nat) returns (size: nat)
    requires Sound(reg) && ValidType(reg, typ)
    ensures size == TagBytes(reg, typ, count)
  {
    hide ElementBits, ArrayBits;
    if typ == Basic(BOOL) {
      size := count / 8 + 1;
    } else {
      var one := TypeSize(reg, typ);
      ArraySize(reg, typ, one, count);
      size := one * count;
    }
  }

  // ---------------------------------------------------------------- whole runs

  ghost function Run(reg: Registry, slots: seq<Slot>, qs: seq<Request>): seq<Slot>
    requires Sound(reg)
    decreases |qs|
  {
    if qs == [] then slots else Run(reg, Step(reg, slots, qs[0]).0, qs[1..])
  }

  /** What the tag at a slot is, for as long as it lives. */
  ghost predicate SameTag(before: Slot, after: Slot) {
    && after.typ == before.typ
    && after.fd == before.fd
    && after.count >= before.count
    && (after.Live() ==> before.Live() && after.name == before.name)
    && (after.Live() ==> before.attr <= after.attr)
  }

  /** The bytes that the tag had are still there, in front. */
  ghost predicate KeepsBytes(before: Slot, after: Slot) {
    after.Live() ==> before.Live() && before.data.value <= after.data.value
  }

  lemma StepKeeps(reg: Registry, slots: seq<Slot>, q: Request, i: nat)
    requires Sound(reg) && i < |slots|
    ensures i < |Step(reg, slots, q).0| && SameTag(slots[i], Step(reg, slots, q).0[i])
    ensures Sized(reg, slots) ==> KeepsBytes(slots[i], Step(reg, slots, q).0[i])
  {
    if q.Add? && Sized(reg, slots) && ValidType(reg, q.typ) && Scan(slots, q.name) >= 0 {
      var s := slots[Scan(slots, q.name)];
      if s.count < q.count {
        MoreBytes(reg, q.typ, s.count, q.count);
      }
    }
  }

  /** More elements never need fewer bytes. */
  lemma MoreBytes(reg: Registry, typ: TagType, n: nat, m: nat)
    requires Sound(reg) && ValidType(reg, typ) && n <= m
    ensures TagBytes(reg, typ, n) <= TagBytes(reg, typ, m)
  {
    if typ != Basic(BOOL) {
      LongerArray(reg, typ, n, m);
    }
  }

  lemma LongerArray(reg: Registry, typ: TagType, n: nat, m: nat)
    requires Sound(reg) && ValidType(reg, typ) && n <= m
    ensures ArrayBits(reg, typ, n) <= ArrayBits(reg, typ, m)
  {
    var one := ElementBits(reg, typ);
    hide ElementBits;
    Distributes(one, n, m - n);
  }

  lemma Distributes(a: nat, n: nat, m: nat)
    ensures a * (n + m) == a * n + a * m && a * m >= 0
  {}

  /** Over any run, a slot keeps the type, owner, name, attributes and bytes it had; once its tag is deleted
      it is dead for good, so no later tag appears under an old index. */
  lemma {:induction false} RunKeeps(reg: Registry, slots: seq<Slot>, qs: seq<Request>, i: nat)
    requires Sound(reg) && i < |slots|
    ensures i < |Run(reg, slots, qs)| && SameTag(slots[i], Run(reg, slots, qs)[i])
    ensures Sized(reg, slots) ==> KeepsBytes(slots[i], Run(reg, slots, qs)[i])
    decreases |qs|
  {
    hide Step, Sized;
    if qs != [] {
      StepKeeps(reg, slots, qs[0], i);
      if Sized(reg, slots) {
        StepSized(reg, slots, qs[0]);
      }
      RunKeeps(reg, Step(reg, slots, qs[0]).0, qs[1..], i);
    }
  }

  lemma StepSized(reg: Registry, slots: seq<Slot>, q: Request)
    requires Sound(reg) && Sized(reg, slots)
    ensures Sized(reg, Step(reg, slots, q).0)
  {}

  /** Creating more data types disturbs no tag. */
  lemma TypesGrow(reg: Registry, more: Registry, slots: seq<Slot>)
    requires Sound(reg) && Sound(reg + more) && Sized(reg, slots)
    ensures Sized(reg + more, slots)
  {
    forall i | 0 <= i < |slots| && slots[i].Live()
      ensures ArrayBits(reg + more, slots[i].typ, slots[i].count) == ArrayBits(reg, slots[i].typ, slots[i].count)
    {
      Stable(reg, more, slots[i].typ);
    }
  }

  lemma StepKnows(reg: Registry, slots: seq<Slot>, q: Request)
    requires Sound(reg) && KnownTypes(reg, slots)
    ensures KnownTypes(reg, Step(reg, slots, q).0)
  {}

  lemma {:induction false} RunKnows(reg: Registry, slots: seq<Slot>, qs: seq<Request>)
    requires Sound(reg) && KnownTypes(reg, slots)
    ensures KnownTypes(reg, Run(reg, slots, qs))
    decreases |qs|
  {
    hide KnownTypes, Step;
    if qs != [] {
      StepKnows(reg, slots, qs[0]);
      RunKnows(reg, Step(reg, slots, qs[0]).0, qs[1..]);
    }
  }

  /** A deleted tag is never found, read or written again, whatever is added or deleted later. */
  lemma DeletedForGood(reg: Registry, slots: seq<Slot>, qs: seq<Request>, i: nat, name: string, offset: nat, size: nat)
    requires Sound(reg) && KnownTypes(reg, slots) && i < |slots| && !slots[i].Live()
    ensures Scan(Run(reg, slots, qs), name) != i
    ensures KnownTypes(reg, Run(reg, slots, qs)) && AccessCode(reg, Run(reg, slots, qs), i, offset, size) != 0
  {
    RunKnows(reg, slots, qs);
    RunKeeps(reg, slots, qs, i);
  }

  lemma {:induction false} RunSized(reg: Registry, slots: seq<Slot>, qs: seq<Request>)
    requires Sound(reg) && Sized(reg, slots)
    ensures Sized(reg, Run(reg, slots, qs))
    decreases |qs|
  {
    hide Step, Sized;
    if qs != [] {
      StepSized(reg, slots, qs[0]);
      RunSized(reg, Step(reg, slots, qs[0]).0, qs[1..]);
    }
  }

  /** The answer of `tag_read` and the bytes it gives. */
  ghost function ReadOf(reg: Registry, slots: seq<Slot>, idx: int, offset: nat, size: nat): (int, seq<byte>)
    requires Sound(reg) && KnownTypes(reg, slots) && Sized(reg, slots)
  {
    var code := AccessCode(reg, slots, idx, offset, size);
    (code, if code == 0 then slots[idx].data.value[offset..offset + size] else [])
  }

  /** A range that can be read reads the same after anything that is added or deleted, for as long as its tag lives. */
  lemma ReadsTheSame(reg: Registry, slots: seq<Slot>, qs: seq<Request>, i: nat, offset: nat, size: nat)
    requires Sound(reg) && KnownTypes(reg, slots) && Sized(reg, slots)
    requires AccessCode(reg, slots, i, offset, size) == 0 && i < |Run(reg, slots, qs)| && Run(reg, slots, qs)[i].Live()
    ensures KnownTypes(reg, Run(reg, slots, qs)) && Sized(reg, Run(reg, slots, qs))
    ensures ReadOf(reg, Run(reg, slots, qs), i, offset, size) == ReadOf(reg, slots, i, offset, size)
  {
    RunKnows(reg, slots, qs);
    RunSized(reg, slots, qs);
    RunKeeps(reg, slots, qs, i);
    hide Run, ArrayBits;
    var before, after := slots[i], Run(reg, slots, qs)[i];
    MoreBytes(reg, before.typ, before.count, after.count);
    assert before.Live() && after.Live() && offset + size <= |before.data.value|;
    PrefixSlice(before.data.value, after.data.value, offset, size);
  }

  lemma PrefixSlice(a: seq<byte>, b: seq<byte>, offset: nat, size: nat)
    requires a <= b && offset + size <= |a|
    ensures a[offset..offset + size] == b[offset..offset + size]
  {
    forall k | offset <= k < offset + size ensures a[k] == b[k] {
      assert b[..|a|][k] == b[k];
    }
  }

  /** A new tag gets the next index and reads as zeros, however much else is added or deleted before it is read. */
  lemma NewReadsZeros(reg: Registry, slots: seq<Slot>, q: Request, qs: seq<Request>, offset: nat, size: nat)
    requires Sound(reg) && KnownTypes(reg, slots) && Sized(reg, slots)
    requires q.Add? && q.count > 0 && ValidType(reg, q.typ) && CdtText.ValidName(q.name) && Scan(slots, q.name) < 0
    requires offset + size <= TagBytes(reg, q.typ, q.count)
    ensures var now := Step(reg, slots, q); var later := Run(reg, now.0, qs);
      && now.1 == |slots| && |later| > |slots| && KnownTypes(reg, later) && Sized(reg, later)
      && (later[|slots|].Live() ==> ReadOf(reg, later, |slots|, offset, size) == (0, Zeros(size)))
  {
    var now := Step(reg, slots, q).0;
    StepKnows(reg, slots, q);
    StepSized(reg, slots, q);
    assert ReadOf(reg, now, |slots|, offset, size).1 == Zeros(size);
    hide Step, ReadOf;
    RunKnows(reg, now, qs);
    RunSized(reg, now, qs);
    RunKeeps(reg, now, qs, |slots|);
    if Run(reg, now, qs)[|slots|].Live() {
      ReadsTheSame(reg, now, qs, |slots|, offset, size);
    }
  }
}
