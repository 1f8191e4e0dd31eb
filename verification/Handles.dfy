/** Turning a dotted and indexed name into a handle (src/lib/libcdt.c), against a definition of
    where the named item lies that does not mention the parser's running cursor. */
module Handles {
  import opened Common
  import opened Types
  import opened Text

  // ---------------------------------------------------------------- reading a name

  /** `_split_tagname`: what precedes the first dot, and what follows it. */
  function SplitName(s: string): (r: (string, Option<string>))
    ensures r.1.Some? ==> |r.1.value| < |s|
  {
    var n := Find(s, '.');
    (s[..n], if n < |s| then Some(s[n + 1..]) else None)
  }

  datatype Subscript = Whole | At(n: nat) | Malformed

  /** `_get_index`: the name before a bracket, and the number in it. */
  function GetIndex(s: string): (string, Subscript) {
    var i := Find(s, '[');
    if i == |s| then (s, Whole)
    else
      var inner := s[i + 1..][..Find(s[i + 1..], ']')];
      if DigitRun(inner) == |inner| then (s[..i], At(Value(inner))) else (s[..i], Malformed)
  }

  /** A name is cut at its first dot. */
  lemma SplitRead(a: string, rest: string)
    requires '.' !in a
    ensures SplitName(a) == (a, None) && SplitName(a + "." + rest) == (a, Some(rest))
  {
    FindAfter(a, "", '.');
    assert a + "" == a && a[..|a|] == a;
    FindAfter(a, "." + rest, '.');
    var s := a + "." + rest;
    assert a + ("." + rest) == s && s[..|a|] == a && s[|a| + 1..] == rest;
  }

  /** All there is to subscripts: without a bracket there is none; digits up to a closing bracket or the end are a
      number; anything else before the closing bracket is an error. */
  lemma IndexRead(a: string, digits: string, tail: string)
    requires '[' !in a && forall k :: 0 <= k < |digits| ==> IsDigit(digits[k])
    ensures GetIndex(a) == (a, Whole)
    ensures tail == "" || tail[0] == ']' ==> GetIndex(a + "[" + digits + tail) == (a, At(Value(digits)))
    ensures tail != "" && tail[0] != ']' && !IsDigit(tail[0]) ==>
      GetIndex(a + "[" + digits + tail) == (a, Malformed)
  {
    FindAfter(a, "", '[');
    assert a + "" == a;
    Opened(a, digits + tail);
    assert a + "[" + digits + tail == a + "[" + (digits + tail);
    Bracketed(digits, tail);
  }

  lemma Opened(a: string, rest: string)
    requires '[' !in a
    ensures var s := a + "[" + rest;
      Find(s, '[') == |a| && s[..|a|] == a && s[|a| + 1..] == rest
  {
    FindAfter(a, "[" + rest, '[');
    assert a + ("[" + rest) == a + "[" + rest;
  }

  lemma Bracketed(digits: string, tail: string)
    requires forall k :: 0 <= k < |digits| ==> IsDigit(digits[k])
    ensures tail == "" || tail[0] == ']' ==> (digits + tail)[..Find(digits + tail, ']')] == digits
    ensures DigitRun(digits) == |digits|
    ensures tail != "" && tail[0] != ']' && !IsDigit(tail[0]) ==>
      var inner := (digits + tail)[..Find(digits + tail, ']')]; DigitRun(inner) != |inner|
  {
    DigitsOnly(digits);
    var s := digits + tail;
    if tail == "" || tail[0] == ']' {
      FindAfter(digits, tail, ']');
    } else if !IsDigit(tail[0]) {
      var n := Find(s, ']');
      assert s[|digits|] == tail[0];
      if n <= |digits| {
        assert false;
      }
      assert s[..n][|digits|] == tail[0];
    }
  }

  // ---------------------------------------------------------------- where the item is

  /** An item: first bit, the handle's bit field, element type, elements from here on, and how many
      the name denotes when no count is asked for. */
  datatype Item = Item(offset: nat, bit: nat, typ: TagType, avail: nat, whole: nat)

  datatype Lookup = Found(item: Item) | Failed(code: int) {
    function Moved(bits: nat): Lookup {
      if Found? then Found(item.(offset := item.offset + bits)) else this
    }
  }

  /** The position of the first member with the given name, or the number of members. */
  function FindMember(members: seq<Member>, name: string): (k: nat)
    ensures k <= |members|
    ensures k < |members| ==> members[k].name == name
    ensures forall j :: 0 <= j < k ==> members[j].name != name
  {
    if members == [] || members[0].name == name then 0 else 1 + FindMember(members[1..], name)
  }

  /** The first segment of a path: the position of its member, its subscript, and what follows. */
  ghost function Segment(reg: Registry, i: nat, path: string): (r: (nat, Subscript, Option<string>))
    requires i < |reg|
    ensures r.0 <= |reg[i].members| && (r.2.Some? ==> |r.2.value| < |path|)
  {
    var (segment, rest) := SplitName(path);
    var (name, sub) := GetIndex(segment);
    (FindMember(reg[i].members, name), sub, rest)
  }

  function First(s: Subscript): nat {
    if s.At? then s.n else 0
  }

  function AtLeastOne(count: nat): nat {
    if count == 0 then 1 else count
  }

  predicate HasBits(t: TagType) {
    t.Basic? && t.base !in {BOOL, TIME, REAL, LREAL}
  }

  predicate IsBitNumber(rest: string) {
    rest != "" && IsDigit(rest[0])
  }

  /** What the handle's bit field keeps of a bit number: `strtol` stops at `LONG_MAX`, and the field is one byte. */
  function BitField(v: nat): (b: nat)
    ensures b < 256 && (v < 256 ==> b == v)
    ensures if v < 0x8000_0000_0000_0000 then (v - b) % 256 == 0 else b == 255
  {
    (if v > LONG_MAX then LONG_MAX else v) % 256
  }

  /** Bit number `v`, written as `digits`, of element `first` of an item whose elements are `t`. */
  ghost function BitItem(reg: Registry, t: TagType, digits: string, v: nat, first: nat, count: nat): Lookup
    requires Sound(reg) && ValidType(reg, t)
  {
    if !HasBits(t) then Failed(ERR_BADTYPE)
    else if DigitRun(digits) != |digits| then Failed(ERR_ARG)
    else if v + AtLeastOne(count) > ElementBits(reg, t) then Failed(ERR_2BIG)
    else Found(Item(ArrayBits(reg, t, first) + v, v % 8, Basic(BOOL), ElementBits(reg, t) - v, 1))
  }

  /** The item named by a member at `start` and a subscript; `bit` is where in a byte a BOOL starts. */
  ghost function MemberItem(reg: Registry, m: Member, start: nat, bit: nat, sub: Subscript, count: nat): Lookup
    requires Sound(reg) && ValidType(reg, m.typ) && !sub.Malformed?
  {
    var first := First(sub);
    if sub.At? && first + AtLeastOne(count) > m.count then Failed(ERR_2BIG)
    else if sub.Whole? && (count > m.count || m.count < 0) then Failed(ERR_2BIG)
    else
      Found(Item(start + ArrayBits(reg, m.typ, first), if m.IsBool() then bit else 0, m.typ,
                 m.count - first, if sub.At? then 1 else m.count))
  }

  /** The reference: the item that `path` names inside an element of type `i`. */
  ghost function Locate(reg: Registry, i: nat, path: string, count: nat): Lookup
    requires Sound(reg) && i < |reg|
    decreases |path|
  {
    var (segment, rest) := SplitName(path);
    var (name, sub) := GetIndex(segment);
    var k := FindMember(reg[i].members, name);
    if sub.Malformed? then Failed(ERR_ARG)
    else if k == |reg[i].members| then Failed(ERR_NOTFOUND)
    else
      var m := reg[i].members[k];
      var start := Start(reg, i, k);
      if rest.None? then MemberItem(reg, m, start, (start + First(sub)) % 8, sub, count)
      else if IsBitNumber(rest.value) then
        if m.count > 1 && sub.Whole? then Failed(ERR_ARG)
        else BitItem(reg, m.typ, rest.value, Value(rest.value[..DigitRun(rest.value)]), First(sub), count).Moved(start)
      else if m.typ.Basic? then Failed(ERR_NOTFOUND)
      else
        var inner := Locate(reg, m.typ.index, rest.value, count);
        if inner.Found? && sub.At? && sub.n + AtLeastOne(count) > m.count then Failed(ERR_2BIG)
        else inner.Moved(start + ArrayBits(reg, m.typ, First(sub)))
  }

  // ---------------------------------------------------------------- what the parser computes

  /** The cursor after `n` BOOLs: the handle's bit counter is one byte. */
  function Skip(p: nat, n: nat): nat {
    p - p % 8 + (p % 8 + n) % 256
  }

  /** The cursor after stepping over `k` members of type `i`, starting from bit position `p`. */
  ghost function Walk(reg: Registry, i: nat, k: nat, p: nat): nat
    requires Sound(reg) && i < |reg| && k <= |reg[i].members|
  {
    if k == 0 then p
    else if reg[i].members[k - 1].IsBool() then Skip(Walk(reg, i, k - 1, p), reg[i].members[k - 1].count)
    else Align(Walk(reg, i, k - 1, p)) + MemberBits(reg, i, k - 1)
  }

  /** The outcome of `_parse_next_member` from bit position `p`: the cursor is not aligned on the way
      into a nested type or a bit number, and bit numbers are cut to one byte. */
  ghost function Resolve(reg: Registry, i: nat, path: string, count: nat, p: nat): (l: Lookup)
    requires Sound(reg) && i < |reg|
    ensures l.Failed? ==> l.code < 0
    ensures l.Found? ==> ValidType(reg, l.item.typ)
    decreases |path|
  {
    var (segment, rest) := SplitName(path);
    var (name, sub) := GetIndex(segment);
    var k := FindMember(reg[i].members, name);
    if sub.Malformed? then Failed(ERR_ARG)
    else if k == |reg[i].members| then Failed(ERR_NOTFOUND)
    else
      var m := reg[i].members[k];
      var w := Walk(reg, i, k, p);
      if rest.None? then MemberItem(reg, m, if m.IsBool() then w else Align(w), w % 8 + First(sub) % 8, sub, count)
      else if IsBitNumber(rest.value) then
        if m.count > 1 && sub.Whole? then Failed(ERR_ARG)
        else
          var v := BitField(Value(rest.value[..DigitRun(rest.value)]));
          BitItem(reg, m.typ, rest.value, v, First(sub), count).Moved(w - w % 8)
      else if m.typ.Basic? then Failed(ERR_NOTFOUND)
      else
        var inner := Resolve(reg, m.typ.index, rest.value, count, w);
        if inner.Found? && sub.At? && sub.n + AtLeastOne(count) > m.count then Failed(ERR_2BIG)
        else inner.Moved(ArrayBits(reg, m.typ, First(sub)))
  }

  // ---------------------------------------------------------------- the parser

  /** `tag_handle`.  The bit field is an unsigned char: additions to it wrap at 256. */
  class Handle {
    var index: int
    var byte: nat
    var bit: nat
    var count: nat
    var size: nat
    var typ: Option<TagType>

    constructor ()
      ensures index == 0 && byte == 0 && bit == 0 && count == 0 && size == 0 && typ == None
    {
      index, byte, bit, count, size, typ := 0, 0, 0, 0, 0, None;
    }

    /** The bit position of the cursor within the tag. */
    ghost function Position(): nat
      reads this
    {
      8 * byte + bit
    }

    /** A cursor inside a byte can only have been left there by a BOOL member. */
    ghost predicate Steady()
      reads this
    {
      bit < 8 && (bit > 0 ==> typ == Some(Basic(BOOL)))
    }

    /** Step over a BOOL member of `n` bits. */
    method SkipBits(n: nat)
      requires bit < 8
      modifies this
      ensures Position() == Skip(old(Position()), n)
      ensures Steady() && index == old(index)
    {
      bit := (bit + n) % 256;
      if bit > 7 {
        byte := byte + bit / 8;
        bit := bit % 8;
      }
      typ := Some(Basic(BOOL));
    }

    /** `n` bits, starting `first` bits further on; the bit field may be left at eight or more. */
    method SelectBits(first: nat, n: nat)
      requires bit < 8 && n > 0
      modifies this
      ensures Position() == old(Position()) + first
      ensures count == n && size == BitSpan(bit, n) && bit == old(bit) + first % 8
      ensures index == old(index) && typ == old(typ)
    {
      byte := byte + first / 8;
      bit := bit + first % 8;
      size := (bit + n - 1) / 8 - bit / 8 + 1;
      count := n;
    }

    /** `n` bits of an element `skip` bytes further on, from the bit number held in the bit field. */
    method PickBits(skip: nat, n: nat)
      requires n > 0
      modifies this
      ensures Position() == old(Position()) + 8 * skip
      ensures bit == old(bit) % 8 && typ == Some(Basic(BOOL)) && count == n && size == BitSpan(bit, n)
      ensures index == old(index)
    {
      byte := byte + skip + bit / 8;
      bit := bit % 8;
      typ := Some(Basic(BOOL));
      size := (bit + n - 1) / 8 - bit / 8 + 1;
      count := n;
    }

    /** `n` elements of `width` bytes, starting `first` elements further on. */
    method SelectElements(width: nat, first: nat, n: nat)
      requires bit == 0 && width * first >= 0 && width * n >= 0
      modifies this
      ensures bit == 0 && byte == old(byte) + width * first
      ensures count == n && size == width * n
      ensures index == old(index) && typ == old(typ)
    {
      size := width * n;
      byte := byte + width * first;
      bit := 0;
      count := n;
    }

    /** Stop at the member that is named, on a byte boundary unless it is a BOOL. */
    method Arrive(t: TagType)
      requires Steady()
      modifies this
      ensures Position() == (if t == Basic(BOOL) then old(Position()) else Align(old(Position())))
      ensures bit == (if t == Basic(BOOL) then old(Position()) % 8 else 0)
      ensures index == old(index) && typ == Some(t)
    {
      RoundUp(Position());
      if typ == Some(Basic(BOOL)) && t != Basic(BOOL) && bit > 0 {
        byte := byte + 1;
        bit := 0;
      }
      typ := Some(t);
    }

    /** Step over a member of `n` bytes, starting on a byte boundary. */
    method SkipBytes(n: nat, t: TagType)
      requires Steady()
      modifies this
      ensures Position() == Align(old(Position())) + 8 * n && Steady()
      ensures index == old(index)
    {
      RoundUp(Position());
      if typ == Some(Basic(BOOL)) && bit > 0 {
        byte := byte + 1;
      }
      byte := byte + n;
      bit := 0;
      typ := Some(t);
    }
  }

  /** The bytes that hold `count` bits from bit `bit` of a byte on. */
  function BitSpan(bit: nat, count: nat): nat
    requires count > 0
  {
    (bit + count - 1) / 8 - bit / 8 + 1
  }

  /** The handle denotes `count` elements of the item, or all of it when `count` is zero. */
  ghost predicate Denotes(reg: Registry, h: Handle, item: Item, count: nat)
    requires Sound(reg) && ValidType(reg, item.typ)
    reads h
  {
    && h.Position() == item.offset
    && h.bit == item.bit
    && h.typ == Some(item.typ)
    && h.count == (if count == 0 then item.whole else count)
    && 0 < h.count <= item.avail
    && if item.typ == Basic(BOOL) then h.size == BitSpan(h.bit, h.count)
       else h.bit == 0 && 8 * h.size == ArrayBits(reg, item.typ, h.count)
  }

  /** The call returned what the lookup says, and left the handle accordingly. */
  ghost predicate Answers(reg: Registry, h: Handle, err: int, l: Lookup, count: nat)
    requires Sound(reg)
    reads h
  {
    match l
    case Failed(code) => err == code
    case Found(item) => err == 0 && ValidType(reg, item.typ) && Denotes(reg, h, item, count)
  }

  /** `_parse_bit_index` */
  method ParseBitIndex(reg: Registry, t: TagType, h: Handle, digits: string, sub: Subscript, count0: nat)
    returns (err: int)
    requires Sound(reg) && ValidType(reg, t) && IsBitNumber(digits)
    modifies h
    ensures h.index == old(h.index)
    ensures Answers(reg, h, err,
      BitItem(reg, t, digits, BitField(Value(digits[..DigitRun(digits)])), First(sub), count0).Moved(8 * old(h.byte)),
      count0)
  {
    hide Sound, ElementBits, ArrayBits, BitSpan;
    if t.Custom? || t.base in {BOOL, TIME, REAL, LREAL} {
      return ERR_BADTYPE;
    }
    var index := First(sub);
    var (value, length) := ParseNat(digits);
    h.bit := BitField(value);
    if length != |digits| {
      return ERR_ARG;
    }
    var size := ElementSize(reg, t);
    if h.bit > size * 8 {
      return ERR_2BIG;
    }
    var count := if count0 == 0 then 1 else count0;
    if h.bit + count > size * 8 {
      return ERR_2BIG;
    }
    ArraySize(reg, t, size, index);
    h.PickBits(size * index, count);
    return 0;
  }

  /** The loop of `_parse_next_member` that steps over the members before the one named. */
  method SkipMembers(reg: Registry, i: nat, h: Handle, name: string) returns (k: nat)
    requires Sound(reg) && i < |reg| && h.Steady()
    modifies h
    ensures h.index == old(h.index)
    ensures k == FindMember(reg[i].members, name)
    ensures h.Position() == Walk(reg, i, k, old(h.Position())) && h.Steady()
  {
    hide Sound, Align, ElementBits, ArrayBits, MemberBits;
    var members := reg[i].members;
    k := 0;
    while k < |members| && members[k].name != name
      invariant k <= |members| && h.index == old(h.index)
      invariant forall j :: 0 <= j < k ==> members[j].name != name
      invariant h.Position() == Walk(reg, i, k, old(h.Position())) && h.Steady()
    {
      var m := members[k];
      MemberFacts(reg, i, k);
      if m.IsBool() {
        h.SkipBits(m.count);
      } else {
        var size := ElementSize(reg, m.typ);
        ElementBytes(reg, i, k, size);
        h.SkipBytes(size * m.count, m.typ);
      }
      k := k + 1;
    }
  }

  lemma MemberFacts(reg: Registry, i: nat, k: nat)
    requires Sound(reg) && i < |reg| && k < |reg[i].members|
    ensures var m := reg[i].members[k];
      && ValidType(reg, m.typ) && m.count > 0
      && (m.IsBool() ==> forall n: nat :: ArrayBits(reg, m.typ, n) == n)
      && ArrayBits(reg, m.typ, 0) == 0
  {}

  /** The branch of `_parse_next_member` for the last name of the path. */
  method LastItem(reg: Registry, i: nat, k: nat, h: Handle, sub: Subscript, count0: nat) returns (err: int)
    requires Sound(reg) && i < |reg| && k < |reg[i].members| && !sub.Malformed?
    requires ValidType(reg, reg[i].members[k].typ) && h.Steady()
    modifies h
    ensures h.index == old(h.index)
    ensures var m := reg[i].members[k]; var w := old(h.Position());
      Answers(reg, h, err,
        MemberItem(reg, m, if m.IsBool() then w else Align(w), w % 8 + First(sub) % 8, sub, count0), count0)
  {
    hide Sound, Align, ElementBits, ArrayBits, BitSpan;
    var m := reg[i].members[k];
    MemberFacts(reg, i, k);
    h.Arrive(m.typ);
    var count := count0;
    if sub.At? {
      if count == 0 {
        count := 1;
      }
      if sub.n + count > m.count {
        return ERR_2BIG;
      }
    } else {
      if count > m.count {
        return ERR_2BIG;
      }
      if count == 0 {
        count := m.count;
      }
    }
    var first := First(sub);
    if m.IsBool() {
      h.SelectBits(first, count);
    } else {
      var size := ElementSize(reg, m.typ);
      ArraySize(reg, m.typ, size, count);
      ArraySize(reg, m.typ, size, first);
      h.SelectElements(size, first, count);
    }
    return 0;
  }

  /** Every name that has another name after it is a CDT member. */
  ghost predicate Descends(reg: Registry, i: nat, path: string)
    requires Sound(reg) && i < |reg|
    decreases |path|
  {
    var (segment, rest) := SplitName(path);
    var k := FindMember(reg[i].members, GetIndex(segment).0);
    k < |reg[i].members| && rest.Some? && !IsBitNumber(rest.value) ==>
      var t := reg[i].members[k].typ;
      t.Custom? && Descends(reg, t.index, rest.value)
  }

  /** `_parse_next_member` */
  method ParseNextMember(reg: Registry, i: nat, h: Handle, path: string, count: nat) returns (err: int)
    requires Sound(reg) && i < |reg| && h.Steady() && Descends(reg, i, path)
    modifies h
    ensures h.index == old(h.index)
    ensures Answers(reg, h, err, Resolve(reg, i, path, count, old(h.Position())), count)
    decreases |path|
  {
    hide Sound, Walk, Align, MemberItem, BitItem, ElementBits, ArrayBits, Denotes, SplitName, GetIndex, FindMember;
    var (segment, rest) := SplitName(path);
    var (name, sub) := GetIndex(segment);
    if sub.Malformed? {
      return ERR_ARG;
    }
    var k := SkipMembers(reg, i, h, name);
    if k == |reg[i].members| {
      return ERR_NOTFOUND;
    }
    var m := reg[i].members[k];
    MemberFacts(reg, i, k);
    if rest.None? {
      err := LastItem(reg, i, k, h, sub, count);
    } else if IsBitNumber(rest.value) {
      if m.count > 1 && sub.Whole? {
        return ERR_ARG;
      }
      ByteFloor(h.byte, h.bit);
      err := ParseBitIndex(reg, m.typ, h, rest.value, sub, count);
    } else {
      ghost var inner := Resolve(reg, m.typ.index, rest.value, count, h.Position());
      err := ParseNextMember(reg, m.typ.index, h, rest.value, count);
      if err != 0 {
        return;
      }
      if sub.At? {
        if sub.n + (if count == 0 then 1 else count) > m.count {
          return ERR_2BIG;
        }
        MoveToElement(reg, h, m.typ, sub.n, inner.item, count);
      }
    }
  }

  lemma ByteFloor(byte: nat, bit: nat)
    requires bit < 8
    ensures var w := 8 * byte + bit; 8 * byte == w - w % 8
  {}

  /** From element zero to element `n` of an array of nested types. */
  method MoveToElement(reg: Registry, h: Handle, t: TagType, n: nat, ghost item: Item, ghost count: nat)
    requires Sound(reg) && ValidType(reg, t) && t.Custom? && ValidType(reg, item.typ) && Denotes(reg, h, item, count)
    modifies h
    ensures h.index == old(h.index)
    ensures Denotes(reg, h, item.(offset := item.offset + ArrayBits(reg, t, n)), count)
  {
    hide Sound, ElementBits, ArrayBits, BitSpan;
    var size := ElementSize(reg, t);
    ArraySize(reg, t, size, n);
    h.byte := h.byte + size * n;
  }

  // ---------------------------------------------------------------- parser against layout

  /** The element that a numbered bit is taken from exists: the source does not look. */
  ghost predicate Bounded(reg: Registry, i: nat, path: string)
    requires Sound(reg) && i < |reg|
    decreases |path|
  {
    var (k, sub, rest) := Segment(reg, i, path);
    k < |reg[i].members| && rest.Some? ==>
      var m := reg[i].members[k];
      if IsBitNumber(rest.value) then First(sub) < m.count
      else m.typ.Custom? ==> Bounded(reg, m.typ.index, rest.value)
  }

  /** Equal up to the handle's bit field. */
  predicate SamePlace(a: Lookup, b: Lookup) {
    match (a, b)
    case (Found(x), Found(y)) => x.(bit := 0) == y.(bit := 0)
    case (_, _) => a == b
  }

  lemma ArrayJoin(reg: Registry, t: TagType, a: nat, b: nat)
    requires Sound(reg) && ValidType(reg, t)
    ensures ArrayBits(reg, t, a) + ArrayBits(reg, t, b) == ArrayBits(reg, t, a + b)
    ensures ArrayBits(reg, t, 1) == ElementBits(reg, t)
  {
    assert ElementBits(reg, t) * a + ElementBits(reg, t) * b == ElementBits(reg, t) * (a + b);
  }

  /** Elements `first` to `first + n` of a member lie inside the type. */
  lemma ElementsInside(reg: Registry, i: nat, k: nat, first: nat, n: nat)
    requires Sound(reg) && i < |reg| && k < |reg[i].members| && first + n <= reg[i].members[k].count
    requires ValidType(reg, reg[i].members[k].typ)
    ensures Start(reg, i, k) + ArrayBits(reg, reg[i].members[k].typ, first) + ArrayBits(reg, reg[i].members[k].typ, n)
            <= ElementBits(reg, Custom(i))
  {
    hide Start, Cursor, ElementBits, ArrayBits;
    var m := reg[i].members[k];
    ArrayJoin(reg, m.typ, first, n);
    ArrayJoin(reg, m.typ, first + n, m.count - first - n);
    Disjoint(reg, i, k, |reg[i].members|);
  }

  /** Whatever a path names lies inside the type it starts from. */
  lemma {:induction false} LocateInside(reg: Registry, i: nat, path: string, count: nat)
    requires Sound(reg) && i < |reg| && Bounded(reg, i, path) && Locate(reg, i, path, count).Found?
    ensures var item := Locate(reg, i, path, count).item;
      && ValidType(reg, item.typ)
      && item.offset + ArrayBits(reg, item.typ, item.avail) <= ElementBits(reg, Custom(i))
    decreases |path|
  {
    hide Sound, Start, Cursor, Align, ElementBits, ArrayBits, MemberItem, BitItem, SplitName, GetIndex, FindMember;
    var (segment, rest) := SplitName(path);
    var (name, sub) := GetIndex(segment);
    var k := FindMember(reg[i].members, name);
    var m := reg[i].members[k];
    var first := First(sub);
    MemberFacts(reg, i, k);
    if rest.None? {
      MemberInside(reg, i, k, sub, count);
    } else if IsBitNumber(rest.value) {
      BitInside(reg, i, k, rest.value, Value(rest.value[..DigitRun(rest.value)]), first, count);
    } else {
      LocateInside(reg, m.typ.index, rest.value, count);
      ElementsInside(reg, i, k, first, 1);
      ArrayJoin(reg, m.typ, first, 1);
    }
  }

  lemma MemberInside(reg: Registry, i: nat, k: nat, sub: Subscript, count: nat)
    requires Sound(reg) && i < |reg| && k < |reg[i].members| && ValidType(reg, reg[i].members[k].typ)
    requires !sub.Malformed?
    ensures var start := Start(reg, i, k);
      var l := MemberItem(reg, reg[i].members[k], start, (start + First(sub)) % 8, sub, count);
      l.Found? ==>
        && l.item.typ == reg[i].members[k].typ
        && l.item.offset + ArrayBits(reg, l.item.typ, l.item.avail) <= ElementBits(reg, Custom(i))
  {
    hide Sound, Start, Cursor, Align, ElementBits, ArrayBits;
    var m := reg[i].members[k];
    var first := First(sub);
    MemberFacts(reg, i, k);
    if first <= m.count {
      ElementsInside(reg, i, k, first, m.count - first);
    }
  }

  lemma BitInside(reg: Registry, i: nat, k: nat, digits: string, v: nat, first: nat, count: nat)
    requires Sound(reg) && i < |reg| && k < |reg[i].members| && ValidType(reg, reg[i].members[k].typ)
    requires first < reg[i].members[k].count
    ensures
      var l := BitItem(reg, reg[i].members[k].typ, digits, v, first, count).Moved(Start(reg, i, k));
      l.Found? ==>
        && l.item.typ == Basic(BOOL)
        && l.item.offset + ArrayBits(reg, l.item.typ, l.item.avail) <= ElementBits(reg, Custom(i))
  {
    hide Sound, Start, Cursor, Align, ElementBits, ArrayBits, DigitRun;
    var t := reg[i].members[k].typ;
    ElementsInside(reg, i, k, first, 1);
    ArrayJoin(reg, t, first, 1);
    if v <= ElementBits(reg, t) {
      BoolArray(reg, ElementBits(reg, t) - v);
    }
  }

  // ---------------------------------------------------------------- from the tag name on

  /** What a client knows about a tag. */
  datatype Tag = Tag(idx: int, typ: TagType, count: nat)

  ghost predicate GoodTag(reg: Registry, tag: Tag) {
    ValidType(reg, tag.typ) && tag.count > 0
  }

  /** The item named by a subscript and a member path of a tag, by layout or as the parser finds it. */
  ghost function TagItem(reg: Registry, tag: Tag, sub: Subscript, rest: Option<string>, count: nat,
                         parsed: bool): (l: Lookup)
    requires Sound(reg) && GoodTag(reg, tag) && !sub.Malformed?
    ensures l.Failed? && parsed ==> l.code < 0
    ensures l.Found? && parsed ==> ValidType(reg, l.item.typ)
  {
    if rest.None? then MemberItem(reg, Member("", tag.typ, tag.count), 0, First(sub) % 8, sub, count)
    else if IsBitNumber(rest.value) then
      if tag.count > 1 && sub.Whole? then Failed(ERR_ARG)
      else
        var v := Value(rest.value[..DigitRun(rest.value)]);
        BitItem(reg, tag.typ, rest.value, if parsed then BitField(v) else v, First(sub), count)
    else if tag.typ.Basic? then Failed(ERR_ARG)
    else if tag.count > 1 && sub.Whole? then Failed(ERR_ARBITRARY)
    else
      var inner := if parsed then Resolve(reg, tag.typ.index, rest.value, count, 0)
                   else Locate(reg, tag.typ.index, rest.value, count);
      inner.Moved(ArrayBits(reg, tag.typ, First(sub)))
  }

  /** `_dax_tag_handle` on a cleared handle; `tags` is what the server knows. */
  method TagHandle(reg: Registry, tags: map<string, Tag>, h: Handle, str: string, count: nat) returns (err: int)
    requires Sound(reg) && forall n :: n in tags ==> GoodTag(reg, tags[n])
    requires h.byte == 0 && h.bit == 0
    requires var (segment, rest) := SplitName(str); var name := GetIndex(segment).0;
      name in tags && rest.Some? && GoodTag(reg, tags[name]) && tags[name].typ.Custom? ==>
        Descends(reg, tags[name].typ.index, rest.value)
    modifies h
    ensures var (segment, rest) := SplitName(str); var (name, sub) := GetIndex(segment);
      if sub.Malformed? then err == ERR_ARG
      else if name !in tags then err == ERR_NOTFOUND
      else
        && GoodTag(reg, tags[name])
        && Answers(reg, h, err, TagItem(reg, tags[name], sub, rest, count, true), count)
        && (err == 0 ==> h.index == tags[name].idx)
  {
    hide Sound, ElementBits, ArrayBits, BitItem, Denotes, SplitName, GetIndex, Descends, Resolve;
    var (segment, rest) := SplitName(str);
    var (name, sub) := GetIndex(segment);
    if sub.Malformed? {
      return ERR_ARG;
    }
    if name !in tags {
      return ERR_NOTFOUND;
    }
    var tag := tags[name];
    h.index := tag.idx;
    if rest.None? {
      err := WholeTag(reg, tag, h, sub, count);
    } else if IsBitNumber(rest.value) {
      if tag.count > 1 && sub.Whole? {
        return ERR_ARG;
      }
      err := ParseBitIndex(reg, tag.typ, h, rest.value, sub, count);
    } else if tag.typ.Basic? {
      return ERR_ARG;
    } else if tag.count > 1 && sub.Whole? {
      return ERR_ARBITRARY;
    } else {
      ghost var inner := Resolve(reg, tag.typ.index, rest.value, count, 0);
      err := ParseNextMember(reg, tag.typ.index, h, rest.value, count);
      if err != 0 {
        return;
      }
      NoElements(reg, tag.typ);
      if sub.At? {
        MoveToElement(reg, h, tag.typ, sub.n, inner.item, count);
      }
    }
  }

  lemma NoElements(reg: Registry, t: TagType)
    requires Sound(reg) && ValidType(reg, t)
    ensures ArrayBits(reg, t, 0) == 0
  {}

  /** The branch of `_dax_tag_handle` for a tag without a member path. */
  method WholeTag(reg: Registry, tag: Tag, h: Handle, sub: Subscript, count0: nat) returns (err: int)
    requires Sound(reg) && GoodTag(reg, tag) && !sub.Malformed? && h.byte == 0 && h.bit == 0
    modifies h
    ensures h.index == old(h.index)
    ensures Answers(reg, h, err, TagItem(reg, tag, sub, None, count0, true), count0)
  {
    hide Sound, ElementBits, ArrayBits, BitSpan;
    h.typ := Some(tag.typ);
    var count := count0;
    if sub.At? {
      if count == 0 {
        count := 1;
      }
      if sub.n + count > tag.count {
        return ERR_2BIG;
      }
    } else {
      if count > tag.count {
        return ERR_2BIG;
      }
      if count == 0 {
        count := tag.count;
      }
    }
    var first := First(sub);
    if tag.typ == Basic(BOOL) {
      BoolArray(reg, first);
      h.SelectBits(first, count);
    } else {
      var size := ElementSize(reg, tag.typ);
      ArraySize(reg, tag.typ, size, count);
      ArraySize(reg, tag.typ, size, first);
      h.SelectElements(size, first, count);
    }
    return 0;
  }
}
