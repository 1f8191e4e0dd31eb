/** Parts of a tag by name, from the name to the data: the names of different parts denote different bits,
    and writing one part leaves what is read from another as it was. */
module Access {
  import opened Common
  import opened Bits
  import Store
  import opened Types
  import opened Text
  import opened Handles
  import opened Landing
  import N = Names
  import T = Transfer

  // ---------------------------------------------------------------- the bits that a name denotes

  function Denoted(item: Item, count: nat): nat {
    if count == 0 then item.whole else count
  }

  ghost function Width(reg: Registry, item: Item, count: nat): nat
    requires Sound(reg) && ValidType(reg, item.typ)
  {
    ArrayBits(reg, item.typ, Denoted(item, count))
  }

  ghost predicate Apart(reg: Registry, a: Item, m: nat, b: Item, n: nat)
    requires Sound(reg) && ValidType(reg, a.typ) && ValidType(reg, b.typ)
  {
    a.offset + Width(reg, a, m) <= b.offset || b.offset + Width(reg, b, n) <= a.offset
  }

  lemma More(reg: Registry, t: TagType, a: nat, b: nat)
    requires Sound(reg) && ValidType(reg, t) && a <= b
    ensures ArrayBits(reg, t, a) <= ArrayBits(reg, t, b)
  {
    hide ArrayBits, ElementBits;
    ArrayJoin(reg, t, a, b - a);
  }

  /** What is found has as many elements as are asked for. */
  lemma {:induction false} DenotedFits(reg: Registry, i: nat, path: string, count: nat)
    requires Sound(reg) && i < |reg| && Locate(reg, i, path, count).Found?
    ensures var item := Locate(reg, i, path, count).item; 0 < Denoted(item, count) <= item.avail
    decreases |path|
  {
    hide Sound, Start, Cursor, Align, ElementBits, ArrayBits, SplitName, GetIndex, FindMember, Value, DigitRun;
    var (k, sub, rest) := Segment(reg, i, path);
    MemberFacts(reg, i, k);
    if rest.Some? && !IsBitNumber(rest.value) {
      DenotedFits(reg, reg[i].members[k].typ.index, rest.value, count);
    }
  }

  lemma InElements(reg: Registry, m: Member, start: nat, bit: nat, sub: Subscript, count: nat)
    requires Sound(reg) && ValidType(reg, m.typ) && m.count > 0 && !sub.Malformed?
    requires MemberItem(reg, m, start, bit, sub, count).Found?
    ensures var item := MemberItem(reg, m, start, bit, sub, count).item;
      && item.typ == m.typ && start <= item.offset
      && item.offset + Width(reg, item, count) <= start + ArrayBits(reg, m.typ, m.count)
  {
    hide Sound, ElementBits, ArrayBits;
    var item := MemberItem(reg, m, start, bit, sub, count).item;
    ArrayJoin(reg, m.typ, First(sub), Denoted(item, count));
    More(reg, m.typ, First(sub) + Denoted(item, count), m.count);
  }

  lemma InBits(reg: Registry, t: TagType, digits: string, v: nat, first: nat, count: nat)
    requires Sound(reg) && ValidType(reg, t) && BitItem(reg, t, digits, v, first, count).Found?
    ensures var item := BitItem(reg, t, digits, v, first, count).item;
      && item.typ == Basic(BOOL) && ArrayBits(reg, t, first) <= item.offset
      && item.offset + Width(reg, item, count) <= ArrayBits(reg, t, first) + ElementBits(reg, t)
  {
    hide Sound, ElementBits, ArrayBits;
    var item := BitItem(reg, t, digits, v, first, count).item;
    BoolArray(reg, Denoted(item, count));
  }

  lemma InNested(reg: Registry, j: nat, path: string, count: nat)
    requires Sound(reg) && j < |reg| && Bounded(reg, j, path) && Locate(reg, j, path, count).Found?
    ensures var item := Locate(reg, j, path, count).item;
      ValidType(reg, item.typ) && item.offset + Width(reg, item, count) <= ElementBits(reg, Custom(j))
  {
    hide Sound, ElementBits, ArrayBits, Locate, Bounded;
    LocateInside(reg, j, path, count);
    DenotedFits(reg, j, path, count);
    var item := Locate(reg, j, path, count).item;
    More(reg, item.typ, Denoted(item, count), item.avail);
  }

  ghost predicate SitsIn(reg: Registry, item: Item, count: nat, lo: nat, hi: nat)
    requires Sound(reg)
  {
    ValidType(reg, item.typ) && lo <= item.offset && item.offset + Width(reg, item, count) <= hi
  }

  /** The first bit of an element of a member. */
  ghost function Element(reg: Registry, i: nat, k: nat, first: nat): nat
    requires Sound(reg) && i < |reg| && k < |reg[i].members|
  {
    MemberFacts(reg, i, k);
    Start(reg, i, k) + ArrayBits(reg, reg[i].members[k].typ, first)
  }

  lemma ElementsOrdered(reg: Registry, i: nat, k: nat, a: nat, b: nat)
    requires Sound(reg) && i < |reg| && k < |reg[i].members| && a <= b
    ensures Element(reg, i, k, a) <= Element(reg, i, k, b)
    ensures Element(reg, i, k, 0) == Start(reg, i, k)
    ensures Element(reg, i, k, reg[i].members[k].count) == Start(reg, i, k) + MemberBits(reg, i, k)
  {
    hide Sound, Start, ElementBits, ArrayBits;
    MemberFacts(reg, i, k);
    More(reg, reg[i].members[k].typ, a, b);
  }

  lemma NextElement(reg: Registry, i: nat, k: nat, a: nat)
    requires Sound(reg) && i < |reg| && k < |reg[i].members| && ValidType(reg, reg[i].members[k].typ)
    ensures Element(reg, i, k, a + 1) == Element(reg, i, k, a) + ElementBits(reg, reg[i].members[k].typ)
  {
    hide Sound, Start, ElementBits, ArrayBits;
    ArrayJoin(reg, reg[i].members[k].typ, a, 1);
  }

  /** An item lies inside the member that its path begins with, and inside the element of it that the path
      goes through. */
  lemma InMember(reg: Registry, i: nat, path: string, count: nat)
    requires Sound(reg) && i < |reg| && Bounded(reg, i, path) && Locate(reg, i, path, count).Found?
    ensures var (k, sub, rest) := Segment(reg, i, path); var item := Locate(reg, i, path, count).item;
      && k < |reg[i].members|
      && SitsIn(reg, item, count, Start(reg, i, k), Start(reg, i, k) + MemberBits(reg, i, k))
      && (rest.Some? ==> SitsIn(reg, item, count, Element(reg, i, k, First(sub)), Element(reg, i, k, First(sub) + 1)))
  {
    var (k, sub, rest) := Segment(reg, i, path);
    hide Sound, Start, Cursor, ElementBits, ArrayBits, MemberBits, Element, SplitName, GetIndex, FindMember, Value,
      DigitRun, MemberItem, BitItem;
    MemberFacts(reg, i, k);
    if rest.None? {
      WholeInMember(reg, i, path, count);
    } else {
      ThroughElement(reg, i, path, count);
      ElementsOrdered(reg, i, k, 0, First(sub));
      ElementsOrdered(reg, i, k, First(sub) + 1, reg[i].members[k].count);
    }
  }

  lemma WholeInMember(reg: Registry, i: nat, path: string, count: nat)
    requires Sound(reg) && i < |reg| && Locate(reg, i, path, count).Found? && Segment(reg, i, path).2.None?
    ensures var (k, sub, rest) := Segment(reg, i, path); var item := Locate(reg, i, path, count).item;
      k < |reg[i].members| && SitsIn(reg, item, count, Start(reg, i, k), Start(reg, i, k) + MemberBits(reg, i, k))
  {
    var (k, sub, rest) := Segment(reg, i, path);
    hide Sound, Start, Cursor, ElementBits, ArrayBits, SplitName, GetIndex, FindMember, MemberItem, BitItem;
    MemberFacts(reg, i, k);
    var start := Start(reg, i, k);
    InElements(reg, reg[i].members[k], start, (start + First(sub)) % 8, sub, count);
  }

  lemma ThroughElement(reg: Registry, i: nat, path: string, count: nat)
    requires Sound(reg) && i < |reg| && Bounded(reg, i, path) && Locate(reg, i, path, count).Found?
    requires Segment(reg, i, path).2.Some?
    ensures var (k, sub, rest) := Segment(reg, i, path); var item := Locate(reg, i, path, count).item;
      && k < |reg[i].members| && First(sub) < reg[i].members[k].count
      && SitsIn(reg, item, count, Element(reg, i, k, First(sub)), Element(reg, i, k, First(sub) + 1))
  {
    var (k, sub, rest) := Segment(reg, i, path);
    hide Sound, Start, Cursor, ElementBits, ArrayBits, SplitName, GetIndex, FindMember, Value, DigitRun, MemberItem,
      BitItem;
    MemberFacts(reg, i, k);
    var t := reg[i].members[k].typ;
    NextElement(reg, i, k, First(sub));
    if IsBitNumber(rest.value) {
      InBits(reg, t, rest.value, Value(rest.value[..DigitRun(rest.value)]), First(sub), count);
    } else {
      InNested(reg, t.index, rest.value, count);
    }
  }

  lemma Separated(reg: Registry, a: Item, m: nat, b: Item, n: nat, lo: nat, hi: nat, from: nat, to: nat)
    requires Sound(reg) && SitsIn(reg, a, m, lo, hi) && SitsIn(reg, b, n, from, to) && (hi <= from || to <= lo)
    ensures ValidType(reg, a.typ) && ValidType(reg, b.typ) && Apart(reg, a, m, b, n)
  {
    hide Sound, Width;
  }

  // ---------------------------------------------------------------- different parts

  /** The two paths name different members, or go through different elements of the same one, or into the
      same element and part there. */
  ghost predicate Diverge(reg: Registry, i: nat, p: string, q: string)
    requires Sound(reg) && i < |reg|
    decreases |p|
  {
    var (k, a, r) := Segment(reg, i, p);
    var (l, b, s) := Segment(reg, i, q);
    && k < |reg[i].members| && l < |reg[i].members|
    && (k != l ||
        (&& r.Some? && s.Some? && !IsBitNumber(r.value) && !IsBitNumber(s.value) && reg[i].members[k].typ.Custom?
         && (First(a) != First(b) ||
             (ValidType(reg, reg[i].members[k].typ) && Diverge(reg, reg[i].members[k].typ.index, r.value, s.value)))))
  }

  lemma MembersApart(reg: Registry, i: nat, p: string, m: nat, q: string, n: nat)
    requires Sound(reg) && i < |reg| && Bounded(reg, i, p) && Bounded(reg, i, q)
    requires Locate(reg, i, p, m).Found? && Locate(reg, i, q, n).Found?
    requires Segment(reg, i, p).0 < Segment(reg, i, q).0
    ensures var a := Locate(reg, i, p, m).item; var b := Locate(reg, i, q, n).item;
      ValidType(reg, a.typ) && ValidType(reg, b.typ) && Apart(reg, a, m, b, n)
  {
    hide *;
    InMember(reg, i, p, m);
    InMember(reg, i, q, n);
    var k, l := Segment(reg, i, p).0, Segment(reg, i, q).0;
    Disjoint(reg, i, k, l);
    Separated(reg, Locate(reg, i, p, m).item, m, Locate(reg, i, q, n).item, n,
              Start(reg, i, k), Start(reg, i, k) + MemberBits(reg, i, k),
              Start(reg, i, l), Start(reg, i, l) + MemberBits(reg, i, l));
  }

  lemma ElementsApart(reg: Registry, i: nat, p: string, m: nat, q: string, n: nat)
    requires Sound(reg) && i < |reg| && Bounded(reg, i, p) && Bounded(reg, i, q)
    requires Locate(reg, i, p, m).Found? && Locate(reg, i, q, n).Found?
    requires Segment(reg, i, p).0 == Segment(reg, i, q).0 && Segment(reg, i, p).2.Some? && Segment(reg, i, q).2.Some?
    requires First(Segment(reg, i, p).1) < First(Segment(reg, i, q).1)
    ensures var a := Locate(reg, i, p, m).item; var b := Locate(reg, i, q, n).item;
      ValidType(reg, a.typ) && ValidType(reg, b.typ) && Apart(reg, a, m, b, n)
  {
    hide *;
    InMember(reg, i, p, m);
    InMember(reg, i, q, n);
    var k, a, b := Segment(reg, i, p).0, First(Segment(reg, i, p).1), First(Segment(reg, i, q).1);
    ElementsOrdered(reg, i, k, a + 1, b);
    Separated(reg, Locate(reg, i, p, m).item, m, Locate(reg, i, q, n).item, n,
              Element(reg, i, k, a), Element(reg, i, k, a + 1), Element(reg, i, k, b), Element(reg, i, k, b + 1));
  }

  lemma Flipped(reg: Registry, a: Item, m: nat, b: Item, n: nat)
    requires Sound(reg) && ValidType(reg, a.typ) && ValidType(reg, b.typ) && Apart(reg, b, n, a, m)
    ensures Apart(reg, a, m, b, n)
  {
    hide Sound, Width;
  }

  /** Paths that diverge denote bits that are apart. */
  lemma {:induction false} ItemsApart(reg: Registry, i: nat, p: string, m: nat, q: string, n: nat)
    requires Sound(reg) && i < |reg| && Bounded(reg, i, p) && Bounded(reg, i, q) && Diverge(reg, i, p, q)
    requires Locate(reg, i, p, m).Found? && Locate(reg, i, q, n).Found?
    ensures var a := Locate(reg, i, p, m).item; var b := Locate(reg, i, q, n).item;
      ValidType(reg, a.typ) && ValidType(reg, b.typ) && Apart(reg, a, m, b, n)
    decreases |p|
  {
    hide Sound, Segment, Locate, Bounded, Apart, ValidType;
    var (k, a, r) := Segment(reg, i, p);
    var (l, b, s) := Segment(reg, i, q);
    var x, y := Locate(reg, i, p, m).item, Locate(reg, i, q, n).item;
    if k < l {
      MembersApart(reg, i, p, m, q, n);
    } else if l < k {
      MembersApart(reg, i, q, n, p, m);
      Flipped(reg, x, m, y, n);
    } else if First(a) < First(b) {
      ElementsApart(reg, i, p, m, q, n);
    } else if First(b) < First(a) {
      ElementsApart(reg, i, q, n, p, m);
      Flipped(reg, x, m, y, n);
    } else {
      NestedApart(reg, i, p, m, q, n);
    }
  }

  lemma NestedApart(reg: Registry, i: nat, p: string, m: nat, q: string, n: nat)
    requires Sound(reg) && i < |reg| && Bounded(reg, i, p) && Bounded(reg, i, q) && Diverge(reg, i, p, q)
    requires Locate(reg, i, p, m).Found? && Locate(reg, i, q, n).Found?
    requires Segment(reg, i, p).0 == Segment(reg, i, q).0 && First(Segment(reg, i, p).1) == First(Segment(reg, i, q).1)
    ensures var a := Locate(reg, i, p, m).item; var b := Locate(reg, i, q, n).item;
      ValidType(reg, a.typ) && ValidType(reg, b.typ) && Apart(reg, a, m, b, n)
    decreases |p|, 0
  {
    hide Sound, Segment, Locate, Bounded, Apart, Element, ArrayBits;
    var (k, a, r) := Segment(reg, i, p);
    var s := Segment(reg, i, q).2;
    var t := reg[i].members[k].typ;
    Nested(reg, i, p, m);
    Nested(reg, i, q, n);
    ItemsApart(reg, t.index, r.value, m, s.value, n);
    MovedApart(reg, Locate(reg, t.index, r.value, m).item, m, Locate(reg, t.index, s.value, n).item, n,
               Element(reg, i, k, First(a)));
  }

  lemma MovedApart(reg: Registry, a: Item, m: nat, b: Item, n: nat, d: nat)
    requires Sound(reg) && ValidType(reg, a.typ) && ValidType(reg, b.typ) && Apart(reg, a, m, b, n)
    ensures Apart(reg, a.(offset := a.offset + d), m, b.(offset := b.offset + d), n)
  {
    hide Sound, ArrayBits;
  }

  /** A path into a nested type names the item of the remaining path, further on. */
  lemma Nested(reg: Registry, i: nat, path: string, count: nat)
    requires Sound(reg) && i < |reg| && Bounded(reg, i, path) && Locate(reg, i, path, count).Found?
    requires var (k, sub, rest) := Segment(reg, i, path);
      k < |reg[i].members| && rest.Some? && !IsBitNumber(rest.value) && reg[i].members[k].typ.Custom?
    ensures var (k, sub, rest) := Segment(reg, i, path);
      && ValidType(reg, reg[i].members[k].typ)
      && var t := reg[i].members[k].typ;
      && Bounded(reg, t.index, rest.value) && Locate(reg, t.index, rest.value, count).Found?
      && Locate(reg, i, path, count) ==
           Locate(reg, t.index, rest.value, count).Moved(Element(reg, i, k, First(sub)))
  {
    hide Sound, Start, Cursor, Align, ElementBits, ArrayBits, SplitName, GetIndex, FindMember, MemberItem, BitItem;
    MemberFacts(reg, i, Segment(reg, i, path).0);
  }

  /** The same for two parts of a tag, each in an element of it. */
  ghost predicate TagsDiverge(reg: Registry, tag: Tag, a: Subscript, p: string, b: Subscript, q: string)
    requires Sound(reg) && GoodTag(reg, tag)
  {
    && tag.typ.Custom? && !IsBitNumber(p) && !IsBitNumber(q) && !a.Malformed? && !b.Malformed?
    && (First(a) != First(b) || Diverge(reg, tag.typ.index, p, q))
  }

  /** Parts that diverge denote bits that are apart. */
  lemma PartsApart(reg: Registry, tag: Tag, a: Subscript, p: string, m: nat, b: Subscript, q: string, n: nat)
    requires Sound(reg) && GoodTag(reg, tag) && TagsDiverge(reg, tag, a, p, b, q)
    requires BoundedPath(reg, tag, Some(p)) && BoundedPath(reg, tag, Some(q))
    requires TagItem(reg, tag, a, Some(p), m, false).Found? && TagItem(reg, tag, b, Some(q), n, false).Found?
    ensures
      var x := TagItem(reg, tag, a, Some(p), m, false).item;
      var y := TagItem(reg, tag, b, Some(q), n, false).item;
      ValidType(reg, x.typ) && ValidType(reg, y.typ) && Apart(reg, x, m, y, n)
  {
    hide Sound, ElementBits, ArrayBits, Locate, Resolve, Bounded, Diverge;
    var t := tag.typ;
    InNested(reg, t.index, p, m);
    InNested(reg, t.index, q, n);
    ArrayJoin(reg, t, First(a), 1);
    ArrayJoin(reg, t, First(b), 1);
    if First(a) < First(b) {
      More(reg, t, First(a) + 1, First(b));
    } else if First(b) < First(a) {
      More(reg, t, First(b) + 1, First(a));
    } else {
      ItemsApart(reg, t.index, p, m, q, n);
    }
  }

  // ---------------------------------------------------------------- from names to handles

  /** The bits of a transfer. */
  function Span(h: T.Handle): nat {
    if h.isBool then h.count else 8 * h.size
  }

  /** The transfer of the elements that an item denotes. */
  ghost function HandleOf(reg: Registry, item: Item, count: nat): T.Handle
    requires Sound(reg) && ValidType(reg, item.typ)
  {
    var n, byte := Denoted(item, count), (item.offset - item.bit) / 8;
    if byte < 0 then T.Handle(0, 0, 0, 0, false, 1)
    else if item.typ == Basic(BOOL) then T.Handle(byte, item.bit, n, BitSpan(item.bit, AtLeastOne(n)), true, 1)
    else T.Handle(byte, item.bit, n, Width(reg, item, count) / 8, false, ElementBits(reg, item.typ) / 8)
  }

  /** A transfer of the bits of an item. */
  ghost predicate Carries(reg: Registry, h: T.Handle, item: Item, count: nat)
    requires Sound(reg) && ValidType(reg, item.typ)
  {
    && h.Valid() && h.size > 0 && h.isBool == (item.typ == Basic(BOOL))
    && h.bit == item.bit && (!h.isBool ==> h.bit == 0)
    && h.First() == item.offset && h.count == Denoted(item, count) <= item.avail && Span(h) == Width(reg, item, count)
  }

  lemma HandleCarries(reg: Registry, handle: Handle, item: Item, count: nat)
    requires Sound(reg) && ValidType(reg, item.typ) && Denotes(reg, handle, item, count) && item.bit < 16
    ensures var h := HandleOf(reg, item, count);
      && (h.byte, h.bit, h.count, h.size) == (handle.byte, handle.bit, handle.count, handle.size)
      && Carries(reg, h, item, count)
  {
    hide Sound, ElementBits, ArrayBits, BitSpan;
    assert (item.offset - item.bit) / 8 == handle.byte;
    if item.typ == Basic(BOOL) {
      BoolArray(reg, handle.count);
      SpanFits(item.bit, handle.count);
    } else {
      WholeElements(reg, item.typ, handle.count);
    }
  }

  lemma SpanFits(bit: nat, n: nat)
    requires bit < 16 && n > 0
    ensures BitSpan(bit, n) == (bit % 8 + n - 1) / 8 + 1
  {}

  lemma WholeElements(reg: Registry, t: TagType, n: nat)
    requires Sound(reg) && ValidType(reg, t) && t != Basic(BOOL) && n > 0
    ensures var size, unit := ArrayBits(reg, t, n) / 8, ElementBits(reg, t) / 8;
      8 * size == ArrayBits(reg, t, n) && 0 < unit <= size && size % unit == 0
  {
    WholeBytes(reg, t);
    hide Sound, ElementBits;
    Multiples(ElementBits(reg, t), ElementBits(reg, t) / 8, n);
  }

  lemma Multiples(bits: nat, unit: nat, n: nat)
    requires bits == 8 * unit && unit > 0 && n > 0
    ensures bits * n == 8 * (unit * n) && unit <= unit * n && (unit * n) % unit == 0
  {
    T.Multiple(n, unit);
    T.AtLeast(n, unit);
  }

  lemma WholeBytes(reg: Registry, t: TagType)
    requires Sound(reg) && ValidType(reg, t) && t != Basic(BOOL)
    ensures ElementBits(reg, t) % 8 == 0 && ElementBits(reg, t) > 0
  {}

  // ---------------------------------------------------------------- names

  ghost function NameTag(str: string): string { GetIndex(SplitName(str).0).0 }

  ghost function NameSub(str: string): Subscript { GetIndex(SplitName(str).0).1 }

  ghost function NamePath(str: string): Option<string> { SplitName(str).1 }

  ghost predicate GoodTags(reg: Registry, tags: map<string, Tag>) {
    forall n :: n in tags ==> GoodTag(reg, tags[n])
  }

  /** Every name of the path that has another name after it is a CDT member. */
  ghost predicate WellKnown(reg: Registry, tags: map<string, Tag>, str: string)
    requires Sound(reg) && GoodTags(reg, tags)
  {
    NameTag(str) in tags && NamePath(str).Some? && tags[NameTag(str)].typ.Custom? ==>
      GoodTag(reg, tags[NameTag(str)]) && Descends(reg, tags[NameTag(str)].typ.index, NamePath(str).value)
  }

  /** What the parser finds for a name. */
  ghost function Parsed(reg: Registry, tags: map<string, Tag>, str: string, count: nat): (l: Lookup)
    requires Sound(reg) && GoodTags(reg, tags)
    ensures l.Failed? ==> l.code < 0
    ensures l.Found? ==> ValidType(reg, l.item.typ) && NameTag(str) in tags && !NameSub(str).Malformed?
  {
    if NameSub(str).Malformed? then Failed(ERR_ARG)
    else if NameTag(str) !in tags then Failed(ERR_NOTFOUND)
    else TagItem(reg, tags[NameTag(str)], NameSub(str), NamePath(str), count, true)
  }

  /** The transfer for a name: its handle, with the size of one element. */
  method Prepare(reg: Registry, tags: map<string, Tag>, str: string, count: nat) returns (err: int, h: T.Handle)
    requires Sound(reg) && GoodTags(reg, tags) && WellKnown(reg, tags, str)
    ensures var l := Parsed(reg, tags, str, count);
      match l
      case Failed(code) => err == code
      case Found(item) => err == 0 && h == HandleOf(reg, item, count) && Carries(reg, h, item, count)
  {
    hide Sound, ElementBits, ArrayBits, SplitName, GetIndex, Descends, TagItem, HandleOf, Carries;
    var handle := new Handle();
    err := TagHandle(reg, tags, handle, str, count);
    h := T.Handle(0, 0, 0, 0, false, 1);
    if err == 0 {
      var t := handle.typ.value;
      var unit := ElementSize(reg, t);
      h := T.Handle(handle.byte, handle.bit, handle.count, handle.size, t == Basic(BOOL), unit);
      ghost var item := Parsed(reg, tags, str, count).item;
      TagBitField(reg, tags[NameTag(str)], NameSub(str), NamePath(str), count);
      HandleCarries(reg, handle, item, count);
      HandleParts(reg, item, count);
    }
  }

  lemma HandleParts(reg: Registry, item: Item, count: nat)
    requires Sound(reg) && ValidType(reg, item.typ) && item.bit <= item.offset
    ensures var h := HandleOf(reg, item, count);
      && h.isBool == (item.typ == Basic(BOOL))
      && h.unit == if item.typ == Basic(BOOL) then 1 else ElementBits(reg, item.typ) / 8
  {
    hide Sound, ElementBits, ArrayBits, BitSpan;
  }

  // ---------------------------------------------------------------- writing by name

  /** The bit that a write by name starts from. */
  ghost function NamePlace(reg: Registry, tags: map<string, Tag>, str: string, count: nat): int
    requires Sound(reg) && GoodTags(reg, tags) && Parsed(reg, tags, str, count).Found?
  {
    Place(reg, tags[NameTag(str)], NameSub(str), NamePath(str), count)
  }

  /** `src` has come to the place of a transfer, and nothing else has changed. */
  ghost predicate Stored(before: seq<byte>, after: seq<byte>, h: T.Handle, place: int, src: seq<byte>) {
    && place >= 0 && |src| == h.size
    && if h.isBool then T.Replaced(before, after, place, h.count, src)
       else place == 8 * h.byte && h.byte + h.size <= |before| && after == Store.Written(before, h.byte, src)
  }

  /** A transfer goes out. */
  method WriteItem(server: T.Server, h: T.Handle, src: seq<byte>) returns (err: int)
    requires h.Valid() && h.size > 0 && |src| == h.size && (!h.isBool ==> h.bit == 0)
    modifies server.data
    ensures err == 0 <==> T.Accepted(h, server.data.Length)
    ensures err == 0 ==> Stored(old(server.data[..]), server.data[..], h, h.Target(), src)
  {
    hide BitAt, Store.Written, T.Replaced;
    err := T.TagWrite(server, h, src);
  }

  lemma TargetIsPlace(reg: Registry, tags: map<string, Tag>, str: string, count: nat, h: T.Handle)
    requires Sound(reg) && GoodTags(reg, tags) && Parsed(reg, tags, str, count).Found?
    requires Carries(reg, h, Parsed(reg, tags, str, count).item, count)
    ensures h.Target() == NamePlace(reg, tags, str, count)
    ensures h.bit < 8 <==> TagNoCarry(reg, tags[NameTag(str)], NamePath(str))
  {
    hide Sound, Width, TagItem, SplitName, GetIndex, TagNoCarry;
    TagBitField(reg, tags[NameTag(str)], NameSub(str), NamePath(str), count);
  }

  /** Writing by name, whatever the name: which writes go through, and where they land. */
  method WriteName(reg: Registry, tags: map<string, Tag>, server: T.Server, str: string, count: nat, src: seq<byte>)
    returns (err: int)
    requires Sound(reg) && GoodTags(reg, tags) && WellKnown(reg, tags, str)
    modifies server.data
    ensures var l := Parsed(reg, tags, str, count);
      err == 0 <==>
        l.Found? && var h := HandleOf(reg, l.item, count); h.size <= |src| && T.Accepted(h, server.data.Length)
    ensures err == 0 ==>
      var item := Parsed(reg, tags, str, count).item;
      var h := HandleOf(reg, item, count);
      && Carries(reg, h, item, count)
      && Stored(old(server.data[..]), server.data[..], h, NamePlace(reg, tags, str, count), src[..h.size])
  {
    hide Sound, WellKnown, Parsed, Stored, HandleOf, NamePlace, T.Accepted;
    var h;
    err, h := Prepare(reg, tags, str, count);
    if err != 0 { return; }
    if |src| < h.size { return ERR_2BIG; }
    TargetIsPlace(reg, tags, str, count, h);
    err := WriteItem(server, h, src[..h.size]);
  }

  /** What the layout says a name denotes. */
  ghost function Laid(reg: Registry, tags: map<string, Tag>, str: string, count: nat): Lookup
    requires Sound(reg) && GoodTags(reg, tags) && Parsed(reg, tags, str, count).Found?
  {
    TagItem(reg, tags[NameTag(str)], NameSub(str), NamePath(str), count, false)
  }

  /** The place of the layout is not before that of the write, and the same exactly when the name lands and no carry is
      lost. */
  lemma LaidExact(reg: Registry, tags: map<string, Tag>, str: string, count: nat)
    requires Sound(reg) && GoodTags(reg, tags) && Parsed(reg, tags, str, count).Found?
    ensures var l, item := Laid(reg, tags, str, count), Parsed(reg, tags, str, count).item;
      var place, tag := NamePlace(reg, tags, str, count), tags[NameTag(str)];
      && (l.Found? ==> place <= l.item.offset && Denoted(l.item, count) == Denoted(item, count))
      && (l.Found? && place == l.item.offset <==>
           TagLands(reg, tag, NameSub(str), NamePath(str), count) && TagNoCarry(reg, tag, NamePath(str)))
  {
    hide Sound, TagItem, TagLands, TagNoCarry, SplitName, GetIndex;
    var tag := tags[NameTag(str)];
    PlaceExact(reg, tag, NameSub(str), NamePath(str), count);
    if Laid(reg, tags, str, count).Found? {
      TagNotAhead(reg, tag, NameSub(str), NamePath(str), count);
    }
  }

  /** There is always a write that tells: the bits that the layout gives a BOOL name are replaced, and no others,
      exactly when the name lands and no carry is lost. */
  method ProbeName(reg: Registry, tags: map<string, Tag>, server: T.Server, str: string, count: nat)
    returns (err: int, src: seq<byte>)
    requires Sound(reg) && GoodTags(reg, tags) && WellKnown(reg, tags, str)
    modifies server.data
    ensures var l := Parsed(reg, tags, str, count);
      err == 0 <==>
        l.Found? && l.item.typ == Basic(BOOL) && T.Accepted(HandleOf(reg, l.item, count), server.data.Length)
    ensures err == 0 ==>
      var place, n := NamePlace(reg, tags, str, count), Denoted(Parsed(reg, tags, str, count).item, count);
      var tag, l := tags[NameTag(str)], Laid(reg, tags, str, count);
      && place >= 0 && T.Replaced(old(server.data[..]), server.data[..], place, n, src)
      && (l.Found? && T.Replaced(old(server.data[..]), server.data[..], l.item.offset, Denoted(l.item, count), src)
          <==> TagLands(reg, tag, NameSub(str), NamePath(str), count) && TagNoCarry(reg, tag, NamePath(str)))
  {
    hide Sound, WellKnown, Parsed, HandleOf, NamePlace, T.Accepted, T.Replaced, TagNoCarry, TagLands, Laid, Width;
    var h;
    src := [];
    err, h := Prepare(reg, tags, str, count);
    if err != 0 { return; }
    if !h.isBool { return ERR_BADTYPE, []; }
    TargetIsPlace(reg, tags, str, count, h);
    LaidExact(reg, tags, str, count);
    ghost var was, l := server.data[..], Laid(reg, tags, str, count);
    ghost var n := Denoted(Parsed(reg, tags, str, count).item, count);
    assert h.count == n && (l.Found? ==> Denoted(l.item, count) == n);
    err, src := T.Probe(server, h);
    if err == 0 {
      assert T.Replaced(was, server.data[..], h.Target(), n, src);
      if l.Found? {
        assert T.Replaced(was, server.data[..], l.item.offset, n, src) <==> l.item.offset == h.Target();
      }
    }
  }

  /** The bytes of every handle lie inside the tag, whether its name lands or not, when the element exists. */
  lemma HandleInside(reg: Registry, tags: map<string, Tag>, str: string, count: nat, h: T.Handle)
    requires Sound(reg) && GoodTags(reg, tags) && Parsed(reg, tags, str, count).Found?
    requires Carries(reg, h, Parsed(reg, tags, str, count).item, count)
    requires var tag := tags[NameTag(str)];
      BoundedPath(reg, tag, NamePath(str)) && (NamePath(str).None? || First(NameSub(str)) < tag.count)
    ensures var tag := tags[NameTag(str)]; h.byte + h.size <= TagBytes(reg, tag.typ, tag.count)
  {
    hide Sound, TagItem, BoundedPath, SplitName, GetIndex, ArrayBits, ElementBits;
    var tag, item := tags[NameTag(str)], Parsed(reg, tags, str, count).item;
    ParsedInTag(reg, tag, NameSub(str), NamePath(str), count);
    More(reg, item.typ, Denoted(item, count), item.avail);
    BitsInBytes(h, ArrayBits(reg, tag.typ, tag.count));
    TagRounds(reg, tag);
  }

  lemma BitsInBytes(h: T.Handle, bits: nat)
    requires h.Valid() && h.size > 0 && (!h.isBool ==> h.bit == 0) && h.First() + Span(h) <= bits
    ensures h.byte + h.size <= (bits + 7) / 8
  {
    if h.isBool { assert 8 * (h.byte + h.size - 1) <= 8 * h.byte + h.bit % 8 + h.count - 1; }
  }

  lemma TagRounds(reg: Registry, tag: Tag)
    requires Sound(reg) && GoodTag(reg, tag)
    ensures (ArrayBits(reg, tag.typ, tag.count) + 7) / 8 <= TagBytes(reg, tag.typ, tag.count)
  {
    if tag.typ == Basic(BOOL) {
      BoolArray(reg, tag.count);
    } else {
      WholeElements(reg, tag.typ, tag.count);
    }
  }

  // ---------------------------------------------------------------- independence

  /** Two contents of a tag agree on the bits of a transfer. */
  ghost predicate AgreeOn(s: seq<byte>, t: seq<byte>, h: T.Handle) {
    |s| == |t| && forall k :: 0 <= k < 8 * |s| && h.First() <= k < h.First() + Span(h) ==> BitAt(t, k) == BitAt(s, k)
  }

  /** The bits that a write changes are apart from those of another transfer. */
  predicate Clear(h: T.Handle, g: T.Handle) {
    h.Target() + Span(h) <= g.First() || g.First() + Span(g) <= h.Target()
  }

  /** A write beside a span leaves it as it was. */
  lemma BesideSpan(s: seq<byte>, t: seq<byte>, h: T.Handle, src: seq<byte>, g: T.Handle)
    requires Stored(s, t, h, h.Target(), src) && Clear(h, g)
    ensures AgreeOn(s, t, g)
  {
    hide BitAt, Store.Written;
    if !h.isBool {
      forall k | 0 <= k < 8 * |s| && g.First() <= k < g.First() + Span(g) ensures BitAt(t, k) == BitAt(s, k) {
        Store.WrittenBit(s, h.byte, src, k);
      }
    }
  }

  /** What is read depends on the bits of the span alone. */
  lemma ReadsAgree(s: seq<byte>, t: seq<byte>, h: T.Handle, beyond: byte, x: seq<byte>, y: seq<byte>)
    requires h.Valid() && (!h.isBool ==> h.bit == 0) && AgreeOn(s, t, h)
    requires T.ReadOf(s, h, beyond, x) && T.ReadOf(t, h, beyond, y)
    ensures x == y
  {
    hide BitAt;
    forall k | 0 <= k < 8 * h.size ensures BitAt(x, k) == BitAt(y, k) {
      if !h.isBool {
        SliceBit(s, h.byte, h.byte + h.size, k);
        SliceBit(t, h.byte, h.byte + h.size, k);
      }
    }
    BufferExt(x, y);
  }

  /** The bits that a write by name changes are apart from those that another name denotes. */
  ghost predicate NamesClear(reg: Registry, tags: map<string, Tag>, written: string, m: nat, kept: string, n: nat)
    requires Sound(reg) && GoodTags(reg, tags)
    requires Parsed(reg, tags, written, m).Found? && Parsed(reg, tags, kept, n).Found?
  {
    var place := NamePlace(reg, tags, written, m);
    var a, b := Parsed(reg, tags, written, m).item, Parsed(reg, tags, kept, n).item;
    place + Width(reg, a, m) <= b.offset || b.offset + Width(reg, b, n) <= place
  }

  /** For any two names of a tag: writing by the one stores what is written, and leaves what is read by the other as it
      was if the bits are apart, however the transfers are cut into messages. */
  method Independent(reg: Registry, tags: map<string, Tag>, server: T.Server, written: string, m: nat, src: seq<byte>,
                     kept: string, n: nat, beyond: byte)
    returns (err: int, before: seq<byte>, after: seq<byte>)
    requires Sound(reg) && GoodTags(reg, tags) && WellKnown(reg, tags, written) && WellKnown(reg, tags, kept)
    requires NameTag(written) == NameTag(kept)
    modifies server.data
    ensures var l, k := Parsed(reg, tags, written, m), Parsed(reg, tags, kept, n);
      err == 0 <==>
        && l.Found? && k.Found?
        && var h, g := HandleOf(reg, l.item, m), HandleOf(reg, k.item, n);
        h.size <= |src| && T.Accepted(h, server.data.Length) && T.Readable(g, server.data.Length)
    ensures err == 0 ==>
      var place := NamePlace(reg, tags, written, m);
      var h := HandleOf(reg, Parsed(reg, tags, written, m).item, m);
      var g := HandleOf(reg, Parsed(reg, tags, kept, n).item, n);
      && Stored(old(server.data[..]), server.data[..], h, place, src[..h.size])
      && g.Valid() && T.ReadOf(old(server.data[..]), g, beyond, before) && T.ReadOf(server.data[..], g, beyond, after)
    ensures err == 0 && NamesClear(reg, tags, written, m, kept, n) ==> after == before
  {
    hide Sound, WellKnown, Parsed, HandleOf, NamePlace, Stored, Carries, T.Accepted, T.Readable, T.ReadOf,
      T.Handle.Valid, NamesClear, Clear;
    before, after := [], [];
    var h, g;
    err, h := Prepare(reg, tags, written, m);
    if err != 0 { return; }
    err, g := Prepare(reg, tags, kept, n);
    if err != 0 { return; }
    if |src| < h.size { return ERR_2BIG, [], []; }
    SpansOf(reg, tags, written, m, h, kept, n, g);
    err, before, after := WriteAndReads(server, h, src[..h.size], g, beyond);
  }

  /** A write and the reads before and after it of another span. */
  method WriteAndReads(server: T.Server, h: T.Handle, src: seq<byte>, g: T.Handle, beyond: byte)
    returns (err: int, before: seq<byte>, after: seq<byte>)
    requires h.Valid() && h.size > 0 && (!h.isBool ==> h.bit == 0) && |src| == h.size
    requires g.Valid() && g.size > 0 && (!g.isBool ==> g.bit == 0)
    modifies server.data
    ensures err == 0 <==> T.Accepted(h, server.data.Length) && T.Readable(g, server.data.Length)
    ensures err == 0 ==>
      && Stored(old(server.data[..]), server.data[..], h, h.Target(), src)
      && T.ReadOf(old(server.data[..]), g, beyond, before) && T.ReadOf(server.data[..], g, beyond, after)
    ensures err == 0 && Clear(h, g) ==> after == before
  {
    hide T.Accepted, T.Readable, T.ReadOf, AgreeOn, Stored, Clear;
    after := [];
    err, before := T.TagRead(server, g, beyond);
    if err != 0 { return; }
    ghost var was := server.data[..];
    err := WriteItem(server, h, src);
    if err != 0 { return; }
    err, after := T.TagRead(server, g, beyond);
    if Clear(h, g) {
      BesideSpan(was, server.data[..], h, src, g);
      ReadsAgree(was, server.data[..], g, beyond, before, after);
    }
  }

  lemma SpansOf(reg: Registry, tags: map<string, Tag>, p: string, m: nat, h: T.Handle, q: string, n: nat, g: T.Handle)
    requires Sound(reg) && GoodTags(reg, tags)
    requires Parsed(reg, tags, p, m).Found? && Carries(reg, h, Parsed(reg, tags, p, m).item, m)
    requires Parsed(reg, tags, q, n).Found? && Carries(reg, g, Parsed(reg, tags, q, n).item, n)
    ensures h.Valid() && h.size > 0 && (!h.isBool ==> h.bit == 0)
    ensures g.Valid() && g.size > 0 && (!g.isBool ==> g.bit == 0)
    ensures h.Target() == NamePlace(reg, tags, p, m)
    ensures Clear(h, g) <==> NamesClear(reg, tags, p, m, q, n)
  {
    hide Sound, Width, TagItem, SplitName, GetIndex, T.Handle.Valid, TagNoCarry;
    TargetIsPlace(reg, tags, p, m, h);
  }

  /** The bits of two transfers that meet: one write always changes what is read. */
  method Disturb(server: T.Server, h: T.Handle, g: T.Handle, k: nat, beyond: byte)
    returns (err: int, src: seq<byte>, before: seq<byte>, after: seq<byte>)
    requires h.Valid() && h.size > 0 && (!h.isBool ==> h.bit == 0)
    requires g.Valid() && g.size > 0 && (!g.isBool ==> g.bit == 0)
    requires h.Target() <= k < h.Target() + Span(h)
    requires g.First() <= k < g.First() + Span(g) && k < 8 * (g.byte + g.size)
    modifies server.data
    ensures err == 0 <==> T.Accepted(h, server.data.Length) && T.Readable(g, server.data.Length)
    ensures err == 0 ==>
      && Stored(old(server.data[..]), server.data[..], h, h.Target(), src)
      && T.ReadOf(old(server.data[..]), g, beyond, before) && T.ReadOf(server.data[..], g, beyond, after)
      && after != before
  {
    hide T.Accepted, T.ReadOf, Stored, BitAt, T.Handle.Valid;
    if g.byte + g.size > server.data.Length { return ERR_2BIG, [], [], []; }
    ghost var was := server.data[..];
    src := T.Uniform(h.size, !BitAt(server.data[..], k));
    err, before, after := WriteAndReads(server, h, src, g, beyond);
    if err == 0 {
      BitFlipped(was, server.data[..], h, src, k);
      ReadsDiffer(was, server.data[..], g, beyond, before, after, k);
    }
  }

  lemma BitFlipped(s: seq<byte>, t: seq<byte>, h: T.Handle, src: seq<byte>, k: nat)
    requires Stored(s, t, h, h.Target(), src) && (!h.isBool ==> h.bit == 0)
    requires h.Target() <= k < h.Target() + Span(h) && k < 8 * |s|
    requires forall j :: 0 <= j < 8 * |src| ==> BitAt(src, j) == !BitAt(s, k)
    ensures |t| == |s| && BitAt(t, k) != BitAt(s, k)
  {
    hide BitAt, Store.Written;
    if !h.isBool { Store.WrittenBit(s, h.byte, src, k); }
  }

  lemma ReadsDiffer(s: seq<byte>, t: seq<byte>, g: T.Handle, beyond: byte, x: seq<byte>, y: seq<byte>, k: nat)
    requires g.Valid() && (!g.isBool ==> g.bit == 0) && T.ReadOf(s, g, beyond, x) && T.ReadOf(t, g, beyond, y)
    requires g.First() <= k < g.First() + Span(g) && k < 8 * (g.byte + g.size) && |s| == |t|
    requires k < 8 * |s| && BitAt(t, k) != BitAt(s, k)
    ensures x != y
  {
    hide BitAt;
    var j := k - g.First();
    if g.isBool {
      assert BitAt(x, j) == BitAt(s, k) && BitAt(y, j) == BitAt(t, k);
    } else {
      SliceBit(s, g.byte, g.byte + g.size, j);
      SliceBit(t, g.byte, g.byte + g.size, j);
    }
  }

  // ---------------------------------------------------------------- names that are clear of each other

  /** The name of a part of a tag that the parser finds where the layout has it. */
  ghost predicate NamesPart(reg: Registry, tags: map<string, Tag>, str: string, count: nat)
    requires Sound(reg) && GoodTags(reg, tags)
  {
    && NameTag(str) in tags && !NameSub(str).Malformed? && NamePath(str).Some?
    && var tag := tags[NameTag(str)];
    && BoundedPath(reg, tag, NamePath(str)) && TagLands(reg, tag, NameSub(str), NamePath(str), count)
  }

  /** The parts of a tag that two diverging names denote are clear of each other, if both names land and the one written
      loses no carry. */
  lemma PartsClear(reg: Registry, tags: map<string, Tag>, p: string, m: nat, q: string, n: nat)
    requires Sound(reg) && GoodTags(reg, tags) && NamesPart(reg, tags, p, m) && NamesPart(reg, tags, q, n)
    requires NameTag(p) == NameTag(q) && TagNoCarry(reg, tags[NameTag(p)], NamePath(p))
    requires TagsDiverge(reg, tags[NameTag(q)], NameSub(p), NamePath(p).value, NameSub(q), NamePath(q).value)
    requires Parsed(reg, tags, p, m).Found? && Parsed(reg, tags, q, n).Found?
    ensures NamesClear(reg, tags, p, m, q, n)
  {
    hide Sound, ArrayBits, TagItem, SplitName, GetIndex, TagsDiverge, TagLands, TagNoCarry, BoundedPath;
    var tag := tags[NameTag(q)];
    NameExact(reg, tag, NameSub(p), NamePath(p), m);
    NameExact(reg, tag, NameSub(q), NamePath(q), n);
    assert NamePath(p) == Some(NamePath(p).value) && NamePath(q) == Some(NamePath(q).value);
    PartsApart(reg, tag, NameSub(p), NamePath(p).value, m, NameSub(q), NamePath(q).value, n);
  }

  // ---------------------------------------------------------------- from the text of a name to the bytes of a tag

  /** The bytes of `n` elements at bit `first` of a tag have been replaced by those of `src`, and nothing else. */
  ghost predicate Put(reg: Registry, before: seq<byte>, after: seq<byte>, first: nat, t: TagType, n: nat,
                      src: seq<byte>)
    requires Sound(reg) && ValidType(reg, t)
  {
    if t == Basic(BOOL) then T.Replaced(before, after, first, n, src)
    else
      && first % 8 == 0 && ArrayBits(reg, t, n) % 8 == 0
      && var at, size := first / 8, ArrayBits(reg, t, n) / 8;
         && size <= |src| && at + size <= |before| == |after|
         && after == before[..at] + src[..size] + before[at + size..]
  }

  /** Writing by the text of a name that lands: the place of the layout is changed, computed from the name itself, and
      nothing else; for an element of a tag that is always so. */
  method WritePath(reg: Registry, tags: map<string, Tag>, server: T.Server, p: N.Path, count: nat, src: seq<byte>)
    returns (err: int)
    requires Sound(reg) && GoodTags(reg, tags) && N.Written(p) && p.step.name in tags
    requires var tag := tags[p.step.name];
      GoodTag(reg, tag) && (tag.typ.Custom? && p.Into? ==> N.Follows(reg, tag.typ.index, p.inner))
    modifies server.data
    ensures var l := Parsed(reg, tags, N.PathText(p), count);
      err == 0 <==>
        l.Found? && var h := HandleOf(reg, l.item, count); h.size <= |src| && T.Accepted(h, server.data.Length)
    ensures err == 0 && Arrives(reg, tags, p, count) ==>
      var l := N.TagLaid(reg, tags[p.step.name], p, count);
      && l.Found? && ValidType(reg, l.item.typ)
      && Put(reg, old(server.data[..]), server.data[..], l.item.offset, l.item.typ, Denoted(l.item, count), src)
    ensures p.End? ==> Arrives(reg, tags, p, count)
  {
    N.PathRead(p);
    ghost var str := N.PathText(p);
    PathKnown(reg, tags, p);
    EndArrives(reg, tags, p, count);
    hide *;
    ghost var before := server.data[..];
    err := WriteName(reg, tags, server, N.PathText(p), count, src);
    if err == 0 && Arrives(reg, tags, p, count) {
      PutThere(reg, tags, p, count, before, server.data[..], src);
    }
  }

  /** The parser lands on the place of the layout and no carry is lost. */
  ghost predicate Arrives(reg: Registry, tags: map<string, Tag>, p: N.Path, count: nat)
    requires Sound(reg) && GoodTags(reg, tags) && p.step.name in tags
  {
    var tag := tags[p.step.name];
    && GoodTag(reg, tag)
    && TagLands(reg, tag, N.SubscriptOf(p.step.index), N.After(p), count) && TagNoCarry(reg, tag, N.After(p))
  }

  lemma EndArrives(reg: Registry, tags: map<string, Tag>, p: N.Path, count: nat)
    requires Sound(reg) && GoodTags(reg, tags) && p.step.name in tags && GoodTag(reg, tags[p.step.name])
    ensures p.End? ==> Arrives(reg, tags, p, count)
  {}

  /** What the text of a name is read as. */
  lemma PathKnown(reg: Registry, tags: map<string, Tag>, p: N.Path)
    requires Sound(reg) && GoodTags(reg, tags) && N.Written(p) && p.step.name in tags
    requires var tag := tags[p.step.name];
      GoodTag(reg, tag) && (tag.typ.Custom? && p.Into? ==> N.Follows(reg, tag.typ.index, p.inner))
    ensures var str := N.PathText(p);
      && NameTag(str) == p.step.name && NameSub(str) == N.SubscriptOf(p.step.index) && NamePath(str) == N.After(p)
      && WellKnown(reg, tags, str)
  {
    N.PathRead(p);
    var tag := tags[p.step.name];
    if tag.typ.Custom? {
      N.TagFollows(reg, tag.typ.index, p);
    }
    hide Sound, SplitName, GetIndex, Descends, N.PathText, N.StepText;
  }

  lemma PutThere(reg: Registry, tags: map<string, Tag>, p: N.Path, count: nat, before: seq<byte>, after: seq<byte>,
                 src: seq<byte>)
    requires Sound(reg) && GoodTags(reg, tags) && N.Written(p) && p.step.name in tags
    requires Arrives(reg, tags, p, count)
    requires var str := N.PathText(p);
      NameTag(str) == p.step.name && NameSub(str) == N.SubscriptOf(p.step.index) && NamePath(str) == N.After(p)
    requires Parsed(reg, tags, N.PathText(p), count).Found?
    requires var item := Parsed(reg, tags, N.PathText(p), count).item;
      var h := HandleOf(reg, item, count);
      && h.size <= |src| && Carries(reg, h, item, count)
      && Stored(before, after, h, NamePlace(reg, tags, N.PathText(p), count), src[..h.size])
    ensures var l := N.TagLaid(reg, tags[p.step.name], p, count);
      && l.Found? && ValidType(reg, l.item.typ)
      && Put(reg, before, after, l.item.offset, l.item.typ, Denoted(l.item, count), src)
  {
    var str := N.PathText(p);
    N.TagRead(reg, tags[p.step.name], p, count);
    LaidKind(reg, tags, str, count);
    LaidExact(reg, tags, str, count);
    hide *;
    var item := Parsed(reg, tags, str, count).item;
    StoredPut(reg, item, count, before, after, NamePlace(reg, tags, str, count), src);
  }

  /** The layout has elements of the same type. */
  lemma LaidKind(reg: Registry, tags: map<string, Tag>, str: string, count: nat)
    requires Sound(reg) && GoodTags(reg, tags) && Parsed(reg, tags, str, count).Found?
    ensures Laid(reg, tags, str, count).Found? ==>
      Laid(reg, tags, str, count).item.typ == Parsed(reg, tags, str, count).item.typ
  {
    hide Sound, TagItem, SplitName, GetIndex;
    if Laid(reg, tags, str, count).Found? {
      TagNotAhead(reg, tags[NameTag(str)], NameSub(str), NamePath(str), count);
    }
  }

  lemma StoredPut(reg: Registry, item: Item, count: nat, before: seq<byte>, after: seq<byte>, place: int,
                  src: seq<byte>)
    requires Sound(reg) && ValidType(reg, item.typ) && Carries(reg, HandleOf(reg, item, count), item, count)
    requires var h := HandleOf(reg, item, count); h.size <= |src| && Stored(before, after, h, place, src[..h.size])
    ensures place >= 0 && Put(reg, before, after, place, item.typ, Denoted(item, count), src)
  {
    hide Sound, ElementBits, ArrayBits, HandleOf, BitAt;
    var h := HandleOf(reg, item, count);
    if h.isBool {
      forall k | 0 <= k < h.count ensures BitAt(src[..h.size], k) == BitAt(src, k) {
        SliceBit(src, 0, h.size, k);
      }
    }
  }
}
