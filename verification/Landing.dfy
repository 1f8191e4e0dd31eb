/** Exactly when the parser finds an item where the layout has it (src/lib/libcdt.c).  The parser does not align
    its cursor on the way into a nested type or to a numbered bit, and so may fall behind the layout. */
module Landing {
  import opened Common
  import opened Types
  import opened Text
  import opened Handles

  // ---------------------------------------------------------------- names that are refused

  /** The number that a bit number stands for. */
  function BitNumber(digits: string): nat {
    Value(digits[..DigitRun(digits)])
  }

  /** Why a numbered bit is refused, or zero. */
  ghost function BitRefusal(reg: Registry, t: TagType, digits: string, v: nat, count: nat): int
    requires Sound(reg) && ValidType(reg, t)
  {
    if !HasBits(t) then ERR_BADTYPE
    else if DigitRun(digits) != |digits| then ERR_ARG
    else if v + AtLeastOne(count) > ElementBits(reg, t) then ERR_2BIG
    else 0
  }

  function MemberRefusal(m: Member, sub: Subscript, count: nat): int {
    if sub.At? && First(sub) + AtLeastOne(count) > m.count then ERR_2BIG
    else if sub.Whole? && (count > m.count || m.count < 0) then ERR_2BIG
    else 0
  }

  /** Why the parser refuses a path, or zero; where the parser is makes no difference. */
  ghost function Refusal(reg: Registry, i: nat, path: string, count: nat): int
    requires Sound(reg) && i < |reg|
    decreases |path|
  {
    var (k, sub, rest) := Segment(reg, i, path);
    if sub.Malformed? then ERR_ARG
    else if k == |reg[i].members| then ERR_NOTFOUND
    else
      var m := reg[i].members[k];
      if rest.None? then MemberRefusal(m, sub, count)
      else if IsBitNumber(rest.value) then
        if m.count > 1 && sub.Whole? then ERR_ARG
        else BitRefusal(reg, m.typ, rest.value, BitField(BitNumber(rest.value)), count)
      else if m.typ.Basic? then ERR_NOTFOUND
      else
        var inner := Refusal(reg, m.typ.index, rest.value, count);
        if inner == 0 && sub.At? && sub.n + AtLeastOne(count) > m.count then ERR_2BIG else inner
  }

  lemma {:induction false} ResolveRefusal(reg: Registry, i: nat, path: string, count: nat, p: nat)
    requires Sound(reg) && i < |reg|
    ensures var l := Resolve(reg, i, path, count, p); var r := Refusal(reg, i, path, count);
      if r == 0 then l.Found? else l == Failed(r)
    decreases |path|
  {
    hide Sound, Walk, Align, ElementBits, ArrayBits, SplitName, GetIndex, FindMember, Value, DigitRun;
    var (k, sub, rest) := Segment(reg, i, path);
    if !sub.Malformed? && k < |reg[i].members| {
      MemberFacts(reg, i, k);
      var m := reg[i].members[k];
      if rest.Some? && !IsBitNumber(rest.value) && m.typ.Custom? {
        ResolveRefusal(reg, m.typ.index, rest.value, count, Walk(reg, i, k, p));
      }
    }
  }

  /** The layout refuses what the parser refuses, and bit numbers that the parser cuts to eight bits. */
  lemma {:induction false} LocateRefusal(reg: Registry, i: nat, path: string, count: nat)
    requires Sound(reg) && i < |reg|
    ensures var l := Locate(reg, i, path, count); var r := Refusal(reg, i, path, count);
      if r != 0 then l == Failed(r) else l.Failed? ==> l.code == ERR_2BIG
    decreases |path|
  {
    hide Sound, Start, Cursor, Align, ElementBits, ArrayBits, SplitName, GetIndex, FindMember, Value, DigitRun;
    var (k, sub, rest) := Segment(reg, i, path);
    if !sub.Malformed? && k < |reg[i].members| {
      MemberFacts(reg, i, k);
      var m := reg[i].members[k];
      if rest.Some? && !IsBitNumber(rest.value) && m.typ.Custom? {
        LocateRefusal(reg, m.typ.index, rest.value, count);
      }
    }
  }

  // ---------------------------------------------------------------- how far the parser is behind

  /** Rounding up to a byte makes good a lag of `lag` bits at cursor `c`. */
  predicate Catches(c: nat, lag: nat) {
    lag < 8 && (c % 8 == 0 || lag < c % 8)
  }

  /** How many bits behind the layout the parser is after `k` members, having entered the type `lag` bits behind; from
      eight on it does not catch up any more.  BOOLs keep the distance unless the bit counter overflows, and any other
      member starts on a byte. */
  ghost function Lag(reg: Registry, i: nat, k: nat, lag: nat): (after: nat)
    requires Sound(reg) && i < |reg| && k <= |reg[i].members|
    ensures lag >= 8 ==> after >= 8
  {
    if k == 0 then lag
    else
      var m, c, before := reg[i].members[k - 1], Cursor(reg, i, k - 1), Lag(reg, i, k - 1, lag);
      if before >= 8 then before
      else if m.IsBool() then if (c - before) % 8 + m.count < 256 then before else 8
      else if Catches(c, before) then 0 else 8
  }

  /** A distance, told apart below eight only. */
  predicate Agrees(lag: nat, distance: int) {
    if lag < 8 then distance == lag else distance >= 8
  }

  lemma {:induction false} LagExact(reg: Registry, i: nat, k: nat, p: nat, lag: nat)
    requires Sound(reg) && i < |reg| && k <= |reg[i].members| && p % 8 == 0 && lag <= p
    ensures Agrees(Lag(reg, i, k, lag), p + Cursor(reg, i, k) - Walk(reg, i, k, p - lag))
  {
    hide *;
    if k == 0 {
      LagStart(reg, i, p, lag);
    } else {
      LagExact(reg, i, k - 1, p, lag);
      LagStep(reg, i, k - 1, p, p - lag, lag);
    }
  }

  lemma LagStart(reg: Registry, i: nat, p: nat, lag: nat)
    requires Sound(reg) && i < |reg| && lag <= p
    ensures Agrees(Lag(reg, i, 0, lag), p + Cursor(reg, i, 0) - Walk(reg, i, 0, p - lag))
  {}

  lemma LagStep(reg: Registry, i: nat, k: nat, p: nat, q: nat, lag: nat)
    requires Sound(reg) && i < |reg| && k < |reg[i].members| && p % 8 == 0
    requires Agrees(Lag(reg, i, k, lag), p + Cursor(reg, i, k) - Walk(reg, i, k, q))
    ensures Agrees(Lag(reg, i, k + 1, lag), p + Cursor(reg, i, k + 1) - Walk(reg, i, k + 1, q))
  {
    hide Sound, Align, Skip, ElementBits, ArrayBits;
    MemberFacts(reg, i, k);
    var m := reg[i].members[k];
    var c, w := Cursor(reg, i, k), Walk(reg, i, k, q);
    assert Cursor(reg, i, k + 1) == Start(reg, i, k) + MemberBits(reg, i, k);
    if m.IsBool() {
      assert MemberBits(reg, i, k) == m.count;
      SkipBehind(p, c, w, m.count);
    } else {
      CatchUp(p, c, w);
    }
  }

  lemma SkipBehind(p: nat, c: nat, w: nat, n: nat)
    requires p % 8 == 0 && w <= p + c
    ensures var e := p + c - w;
      && (if (c - e) % 8 + n < 256 then Skip(w, n) == w + n else Skip(w, n) <= w + n - 256)
      && Skip(w, n) <= w + n
  {
    var e := p + c - w;
    assert p == 8 * (p / 8) && w == p + (c - e);
    assert w % 8 == (c - e) % 8;
  }

  lemma CatchUp(p: nat, c: nat, w: nat)
    requires p % 8 == 0 && w <= p + c
    ensures var e := p + c - w;
      if Catches(c, e) then Align(w) == p + Align(c) else Align(w) <= p + Align(c) - 8
    ensures Align(w) <= p + Align(c)
  {
    RoundUp(w);
    RoundUp(c);
    assert p == 8 * (p / 8) && c == 8 * (c / 8) + c % 8;
  }

  /** The item of a path is found where the layout has it, for a parser that enters the type `lag` bits behind. */
  ghost predicate OnSpot(reg: Registry, i: nat, path: string, lag: nat)
    requires Sound(reg) && i < |reg|
    decreases |path|
  {
    var (k, sub, rest) := Segment(reg, i, path);
    k < |reg[i].members| ==>
      var m := reg[i].members[k];
      var c := Cursor(reg, i, k);
      var here := Lag(reg, i, k, lag);
      if rest.None? then if m.IsBool() then here == 0 else Catches(c, here)
      else if IsBitNumber(rest.value) then here == 0 && c % 8 == 0 && BitNumber(rest.value) < 256
      else m.typ.Custom? ==> OnSpot(reg, m.typ.index, rest.value, here + (Align(c) - c))
  }

  /** Exactly the names that the parser answers as the layout does. */
  ghost predicate Lands(reg: Registry, i: nat, path: string, count: nat, lag: nat)
    requires Sound(reg) && i < |reg|
  {
    Refusal(reg, i, path, count) == 0 ==> OnSpot(reg, i, path, lag)
  }

  lemma {:induction false} FarBehind(reg: Registry, i: nat, path: string, count: nat, lag: nat)
    requires Sound(reg) && i < |reg| && lag >= 8 && Refusal(reg, i, path, count) == 0
    ensures !OnSpot(reg, i, path, lag)
    decreases |path|
  {
    hide Sound, Align, Cursor, Lag, ElementBits, ArrayBits, SplitName, GetIndex, FindMember, Value, DigitRun;
    var (k, sub, rest) := Segment(reg, i, path);
    var m := reg[i].members[k];
    if rest.Some? && !IsBitNumber(rest.value) {
      MemberFacts(reg, i, k);
      var c := Cursor(reg, i, k);
      FarBehind(reg, m.typ.index, rest.value, count, Lag(reg, i, k, lag) + (Align(c) - c));
    }
  }

  /** What a lag, as far as it is known, says about reaching a member. */
  lemma ArrivalExact(p: nat, c: nat, w: nat, lag: nat)
    requires p % 8 == 0 && w <= p + c && Agrees(lag, p + c - w)
    ensures w == p + c <==> lag == 0
    ensures Align(w) == p + Align(c) <==> Catches(c, lag)
    ensures w - w % 8 == p + Align(c) <==> lag == 0 && c % 8 == 0
  {
    CatchUp(p, c, w);
    RoundUp(c);
    assert p == 8 * (p / 8);
  }

  lemma MemberExact(reg: Registry, i: nat, path: string, count: nat, p: nat, lag: nat)
    requires Sound(reg) && i < |reg| && p % 8 == 0 && lag <= p && Refusal(reg, i, path, count) == 0
    requires Segment(reg, i, path).2.None?
    ensures SamePlace(Resolve(reg, i, path, count, p - lag), Locate(reg, i, path, count).Moved(p))
      <==> OnSpot(reg, i, path, lag)
  {
    hide Sound, Walk, Cursor, Align, ElementBits, ArrayBits, SplitName, GetIndex, FindMember, Value, DigitRun, Lag,
      Catches;
    var (k, sub, rest) := Segment(reg, i, path);
    MemberFacts(reg, i, k);
    LagExact(reg, i, k, p, lag);
    ArrivalExact(p, Cursor(reg, i, k), Walk(reg, i, k, p - lag), Lag(reg, i, k, lag));
  }

  lemma BitExact(reg: Registry, i: nat, path: string, count: nat, p: nat, lag: nat)
    requires Sound(reg) && i < |reg| && p % 8 == 0 && lag <= p && Refusal(reg, i, path, count) == 0
    requires var rest := Segment(reg, i, path).2; rest.Some? && IsBitNumber(rest.value)
    ensures SamePlace(Resolve(reg, i, path, count, p - lag), Locate(reg, i, path, count).Moved(p))
      <==> OnSpot(reg, i, path, lag)
  {
    hide Sound, Walk, Cursor, Align, ElementBits, ArrayBits, SplitName, GetIndex, FindMember, Value, DigitRun, Lag,
      Catches;
    var (k, sub, rest) := Segment(reg, i, path);
    MemberFacts(reg, i, k);
    LagExact(reg, i, k, p, lag);
    ArrivalExact(p, Cursor(reg, i, k), Walk(reg, i, k, p - lag), Lag(reg, i, k, lag));
  }

  /** Going into a nested type leaves the question as it was. */
  lemma Descent(reg: Registry, i: nat, path: string, count: nat, p: nat, q: nat)
    requires Sound(reg) && i < |reg| && Refusal(reg, i, path, count) == 0
    requires var rest := Segment(reg, i, path).2; rest.Some? && !IsBitNumber(rest.value)
    ensures var (k, sub, rest) := Segment(reg, i, path);
      && k < |reg[i].members| && reg[i].members[k].typ.Custom? && ValidType(reg, reg[i].members[k].typ)
      && var j, start, w := reg[i].members[k].typ.index, Align(Cursor(reg, i, k)), Walk(reg, i, k, q);
      && Refusal(reg, j, rest.value, count) == 0
      && (SamePlace(Resolve(reg, i, path, count, q), Locate(reg, i, path, count).Moved(p))
          <==> SamePlace(Resolve(reg, j, rest.value, count, w), Locate(reg, j, rest.value, count).Moved(p + start)))
  {
    hide Sound, Walk, Cursor, Align, ElementBits, ArrayBits, SplitName, GetIndex, FindMember, Value, DigitRun,
      MemberItem, BitItem, MemberRefusal, BitRefusal;
    var (k, sub, rest) := Segment(reg, i, path);
    MemberFacts(reg, i, k);
    ResolveRefusal(reg, reg[i].members[k].typ.index, rest.value, count, Walk(reg, i, k, q));
  }

  /** The parser, entering a type `lag` bits before position `p`, finds an item where the layout has it exactly when
      the path lands. */
  lemma {:induction false} PathExact(reg: Registry, i: nat, path: string, count: nat, p: nat, lag: nat)
    requires Sound(reg) && i < |reg| && p % 8 == 0 && lag <= p
    ensures SamePlace(Resolve(reg, i, path, count, p - lag), Locate(reg, i, path, count).Moved(p))
      <==> Lands(reg, i, path, count, lag)
    decreases |path|
  {
    hide Sound, Walk, Cursor, Align, Resolve, Locate, Refusal, Segment, Lag, Catches, IsBitNumber;
    ResolveRefusal(reg, i, path, count, p - lag);
    LocateRefusal(reg, i, path, count);
    var (k, sub, rest) := Segment(reg, i, path);
    if Refusal(reg, i, path, count) != 0 {
    } else if rest.None? {
      MemberExact(reg, i, path, count, p, lag);
    } else if IsBitNumber(rest.value) {
      BitExact(reg, i, path, count, p, lag);
    } else {
      Descent(reg, i, path, count, p, p - lag);
      LagExact(reg, i, k, p, lag);
      var j := reg[i].members[k].typ.index;
      var c, w, here := Cursor(reg, i, k), Walk(reg, i, k, p - lag), Lag(reg, i, k, lag);
      PathExact(reg, j, rest.value, count, p + Align(c), p + Align(c) - w);
      if here >= 8 {
        FarBehind(reg, j, rest.value, count, here + (Align(c) - c));
        FarBehind(reg, j, rest.value, count, p + Align(c) - w);
      }
    }
  }

  // ---------------------------------------------------------------- from the tag name on

  /** Exactly the names of a tag that get the place the layout has. */
  ghost predicate TagLands(reg: Registry, tag: Tag, sub: Subscript, rest: Option<string>, count: nat)
    requires Sound(reg) && GoodTag(reg, tag)
  {
    rest.None? || (tag.count > 1 && sub.Whole?) ||
    if IsBitNumber(rest.value) then
      var v := BitNumber(rest.value);
      v < 256 || BitRefusal(reg, tag.typ, rest.value, BitField(v), count) != 0
    else tag.typ.Custom? ==> Lands(reg, tag.typ.index, rest.value, count, 0)
  }

  lemma NameExact(reg: Registry, tag: Tag, sub: Subscript, rest: Option<string>, count: nat)
    requires Sound(reg) && GoodTag(reg, tag) && !sub.Malformed?
    ensures SamePlace(TagItem(reg, tag, sub, rest, count, true), TagItem(reg, tag, sub, rest, count, false))
      <==> TagLands(reg, tag, sub, rest, count)
  {
    hide Sound, ElementBits, ArrayBits, Resolve, Locate, Lands, Value, DigitRun, MemberItem;
    if rest.Some? && tag.typ.Custom? {
      PathExact(reg, tag.typ.index, rest.value, count, 0, 0);
    }
  }

  /** The element that a numbered bit is taken from exists, seen from the tag. */
  ghost predicate BoundedPath(reg: Registry, tag: Tag, rest: Option<string>)
    requires Sound(reg) && GoodTag(reg, tag)
  {
    rest.Some? && !IsBitNumber(rest.value) && tag.typ.Custom? ==> Bounded(reg, tag.typ.index, rest.value)
  }

  /** What the layout says a name denotes lies inside the tag when the element exists, and past its end when not. */
  lemma InsideTag(reg: Registry, tag: Tag, sub: Subscript, rest: Option<string>, count: nat)
    requires Sound(reg) && GoodTag(reg, tag) && !sub.Malformed? && BoundedPath(reg, tag, rest)
    requires TagItem(reg, tag, sub, rest, count, false).Found?
    ensures var item := TagItem(reg, tag, sub, rest, count, false).item; var end := ArrayBits(reg, tag.typ, tag.count);
      && ValidType(reg, item.typ)
      && if rest.None? || First(sub) < tag.count then item.offset + ArrayBits(reg, item.typ, item.avail) <= end
         else item.offset >= end
  {
    hide Sound, ElementBits, ArrayBits, BitItem, Bounded, Resolve, Locate, Value, DigitRun;
    var first := First(sub);
    if rest.None? {
      ArrayJoin(reg, tag.typ, first, tag.count - first);
    } else {
      if first < tag.count {
        OneElement(reg, tag, first);
      } else {
        ArrayJoin(reg, tag.typ, tag.count, first - tag.count);
      }
      if IsBitNumber(rest.value) {
        BitItemEnd(reg, tag.typ, rest.value, BitNumber(rest.value), first, count);
      } else {
        LocateInside(reg, tag.typ.index, rest.value, count);
      }
    }
  }

  lemma OneElement(reg: Registry, tag: Tag, first: nat)
    requires Sound(reg) && GoodTag(reg, tag) && first < tag.count
    ensures ArrayBits(reg, tag.typ, first) + ElementBits(reg, tag.typ) <= ArrayBits(reg, tag.typ, tag.count)
  {
    hide ElementBits, ArrayBits;
    ArrayJoin(reg, tag.typ, first, 1);
    ArrayJoin(reg, tag.typ, first + 1, tag.count - first - 1);
  }

  lemma BitItemEnd(reg: Registry, t: TagType, digits: string, v: nat, first: nat, count: nat)
    requires Sound(reg) && ValidType(reg, t)
    ensures var l := BitItem(reg, t, digits, v, first, count);
      l.Found? ==>
        && l.item.typ == Basic(BOOL)
        && ArrayBits(reg, t, first) <= l.item.offset
        && l.item.offset + ArrayBits(reg, l.item.typ, l.item.avail) == ArrayBits(reg, t, first) + ElementBits(reg, t)
  {
    hide ElementBits, ArrayBits;
    if v <= ElementBits(reg, t) {
      BoolArray(reg, ElementBits(reg, t) - v);
    }
  }

  // ---------------------------------------------------------------- the handle's bit field

  /** No carry is lost in an indexed BOOL: the handle's bit field ends up below eight. */
  ghost predicate NoCarry(reg: Registry, i: nat, path: string, p: nat)
    requires Sound(reg) && i < |reg|
    decreases |path|
  {
    var (k, sub, rest) := Segment(reg, i, path);
    k < |reg[i].members| ==>
      var m := reg[i].members[k];
      var w := Walk(reg, i, k, p);
      if rest.None? then m.IsBool() ==> w % 8 + First(sub) % 8 < 8
      else !IsBitNumber(rest.value) && m.typ.Custom? ==> NoCarry(reg, m.typ.index, rest.value, w)
  }

  /** On every path, the handle's bit field is a bit number exactly when no carry is lost. */
  lemma {:induction false} BitFieldExact(reg: Registry, i: nat, path: string, count: nat, p: nat)
    requires Sound(reg) && i < |reg| && Resolve(reg, i, path, count, p).Found?
    ensures var item := Resolve(reg, i, path, count, p).item;
      item.bit < 15 && (item.bit < 8 <==> NoCarry(reg, i, path, p))
    decreases |path|
  {
    hide Sound, Walk, Align, ElementBits, ArrayBits, SplitName, GetIndex, FindMember, Value, DigitRun;
    var (k, sub, rest) := Segment(reg, i, path);
    MemberFacts(reg, i, k);
    if rest.Some? && !IsBitNumber(rest.value) {
      BitFieldExact(reg, reg[i].members[k].typ.index, rest.value, count, Walk(reg, i, k, p));
    }
  }

  /** The same for the names of a tag. */
  ghost predicate TagNoCarry(reg: Registry, tag: Tag, rest: Option<string>)
    requires Sound(reg) && GoodTag(reg, tag)
  {
    rest.Some? && !IsBitNumber(rest.value) && tag.typ.Custom? ==> NoCarry(reg, tag.typ.index, rest.value, 0)
  }

  lemma TagBitField(reg: Registry, tag: Tag, sub: Subscript, rest: Option<string>, count: nat)
    requires Sound(reg) && GoodTag(reg, tag) && !sub.Malformed? && TagItem(reg, tag, sub, rest, count, true).Found?
    ensures var item := TagItem(reg, tag, sub, rest, count, true).item;
      item.bit < 15 && (item.bit < 8 <==> TagNoCarry(reg, tag, rest))
  {
    hide Sound, ElementBits, ArrayBits, Resolve, Locate, NoCarry, Value, DigitRun;
    if rest.Some? && !IsBitNumber(rest.value) {
      BitFieldExact(reg, tag.typ.index, rest.value, count, 0);
    }
  }

  // ---------------------------------------------------------------- where a write lands

  /** The same elements, not further on. */
  predicate Behind(a: Item, b: Item) {
    a.offset <= b.offset && a.typ == b.typ && a.avail == b.avail && a.whole == b.whole
  }

  lemma ShortElement(reg: Registry, t: TagType)
    requires Sound(reg) && ValidType(reg, t) && HasBits(t)
    ensures ElementBits(reg, t) <= 64
  {}

  lemma WalkBehind(reg: Registry, i: nat, k: nat, p: nat, q: nat)
    requires Sound(reg) && i < |reg| && k < |reg[i].members| && p % 8 == 0 && q <= p
    ensures Walk(reg, i, k, q) <= p + Cursor(reg, i, k) && Align(Walk(reg, i, k, q)) <= p + Align(Cursor(reg, i, k))
  {
    hide Sound, Walk, Cursor, Align, Lag;
    LagExact(reg, i, k, p, p - q);
    CatchUp(p, Cursor(reg, i, k), Walk(reg, i, k, q));
  }

  lemma MemberBehind(reg: Registry, i: nat, path: string, count: nat, p: nat, q: nat)
    requires Sound(reg) && i < |reg| && p % 8 == 0 && q <= p
    requires Resolve(reg, i, path, count, q).Found? && Locate(reg, i, path, count).Found?
    requires Segment(reg, i, path).2.None?
    ensures Behind(Resolve(reg, i, path, count, q).item, Locate(reg, i, path, count).Moved(p).item)
  {
    hide Sound, Walk, Cursor, Align, ElementBits, ArrayBits, SplitName, GetIndex, FindMember, BitItem;
    var k := Segment(reg, i, path).0;
    MemberFacts(reg, i, k);
    WalkBehind(reg, i, k, p, q);
  }

  lemma BitBehind(reg: Registry, i: nat, path: string, count: nat, p: nat, q: nat)
    requires Sound(reg) && i < |reg| && p % 8 == 0 && q <= p
    requires Resolve(reg, i, path, count, q).Found? && Locate(reg, i, path, count).Found?
    requires var rest := Segment(reg, i, path).2; rest.Some? && IsBitNumber(rest.value)
    ensures Behind(Resolve(reg, i, path, count, q).item, Locate(reg, i, path, count).Moved(p).item)
  {
    hide Sound, Walk, Cursor, Align, ElementBits, ArrayBits, SplitName, GetIndex, FindMember, MemberItem, BitItem,
      Value, DigitRun;
    var (k, sub, rest) := Segment(reg, i, path);
    MemberFacts(reg, i, k);
    WalkBehind(reg, i, k, p, q);
    BitsMatch(reg, reg[i].members[k].typ, rest.value, BitNumber(rest.value), First(sub), count);
  }

  /** A bit number that the layout accepts is below 256. */
  lemma BitsMatch(reg: Registry, t: TagType, digits: string, v: nat, first: nat, count: nat)
    requires Sound(reg) && ValidType(reg, t) && BitItem(reg, t, digits, v, first, count).Found?
    ensures BitField(v) == v
  {
    hide Sound, ElementBits, ArrayBits, Value, DigitRun;
    ShortElement(reg, t);
  }

  /** What a path into a nested type gives is what the rest of the path gives there, further on. */
  lemma NestedParsed(reg: Registry, i: nat, path: string, count: nat, q: nat)
    requires Sound(reg) && i < |reg| && Resolve(reg, i, path, count, q).Found?
    requires var rest := Segment(reg, i, path).2; rest.Some? && !IsBitNumber(rest.value)
    ensures var (k, sub, rest) := Segment(reg, i, path);
      && k < |reg[i].members| && ValidType(reg, reg[i].members[k].typ) && reg[i].members[k].typ.Custom?
      && First(sub) < reg[i].members[k].count
      && var t := reg[i].members[k].typ; var inner := Resolve(reg, t.index, rest.value, count, Walk(reg, i, k, q));
      inner.Found? && Resolve(reg, i, path, count, q) == inner.Moved(ArrayBits(reg, t, First(sub)))
  {
    hide Sound, Walk, ElementBits, ArrayBits, SplitName, GetIndex, FindMember, MemberItem, BitItem, IsBitNumber;
    MemberFacts(reg, i, Segment(reg, i, path).0);
  }

  lemma NestedLaid(reg: Registry, i: nat, path: string, count: nat)
    requires Sound(reg) && i < |reg| && Locate(reg, i, path, count).Found?
    requires var rest := Segment(reg, i, path).2; rest.Some? && !IsBitNumber(rest.value)
    ensures var (k, sub, rest) := Segment(reg, i, path);
      && k < |reg[i].members| && ValidType(reg, reg[i].members[k].typ) && reg[i].members[k].typ.Custom?
      && var t := reg[i].members[k].typ; var inner := Locate(reg, t.index, rest.value, count);
      && inner.Found?
      && Locate(reg, i, path, count) == inner.Moved(Align(Cursor(reg, i, k)) + ArrayBits(reg, t, First(sub)))
  {
    hide Sound, Cursor, Align, ElementBits, ArrayBits, SplitName, GetIndex, FindMember, MemberItem, BitItem,
      IsBitNumber;
    MemberFacts(reg, i, Segment(reg, i, path).0);
  }

  lemma NestedBehind(reg: Registry, i: nat, path: string, count: nat, p: nat, q: nat)
    requires Sound(reg) && i < |reg| && Resolve(reg, i, path, count, q).Found? && Locate(reg, i, path, count).Found?
    requires var (k, sub, rest) := Segment(reg, i, path);
      && rest.Some? && !IsBitNumber(rest.value) && k < |reg[i].members| && reg[i].members[k].typ.Custom?
      && reg[i].members[k].typ.index < |reg|
      && var j, base := reg[i].members[k].typ.index, p + Align(Cursor(reg, i, k));
      && Resolve(reg, j, rest.value, count, Walk(reg, i, k, q)).Found? && Locate(reg, j, rest.value, count).Found?
      && Behind(Resolve(reg, j, rest.value, count, Walk(reg, i, k, q)).item,
                Locate(reg, j, rest.value, count).Moved(base).item)
    ensures Behind(Resolve(reg, i, path, count, q).item, Locate(reg, i, path, count).Moved(p).item)
  {
    hide Sound, Walk, Cursor, Align, ElementBits, ArrayBits, Resolve, Locate, Segment, IsBitNumber;
    NestedParsed(reg, i, path, count, q);
    NestedLaid(reg, i, path, count);
  }

  /** The parser is never ahead of the layout. */
  lemma {:induction false} NotAhead(reg: Registry, i: nat, path: string, count: nat, p: nat, q: nat)
    requires Sound(reg) && i < |reg| && p % 8 == 0 && q <= p
    requires Resolve(reg, i, path, count, q).Found? && Locate(reg, i, path, count).Found?
    ensures Behind(Resolve(reg, i, path, count, q).item, Locate(reg, i, path, count).Moved(p).item)
    decreases |path|
  {
    hide *;
    var (k, sub, rest) := Segment(reg, i, path);
    if rest.None? {
      MemberBehind(reg, i, path, count, p, q);
    } else if IsBitNumber(rest.value) {
      BitBehind(reg, i, path, count, p, q);
    } else {
      NestedParsed(reg, i, path, count, q);
      NestedLaid(reg, i, path, count);
      CustomKnown(reg, reg[i].members[k].typ);
      WalkBehind(reg, i, k, p, q);
      var j, base := reg[i].members[k].typ.index, p + Align(Cursor(reg, i, k));
      NotAhead(reg, j, rest.value, count, base, Walk(reg, i, k, q));
      NestedBehind(reg, i, path, count, p, q);
    }
  }

  lemma CustomKnown(reg: Registry, t: TagType)
    requires ValidType(reg, t) && t.Custom?
    ensures t.index < |reg|
  {}

  lemma MemberParsedInside(reg: Registry, i: nat, path: string, count: nat, p: nat, q: nat)
    requires Sound(reg) && i < |reg| && p % 8 == 0 && q <= p && Resolve(reg, i, path, count, q).Found?
    requires Segment(reg, i, path).2.None?
    ensures Ends(reg, Resolve(reg, i, path, count, q).item, p + ElementBits(reg, Custom(i)))
  {
    hide Sound, Walk, Cursor, Start, Align, ElementBits, ArrayBits, SplitName, GetIndex, FindMember, BitItem;
    var (k, sub, rest) := Segment(reg, i, path);
    MemberFacts(reg, i, k);
    WalkBehind(reg, i, k, p, q);
    MemberInside(reg, i, k, sub, count);
    StartIs(reg, i, k);
  }

  lemma StartIs(reg: Registry, i: nat, k: nat)
    requires Sound(reg) && i < |reg| && k < |reg[i].members|
    ensures Start(reg, i, k) == if reg[i].members[k].IsBool() then Cursor(reg, i, k) else Align(Cursor(reg, i, k))
  {}

  lemma BitParsedInside(reg: Registry, i: nat, path: string, count: nat, p: nat, q: nat)
    requires Sound(reg) && i < |reg| && p % 8 == 0 && q <= p && Resolve(reg, i, path, count, q).Found?
    requires var rest := Segment(reg, i, path).2; rest.Some? && IsBitNumber(rest.value)
    requires Bounded(reg, i, path)
    ensures Ends(reg, Resolve(reg, i, path, count, q).item, p + ElementBits(reg, Custom(i)))
  {
    hide Sound, Walk, Cursor, Start, Align, ElementBits, ArrayBits, SplitName, GetIndex, FindMember, MemberItem, Value,
      DigitRun;
    var (k, sub, rest) := Segment(reg, i, path);
    MemberFacts(reg, i, k);
    WalkBehind(reg, i, k, p, q);
    StartIs(reg, i, k);
    BitInside(reg, i, k, rest.value, BitField(BitNumber(rest.value)), First(sub), count);
  }

  /** An item with all its elements ends before bit `end`. */
  ghost predicate Ends(reg: Registry, item: Item, end: nat)
    requires Sound(reg)
  {
    ValidType(reg, item.typ) && item.offset + ArrayBits(reg, item.typ, item.avail) <= end
  }

  /** What the parser finds, whether it lands or not, lies inside the type that its path starts from. */
  lemma {:induction false} ParsedInside(reg: Registry, i: nat, path: string, count: nat, p: nat, q: nat)
    requires Sound(reg) && i < |reg| && p % 8 == 0 && q <= p && Resolve(reg, i, path, count, q).Found?
    requires Bounded(reg, i, path)
    ensures Ends(reg, Resolve(reg, i, path, count, q).item, p + ElementBits(reg, Custom(i)))
    decreases |path|
  {
    hide Sound, Walk, Cursor, Start, Align, ElementBits, ArrayBits, Resolve, Segment, IsBitNumber;
    var (k, sub, rest) := Segment(reg, i, path);
    if rest.None? {
      MemberParsedInside(reg, i, path, count, p, q);
    } else if IsBitNumber(rest.value) {
      BitParsedInside(reg, i, path, count, p, q);
    } else {
      NestedParsed(reg, i, path, count, q);
      WalkBehind(reg, i, k, p, q);
      StartIs(reg, i, k);
      var t := reg[i].members[k].typ;
      ParsedInside(reg, t.index, rest.value, count, p + Align(Cursor(reg, i, k)), Walk(reg, i, k, q));
      ElementsInside(reg, i, k, First(sub), 1);
      ArrayJoin(reg, t, First(sub), 1);
    }
  }

  /** The same for the names of a tag: whatever the parser finds lies inside the tag when the element exists. */
  lemma ParsedInTag(reg: Registry, tag: Tag, sub: Subscript, rest: Option<string>, count: nat)
    requires Sound(reg) && GoodTag(reg, tag) && !sub.Malformed? && BoundedPath(reg, tag, rest)
    requires TagItem(reg, tag, sub, rest, count, true).Found? && (rest.None? || First(sub) < tag.count)
    ensures Ends(reg, TagItem(reg, tag, sub, rest, count, true).item, ArrayBits(reg, tag.typ, tag.count))
  {
    hide Sound, ElementBits, ArrayBits, BitItem, Bounded, Resolve, Locate, Value, DigitRun;
    var first := First(sub);
    if rest.None? {
      ArrayJoin(reg, tag.typ, first, tag.count - first);
    } else {
      OneElement(reg, tag, first);
      if IsBitNumber(rest.value) {
        BitItemEnd(reg, tag.typ, rest.value, BitField(BitNumber(rest.value)), first, count);
      } else {
        ParsedInside(reg, tag.typ.index, rest.value, count, 0, 0);
      }
    }
  }

  /** The first bit that a write by name changes. */
  ghost function Place(reg: Registry, tag: Tag, sub: Subscript, rest: Option<string>, count: nat): int
    requires Sound(reg) && GoodTag(reg, tag) && !sub.Malformed? && TagItem(reg, tag, sub, rest, count, true).Found?
  {
    var item := TagItem(reg, tag, sub, rest, count, true).item;
    if TagNoCarry(reg, tag, rest) then item.offset else item.offset - 8
  }

  lemma TagNotAhead(reg: Registry, tag: Tag, sub: Subscript, rest: Option<string>, count: nat)
    requires Sound(reg) && GoodTag(reg, tag) && !sub.Malformed?
    requires TagItem(reg, tag, sub, rest, count, true).Found? && TagItem(reg, tag, sub, rest, count, false).Found?
    ensures Behind(TagItem(reg, tag, sub, rest, count, true).item, TagItem(reg, tag, sub, rest, count, false).item)
  {
    hide Sound, ElementBits, ArrayBits, Resolve, Locate, Value, DigitRun;
    if rest.Some? {
      if IsBitNumber(rest.value) {
        ShortElement(reg, tag.typ);
      } else {
        NotAhead(reg, tag.typ.index, rest.value, count, 0, 0);
      }
    }
  }

  /** A write by name lands on the bits that the layout gives the name exactly when the name lands and no carry is
      lost: the two mistakes never make up for each other. */
  lemma PlaceExact(reg: Registry, tag: Tag, sub: Subscript, rest: Option<string>, count: nat)
    requires Sound(reg) && GoodTag(reg, tag) && !sub.Malformed? && TagItem(reg, tag, sub, rest, count, true).Found?
    ensures var l := TagItem(reg, tag, sub, rest, count, false);
      l.Found? && l.item.offset == Place(reg, tag, sub, rest, count)
      <==> TagLands(reg, tag, sub, rest, count) && TagNoCarry(reg, tag, rest)
  {
    hide Sound, TagItem, TagLands, TagNoCarry;
    NameExact(reg, tag, sub, rest, count);
    if TagItem(reg, tag, sub, rest, count, false).Found? {
      TagNotAhead(reg, tag, sub, rest, count);
    }
  }

  // ---------------------------------------------------------------- a family of types

  /** A nested type that follows three BOOLs, with `n` BOOLs of its own before an INT. */
  function Sample(n: nat): Registry {
    [Cdt("Inner", [Member("f", Basic(BOOL), n), Member("g", Basic(INT), 1)]),
     Cdt("Outer", [Member("b", Basic(BOOL), 3), Member("n", Custom(0), 1)])]
  }

  lemma PlainName(c: char)
    requires c != '.' && c != '['
    ensures SplitName([c]) == ([c], None) && GetIndex([c]) == ([c], Whole)
  {
    SplitRead([c], "");
    IndexRead([c], "", "");
  }

  lemma DottedName(a: char, b: char)
    requires a != '.'
    ensures SplitName([a, '.', b]) == ([a], Some([b]))
  {
    SplitRead([a], [b]);
    assert [a, '.', b] == [a] + "." + [b];
  }

  lemma FindFirst(members: seq<Member>, name: string)
    requires |members| == 2 && members[0].name == name
    ensures FindMember(members, name) == 0
  {}

  lemma FindSecond(members: seq<Member>, name: string)
    requires |members| == 2 && members[0].name != name && members[1].name == name
    ensures FindMember(members, name) == 1
  {}

  /** The two names of the nested type that the samples use. */
  lemma SampleNames(n: nat)
    ensures Segment(Sample(n), 1, "n.f") == (1, Whole, Some("f"))
    ensures Segment(Sample(n), 1, "n.g") == (1, Whole, Some("g"))
    ensures Segment(Sample(n), 0, "f") == (0, Whole, None) && Segment(Sample(n), 0, "g") == (1, Whole, None)
  {
    hide SplitName, GetIndex, FindMember;
    DottedName('n', 'f');
    DottedName('n', 'g');
    PlainName('n');
    PlainName('f');
    PlainName('g');
    assert "b"[0] != "n"[0] && "f"[0] != "g"[0];
    FindSecond(Sample(n)[1].members, "n");
    FindFirst(Sample(n)[0].members, "f");
    FindSecond(Sample(n)[0].members, "g");
    assert ['n', '.', 'f'] == "n.f" && ['n', '.', 'g'] == "n.g" && ['n'] == "n" && ['f'] == "f" && ['g'] == "g";
  }

  lemma SampleLayout(n: nat)
    requires n > 0
    ensures Sound(Sample(n))
    ensures Cursor(Sample(n), 1, 0) == 0 && Cursor(Sample(n), 1, 1) == 3
    ensures Cursor(Sample(n), 0, 0) == 0 && Cursor(Sample(n), 0, 1) == n
  {
    var reg := Sample(n);
    assert Sound(reg);
    BoolArray(reg, 3);
    BoolArray(reg, n);
    assert MemberBits(reg, 1, 0) == 3 && MemberBits(reg, 0, 0) == n;
  }

  /** Members of the nested type are looked for five bits behind. */
  lemma SampleBehind(n: nat, k: nat)
    requires 0 < n <= 252 && Sound(Sample(n)) && k < 2
    ensures Lag(Sample(n), 1, 1, 0) == 0 && Lag(Sample(n), 0, k, 5) == 5
  {
    SampleLayout(n);
    hide Sound, Cursor;
    var reg := Sample(n);
    assert Lag(reg, 1, 0, 0) == 0 && Lag(reg, 0, 0, 5) == 5;
  }

  lemma SampleFound(n: nat, path: string, k: nat, name: string, count: nat)
    requires n > 0 && count <= 1 && Sound(Sample(n)) && k < 2 && !IsBitNumber(name)
    requires Segment(Sample(n), 1, path) == (1, Whole, Some(name)) && Segment(Sample(n), 0, name) == (k, Whole, None)
    ensures Refusal(Sample(n), 1, path, count) == 0
  {
    hide Sound, Segment, IsBitNumber;
    assert Refusal(Sample(n), 0, name, count) == 0;
  }

  lemma SampleLag(n: nat, path: string, k: nat, name: string, count: nat)
    requires 0 < n <= 252 && count <= 1 && Sound(Sample(n)) && k < 2 && !IsBitNumber(name)
    requires Segment(Sample(n), 1, path) == (1, Whole, Some(name)) && Segment(Sample(n), 0, name) == (k, Whole, None)
    ensures Lands(Sample(n), 1, path, count, 0) <==> k == 1 && Catches(n, 5)
  {
    SampleLayout(n);
    SampleBehind(n, k);
    SampleFound(n, path, k, name, count);
    RoundUp(3);
    hide Sound, Segment, Cursor, Lag, Align, Catches, IsBitNumber, Refusal;
    var reg := Sample(n);
    assert OnSpot(reg, 0, name, 5) <==> k == 1 && Catches(n, 5);
    assert OnSpot(reg, 1, path, 0) == OnSpot(reg, 0, name, 5);
  }

  /** The BOOLs are never found where the layout has them; the INT is, exactly when the BOOLs before it reach further
      into a byte than the alignment that was skipped. */
  lemma SampleLands(n: nat, count: nat)
    requires 0 < n <= 252 && count <= 1
    ensures Sound(Sample(n))
    ensures !Lands(Sample(n), 1, "n.f", count, 0)
    ensures Lands(Sample(n), 1, "n.g", count, 0) <==> n % 8 == 0 || n % 8 > 5
  {
    hide Sound, Segment, Lands, Sample;
    SampleLayout(n);
    SampleNames(n);
    SampleLag(n, "n.f", 0, "f", count);
    SampleLag(n, "n.g", 1, "g", count);
  }

  /** A nested BOOL that the layout has at bit 8 and the parser looks for at bit 3. */
  lemma MisplacedBool(n: nat)
    requires n > 0
    ensures Sound(Sample(n))
    ensures var l := Locate(Sample(n), 1, "n.f", 1); l.Found? && l.item.offset == 8
    ensures var l := Resolve(Sample(n), 1, "n.f", 1, 0); l.Found? && l.item.offset == 3
  {
    SampleLayout(n);
    SampleNames(n);
    SampleOffsets(n, "n.f", "f");
  }

  lemma SampleOffsets(n: nat, path: string, name: string)
    requires n > 0 && Sound(Sample(n)) && !IsBitNumber(name)
    requires Segment(Sample(n), 1, path) == (1, Whole, Some(name)) && Segment(Sample(n), 0, name) == (0, Whole, None)
    ensures var l := Locate(Sample(n), 1, path, 1); l.Found? && l.item.offset == 8
    ensures var l := Resolve(Sample(n), 1, path, 1, 0); l.Found? && l.item.offset == 3
  {
    SampleLayout(n);
    var reg := Sample(n);
    hide Sound, SplitName, GetIndex, FindMember, Cursor, Align, ElementBits, ArrayBits, MemberBits, IsBitNumber;
    RoundUp(3);
    MemberFacts(reg, 0, 0);
    MemberFacts(reg, 1, 1);
    assert Locate(reg, 0, name, 1).item.offset == 0;
    assert Walk(reg, 1, 1, 0) == 3;
    assert Resolve(reg, 0, name, 1, 3).item.offset == 3;
  }

  // ---------------------------------------------------------------- a lost carry

  /** Three BOOLs and ten more. */
  const FLAGS: Registry := [Cdt("Flags", [Member("a", Basic(BOOL), 3), Member("b", Basic(BOOL), 10)])]

  lemma IndexedName(a: char, d: char)
    requires a != '.' && a != '[' && IsDigit(d)
    ensures SplitName([a, '[', d, ']']) == ([a, '[', d, ']'], None)
    ensures GetIndex([a, '[', d, ']']) == ([a], At(Value([d])))
  {
    var s := [a, '[', d, ']'];
    SplitRead(s, "");
    IndexRead([a], [d], "]");
    assert s == [a] + "[" + [d] + "]";
  }

  lemma FlagNames()
    ensures Segment(FLAGS, 0, "b[6]") == (1, At(6), None) && Segment(FLAGS, 0, "a[1]") == (0, At(1), None)
  {
    IndexedName('b', '6');
    IndexedName('a', '1');
    hide SplitName, GetIndex, FindMember, DigitRun;
    assert "a"[0] != "b"[0];
    FindSecond(FLAGS[0].members, "b");
    FindFirst(FLAGS[0].members, "a");
    assert ['b', '[', '6', ']'] == "b[6]" && ['a', '[', '1', ']'] == "a[1]" && ['a'] == "a" && ['b'] == "b";
    assert Value(['6']) == 6 && Value(['1']) == 1;
  }

  lemma FlagLayout()
    ensures Sound(FLAGS)
    ensures Cursor(FLAGS, 0, 0) == 0 && Cursor(FLAGS, 0, 1) == 3 && Walk(FLAGS, 0, 1, 0) == 3
  {
    assert Sound(FLAGS);
    BoolArray(FLAGS, 3);
    assert MemberBits(FLAGS, 0, 0) == 3;
    assert Walk(FLAGS, 0, 0, 0) == 0;
  }

  /** The name of a BOOL as the parser and the layout place it. */
  lemma FlagItem(path: string, k: nat, n: nat)
    requires k < 2 && n + 1 <= (if k == 0 then 3 else 10) && Sound(FLAGS) && Segment(FLAGS, 0, path) == (k, At(n), None)
    ensures var l := Locate(FLAGS, 0, path, 1); l.Found? && l.item.offset == 3 * k + n
    ensures var l := Resolve(FLAGS, 0, path, 1, 0);
      l.Found? && l.item.offset == 3 * k + n && l.item.bit == 3 * k + n % 8
    ensures NoCarry(FLAGS, 0, path, 0) <==> 3 * k + n % 8 < 8
  {
    FlagLayout();
    hide Sound, Cursor, ElementBits, ArrayBits, MemberBits, SplitName, GetIndex, FindMember;
    MemberFacts(FLAGS, 0, k);
  }

  lemma FlagPlace(tag: Tag, path: string, k: nat, n: nat)
    requires tag.typ == Custom(0) && tag.count == 1 && !IsBitNumber(path)
    requires k < 2 && n + 1 <= (if k == 0 then 3 else 10) && Sound(FLAGS) && Segment(FLAGS, 0, path) == (k, At(n), None)
    ensures GoodTag(FLAGS, tag)
    ensures var l := TagItem(FLAGS, tag, Whole, Some(path), 1, true);
      && l.Found? && l.item.offset == 3 * k + n
      && Place(FLAGS, tag, Whole, Some(path), 1) == if 3 * k + n % 8 < 8 then 3 * k + n else 3 * k + n - 8
  {
    FlagItem(path, k, n);
    hide Sound, Resolve, Locate, NoCarry, ElementBits, ArrayBits, IsBitNumber, SplitName, GetIndex, FindMember;
    NoElements(FLAGS, tag.typ);
  }

  /** Element 6 of `b` is bit 9; a write to it by name lands on bit 1, which is element 1 of `a`. */
  lemma LostCarry(tag: Tag)
    requires tag.typ == Custom(0) && tag.count == 1
    ensures Sound(FLAGS) && GoodTag(FLAGS, tag)
    ensures var l := TagItem(FLAGS, tag, Whole, Some("b[6]"), 1, true);
      l.Found? && l.item.offset == 9 && Place(FLAGS, tag, Whole, Some("b[6]"), 1) == 1
    ensures var l := TagItem(FLAGS, tag, Whole, Some("a[1]"), 1, true);
      l.Found? && l.item.offset == 1 == Place(FLAGS, tag, Whole, Some("a[1]"), 1)
  {
    hide *;
    FlagLayout();
    FlagNames();
    assert !IsBitNumber("b[6]") && !IsBitNumber("a[1]") by {
      LetterFirst("b[6]");
      LetterFirst("a[1]");
    }
    FlagPlace(tag, "b[6]", 1, 6);
    FlagPlace(tag, "a[1]", 0, 1);
  }

  lemma LetterFirst(s: string)
    requires s != "" && s[0] >= 'a'
    ensures !IsBitNumber(s)
  {}
}
