/** Names as people write them: a tag or member with an optional element number, and after it a bit number or the name
    of a member.  The text of such a name is read back as what was meant, for every name, number and depth
    (src/lib/libcdt.c), and the place it stands for is defined here on the name itself and not on its text. */
module Names {
  import opened Common
  import opened Types
  import opened Text
  import opened Handles
  import opened Landing

  // ---------------------------------------------------------------- names and their text

  datatype Step = Step(name: string, index: Option<nat>)

  datatype Path = End(step: Step) | BitOf(step: Step, bit: nat) | Into(step: Step, inner: Path)

  function StepText(s: Step): string {
    match s.index
    case None => s.name
    case Some(n) => s.name + "[" + PrintNat(n) + "]"
  }

  function PathText(p: Path): string {
    match p
    case End(s) => StepText(s)
    case BitOf(s, v) => StepText(s) + "." + PrintNat(v)
    case Into(s, inner) => StepText(s) + "." + PathText(inner)
  }

  /** A name without dots and brackets. */
  ghost predicate Plain(name: string) {
    '.' !in name && '[' !in name
  }

  /** Plain names all the way; after a dot, a name that starts with a digit would be a bit number. */
  ghost predicate Written(p: Path) {
    && Plain(p.step.name)
    && (p.Into? ==> Written(p.inner) && !IsBitNumber(p.inner.step.name))
  }

  // ---------------------------------------------------------------- reading them back

  /** What follows the first dot of a name. */
  function After(p: Path): Option<string> {
    match p
    case End(_) => None
    case BitOf(_, v) => Some(PrintNat(v))
    case Into(_, inner) => Some(PathText(inner))
  }

  function SubscriptOf(index: Option<nat>): Subscript {
    match index
    case None => Whole
    case Some(n) => At(n)
  }

  /** A step is one segment of a name, and reads as its name and its number. */
  lemma StepRead(s: Step)
    requires Plain(s.name)
    ensures '.' !in StepText(s) && GetIndex(StepText(s)) == (s.name, SubscriptOf(s.index))
    ensures IsBitNumber(StepText(s)) <==> IsBitNumber(s.name)
  {
    match s.index
    case None => IndexRead(s.name, "", "");
    case Some(n) =>
      IndexRead(s.name, PrintNat(n), "]");
      assert forall k :: 0 <= k < |PrintNat(n)| ==> IsDigit(PrintNat(n)[k]);
  }

  lemma BitNumberRead(v: nat)
    ensures IsBitNumber(PrintNat(v)) && DigitRun(PrintNat(v)) == |PrintNat(v)| && BitNumber(PrintNat(v)) == v
  {
    DigitsOnly(PrintNat(v));
    assert IsDigit(PrintNat(v)[0]);
  }

  /** The parser takes a name apart into the step and the rest that it was put together from. */
  lemma PathRead(p: Path)
    requires Written(p)
    ensures SplitName(PathText(p)) == (StepText(p.step), After(p))
    ensures GetIndex(StepText(p.step)) == (p.step.name, SubscriptOf(p.step.index))
    ensures IsBitNumber(PathText(p)) <==> IsBitNumber(p.step.name)
  {
    StepRead(p.step);
    SplitRead(StepText(p.step), if After(p).Some? then After(p).value else "");
    assert p.step.name == "" ==> StepText(p.step) == "" || StepText(p.step)[0] == '[';
  }

  // ---------------------------------------------------------------- the place a name stands for

  function Wanted(count: nat): nat {
    if count == 0 then 1 else count
  }

  /** `total` elements from bit `start` on, or element `index` and those after it. */
  ghost function Elements(reg: Registry, t: TagType, total: nat, start: nat, index: Option<nat>, count: nat): Lookup
    requires Sound(reg) && ValidType(reg, t)
  {
    match index
    case None =>
      if count > total then Failed(ERR_2BIG)
      else Found(Item(start, if t == Basic(BOOL) then start % 8 else 0, t, total, total))
    case Some(n) =>
      if n + Wanted(count) > total then Failed(ERR_2BIG)
      else if t == Basic(BOOL) then Found(Item(start + n, (start + n) % 8, t, total - n, 1))
      else Found(Item(start + ElementBits(reg, t) * n, 0, t, total - n, 1))
  }

  /** Bit `v` of one of `total` elements from bit `start` on; without a number, the one element there is. */
  ghost function OneBit(reg: Registry, t: TagType, total: nat, start: nat, p: Path, count: nat): Lookup
    requires Sound(reg) && ValidType(reg, t) && p.BitOf?
  {
    var bits := ElementBits(reg, t);
    if p.step.index.None? && total > 1 then Failed(ERR_ARG)
    else if t.Custom? || t.base in {BOOL, TIME, REAL, LREAL} then Failed(ERR_BADTYPE)
    else if p.bit + Wanted(count) > bits then Failed(ERR_2BIG)
    else
      var element := if p.step.index.Some? then start + bits * p.step.index.value else start;
      Found(Item(element + p.bit, p.bit % 8, Basic(BOOL), bits - p.bit, 1))
  }

  /** Where the layout has what a name denotes inside an element of type `i`. */
  ghost function Laid(reg: Registry, i: nat, p: Path, count: nat): Lookup
    requires Sound(reg) && i < |reg|
    decreases p
  {
    var k := FindMember(reg[i].members, p.step.name);
    if k == |reg[i].members| then Failed(ERR_NOTFOUND)
    else
      var m := reg[i].members[k];
      var start := Start(reg, i, k);
      match p
      case End(s) => Elements(reg, m.typ, m.count, start, s.index, count)
      case BitOf(_, _) => OneBit(reg, m.typ, m.count, start, p, count)
      case Into(s, inner) =>
        if m.typ.Basic? then Failed(ERR_NOTFOUND)
        else
          var l := Laid(reg, m.typ.index, inner, count);
          match s.index
          case None => l.Moved(start)
          case Some(n) =>
            if l.Found? && n + Wanted(count) > m.count then Failed(ERR_2BIG)
            else l.Moved(start + ElementBits(reg, m.typ) * n)
  }

  /** The same from the tag on. */
  ghost function TagLaid(reg: Registry, tag: Tag, p: Path, count: nat): Lookup
    requires Sound(reg) && GoodTag(reg, tag)
  {
    match p
    case End(s) => Elements(reg, tag.typ, tag.count, 0, s.index, count)
    case BitOf(_, _) => OneBit(reg, tag.typ, tag.count, 0, p, count)
    case Into(s, inner) =>
      if tag.typ.Basic? then Failed(ERR_ARG)
      else if s.index.None? && tag.count > 1 then Failed(ERR_ARBITRARY)
      else
        var l := Laid(reg, tag.typ.index, inner, count);
        if s.index.Some? then l.Moved(ElementBits(reg, tag.typ) * s.index.value) else l
  }

  lemma ElementPlace(reg: Registry, t: TagType, n: nat)
    requires Sound(reg) && ValidType(reg, t)
    ensures ArrayBits(reg, t, n) == ElementBits(reg, t) * n
    ensures t == Basic(BOOL) ==> ArrayBits(reg, t, n) == n
  {}

  lemma ElementsRead(reg: Registry, m: Member, start: nat, index: Option<nat>, count: nat)
    requires Sound(reg) && ValidType(reg, m.typ) && m.count > 0
    ensures var sub := SubscriptOf(index);
      MemberItem(reg, m, start, (start + First(sub)) % 8, sub, count)
        == Elements(reg, m.typ, m.count, start, index, count)
  {
    hide Sound, ElementBits, ArrayBits;
    ElementPlace(reg, m.typ, First(SubscriptOf(index)));
  }

  lemma OneBitRead(reg: Registry, t: TagType, total: nat, start: nat, p: Path, count: nat)
    requires Sound(reg) && ValidType(reg, t) && p.BitOf?
    ensures var sub := SubscriptOf(p.step.index);
      (if total > 1 && sub.Whole? then Failed(ERR_ARG)
       else BitItem(reg, t, PrintNat(p.bit), p.bit, First(sub), count).Moved(start))
      == OneBit(reg, t, total, start, p, count)
  {
    hide Sound, ElementBits, ArrayBits, PrintNat;
    BitNumberRead(p.bit);
    ElementPlace(reg, t, First(SubscriptOf(p.step.index)));
  }

  /** The reference that the parser is proved against agrees with the name itself, at every depth. */
  lemma {:induction false} LocateRead(reg: Registry, i: nat, p: Path, count: nat)
    requires Sound(reg) && i < |reg| && Written(p)
    ensures Locate(reg, i, PathText(p), count) == Laid(reg, i, p, count)
    decreases p
  {
    PathRead(p);
    var k := FindMember(reg[i].members, p.step.name);
    if k < |reg[i].members| {
      var m := reg[i].members[k];
      assert Names(reg, i, p, k);
      hide *;
      if p.Into? && m.typ.Custom? {
        LocateRead(reg, m.typ.index, p.inner, count);
      }
      match p
      case End(_) => EndRead(reg, i, p, count, k);
      case BitOf(_, _) => BitOfRead(reg, i, p, count, k);
      case Into(_, _) => IntoRead(reg, i, p, count, k);
    } else {
      hide Sound, ElementBits, PathText, StepText, GetIndex, SplitName, FindMember, IsBitNumber;
    }
  }

  /** The path names member `k` of type `i`. */
  ghost predicate Names(reg: Registry, i: nat, p: Path, k: nat)
    requires Sound(reg) && i < |reg|
  {
    && Written(p) && k == FindMember(reg[i].members, p.step.name) < |reg[i].members|
    && ValidType(reg, reg[i].members[k].typ) && reg[i].members[k].count > 0
  }

  lemma EndRead(reg: Registry, i: nat, p: Path, count: nat, k: nat)
    requires Sound(reg) && i < |reg| && Names(reg, i, p, k) && p.End?
    ensures Locate(reg, i, PathText(p), count) == Laid(reg, i, p, count)
  {
    PathRead(p);
    hide Sound, ElementBits, ArrayBits, MemberItem, Elements, PathText, StepText, GetIndex, SplitName, FindMember,
      Start;
    ElementsRead(reg, reg[i].members[k], Start(reg, i, k), p.step.index, count);
  }

  lemma BitOfRead(reg: Registry, i: nat, p: Path, count: nat, k: nat)
    requires Sound(reg) && i < |reg| && Names(reg, i, p, k) && p.BitOf?
    ensures Locate(reg, i, PathText(p), count) == Laid(reg, i, p, count)
  {
    PathRead(p);
    BitNumberRead(p.bit);
    hide Sound, ElementBits, ArrayBits, BitItem, OneBit, PathText, StepText, GetIndex, SplitName, FindMember, Start,
      IsBitNumber, PrintNat, DigitRun, Value;
    OneBitRead(reg, reg[i].members[k].typ, reg[i].members[k].count, Start(reg, i, k), p, count);
  }

  lemma IntoRead(reg: Registry, i: nat, p: Path, count: nat, k: nat)
    requires Sound(reg) && i < |reg| && Names(reg, i, p, k) && p.Into?
    requires var t := reg[i].members[k].typ;
      t.Custom? ==> Locate(reg, t.index, PathText(p.inner), count) == Laid(reg, t.index, p.inner, count)
    ensures Locate(reg, i, PathText(p), count) == Laid(reg, i, p, count)
  {
    PathRead(p);
    PathRead(p.inner);
    ElementPlace(reg, reg[i].members[k].typ, First(SubscriptOf(p.step.index)));
    hide Sound, ElementBits, ArrayBits, PathText, StepText, GetIndex, SplitName, FindMember, Start, IsBitNumber;
  }

  lemma TagRead(reg: Registry, tag: Tag, p: Path, count: nat)
    requires Sound(reg) && GoodTag(reg, tag) && Written(p)
    ensures TagItem(reg, tag, SubscriptOf(p.step.index), After(p), count, false) == TagLaid(reg, tag, p, count)
  {
    hide Sound, ElementBits, ArrayBits, BitItem, MemberItem, Elements, OneBit, PathText, StepText, GetIndex,
      SplitName, IsBitNumber, Locate, Laid, Resolve;
    match p
    case End(s) => ElementsRead(reg, Member("", tag.typ, tag.count), 0, s.index, count);
    case BitOf(s, v) =>
      BitNumberRead(v);
      OneBitRead(reg, tag.typ, tag.count, 0, p, count);
    case Into(s, inner) =>
      PathRead(inner);
      if tag.typ.Custom? {
        LocateRead(reg, tag.typ.index, inner, count);
        ElementPlace(reg, tag.typ, First(SubscriptOf(s.index)));
      }
  }

  // ---------------------------------------------------------------- from a name to a handle

  /** Members are named only where there are members, as the source asks of its callers. */
  ghost predicate Follows(reg: Registry, i: nat, p: Path)
    requires Sound(reg) && i < |reg|
    decreases p
  {
    var k := FindMember(reg[i].members, p.step.name);
    k < |reg[i].members| && p.Into? ==>
      reg[i].members[k].typ.Custom? && Follows(reg, reg[i].members[k].typ.index, p.inner)
  }

  lemma {:induction false} FollowsRead(reg: Registry, i: nat, p: Path)
    requires Sound(reg) && i < |reg| && Written(p) && Follows(reg, i, p)
    ensures Descends(reg, i, PathText(p))
    decreases p
  {
    PathRead(p);
    hide PathText, StepText, GetIndex, SplitName, FindMember;
    match p
    case End(_) =>
    case BitOf(_, v) => BitNumberRead(v);
    case Into(_, inner) =>
      var k := FindMember(reg[i].members, p.step.name);
      if k < |reg[i].members| {
        FollowsRead(reg, reg[i].members[k].typ.index, inner);
      }
  }

  /** The call gave the place, the elements and the error that the lookup says. */
  ghost predicate Gives(h: Handle, err: int, l: Lookup, count: nat)
    reads h
  {
    match l
    case Failed(code) => err == code
    case Found(item) =>
      && err == 0 && h.Position() == item.offset && h.typ == Some(item.typ)
      && h.count == (if count == 0 then item.whole else count)
  }

  lemma GivesExact(reg: Registry, h: Handle, err: int, parsed: Lookup, laid: Lookup, count: nat)
    requires Sound(reg) && Answers(reg, h, err, parsed, count)
    requires parsed.Failed? ==> parsed.code < 0
    requires parsed.Found? && laid.Found? ==> Behind(parsed.item, laid.item)
    requires laid.Failed? ==> laid.code < 0
    ensures Gives(h, err, laid, count) <==> SamePlace(parsed, laid)
  {
    hide Sound, ArrayBits;
  }

  lemma {:induction false} LaidRefusal(reg: Registry, i: nat, p: Path, count: nat)
    requires Sound(reg) && i < |reg|
    ensures Laid(reg, i, p, count).Failed? ==> Laid(reg, i, p, count).code < 0
    decreases p
  {
    hide Start, ElementBits, FindMember;
    var k := FindMember(reg[i].members, p.step.name);
    if p.Into? && k < |reg[i].members| && reg[i].members[k].typ.Custom? {
      LaidRefusal(reg, reg[i].members[k].typ.index, p.inner, count);
    }
  }

  /** `dax_tag_handle` on the text of a name: the handle is at the place that the layout gives the name, or the error
      is the layout's, exactly when the parser does not fall behind on the way; which it cannot before the first dot. */
  method NamedHandle(reg: Registry, tags: map<string, Tag>, h: Handle, p: Path, count: nat) returns (err: int)
    requires Sound(reg) && Written(p) && forall n :: n in tags ==> GoodTag(reg, tags[n])
    requires h.byte == 0 && h.bit == 0
    requires p.step.name in tags && GoodTag(reg, tags[p.step.name]) && tags[p.step.name].typ.Custom? && p.Into? ==>
      Follows(reg, tags[p.step.name].typ.index, p.inner)
    modifies h
    ensures p.step.name !in tags ==> err == ERR_NOTFOUND
    ensures p.step.name in tags ==>
      var tag := tags[p.step.name];
      && GoodTag(reg, tag)
      && (Gives(h, err, TagLaid(reg, tag, p, count), count) <==>
          TagLands(reg, tag, SubscriptOf(p.step.index), After(p), count))
      && (p.End? ==> Gives(h, err, TagLaid(reg, tag, p, count), count))
      && (err == 0 ==> h.index == tag.idx)
  {
    PathRead(p);
    ghost var known := p.step.name in tags;
    if known && tags[p.step.name].typ.Custom? {
      TagFollows(reg, tags[p.step.name].typ.index, p);
    }
    hide *;
    err := TagHandle(reg, tags, h, PathText(p), count);
    if known {
      HandleExact(reg, tags[p.step.name], h, err, p, count);
    }
  }

  lemma TagFollows(reg: Registry, i: nat, p: Path)
    requires Sound(reg) && i < |reg| && Written(p) && (p.Into? ==> Follows(reg, i, p.inner))
    ensures After(p).Some? ==> Descends(reg, i, After(p).value)
  {
    hide Follows, PrintNat, PathText;
    match p
    case End(_) =>
    case BitOf(_, v) => BitFollows(reg, i, v);
    case Into(_, inner) => FollowsRead(reg, i, inner);
  }

  /** A bit number has no dot in it, so there is nothing to follow. */
  lemma BitFollows(reg: Registry, i: nat, v: nat)
    requires Sound(reg) && i < |reg|
    ensures Descends(reg, i, PrintNat(v))
  {
    assert forall k :: 0 <= k < |PrintNat(v)| ==> IsDigit(PrintNat(v)[k]);
    assert '.' !in PrintNat(v);
    SplitRead(PrintNat(v), "");
  }

  lemma HandleExact(reg: Registry, tag: Tag, h: Handle, err: int, p: Path, count: nat)
    requires Sound(reg) && Written(p) && GoodTag(reg, tag)
    requires Answers(reg, h, err, TagItem(reg, tag, SubscriptOf(p.step.index), After(p), count, true), count)
    ensures Gives(h, err, TagLaid(reg, tag, p, count), count) <==>
      TagLands(reg, tag, SubscriptOf(p.step.index), After(p), count)
    ensures p.End? ==> TagLands(reg, tag, SubscriptOf(p.step.index), After(p), count)
  {
    TagRefusal(reg, tag, p, count);
    hide Sound, Written, TagItem, TagLaid, Lands, Gives, Answers;
    var sub, rest := SubscriptOf(p.step.index), After(p);
    TagRead(reg, tag, p, count);
    NameExact(reg, tag, sub, rest, count);
    var parsed, laid := TagItem(reg, tag, sub, rest, count, true), TagItem(reg, tag, sub, rest, count, false);
    if parsed.Found? && laid.Found? {
      TagNotAhead(reg, tag, sub, rest, count);
    }
    GivesExact(reg, h, err, parsed, laid, count);
  }

  lemma TagRefusal(reg: Registry, tag: Tag, p: Path, count: nat)
    requires Sound(reg) && GoodTag(reg, tag)
    ensures TagLaid(reg, tag, p, count).Failed? ==> TagLaid(reg, tag, p, count).code < 0
  {
    hide ElementBits, Laid;
    if p.Into? && tag.typ.Custom? {
      LaidRefusal(reg, tag.typ.index, p.inner, count);
    }
  }

  /** The handle of an element: the name of element `n` of a tag stands for the elements from there on. */
  method ElementHandle(reg: Registry, tags: map<string, Tag>, h: Handle, name: string, n: nat, count: nat)
    returns (err: int)
    requires Sound(reg) && Plain(name) && forall n :: n in tags ==> GoodTag(reg, tags[n])
    requires h.byte == 0 && h.bit == 0
    modifies h
    ensures name !in tags ==> err == ERR_NOTFOUND
    ensures name in tags ==>
      var tag := tags[name];
      && GoodTag(reg, tag)
      && (err == 0 <==> n + (if count == 0 then 1 else count) <= tag.count)
      && (err != 0 ==> err == ERR_2BIG)
      && (err == 0 ==> h.index == tag.idx && h.Position() == ArrayBits(reg, tag.typ, n))
      && (err == 0 ==> h.typ == Some(tag.typ) && h.count == if count == 0 then 1 else count)
  {
    err := NamedHandle(reg, tags, h, End(Step(name, Some(n))), count);
    if name in tags {
      ElementPlace(reg, tags[name].typ, n);
    }
  }
}
