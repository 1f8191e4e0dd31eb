/** Where names lead on a client whose copy of the types is not complete (src/lib/libcdt.c).  The parser takes members
    and sizes from the client's cache; a member whose type is missing counts as minus four bytes for each element,
    which is the error code that `dax_get_typesize` returns for it. */
module ClientNames {
  import opened Common
  import opened Types
  import opened Text
  import opened Handles
  import opened Landing
  import opened ClientTypes
  import opened ClientSizes

  /** What the client's parser leaves in the handle, with the position in bits. */
  datatype ClientItem = ClientItem(pos: int, typ: Option<TagType>, count: nat, size: int)

  /** The elements, their type and their bytes are those of the item. */
  ghost predicate SameKind(reg: Registry, c: ClientItem, item: Item, count: nat)
    requires Sound(reg) && ValidType(reg, item.typ)
  {
    && c.typ == Some(item.typ) && c.count == (if count == 0 then item.whole else count) && c.count > 0
    && if item.typ == Basic(BOOL) then c.size == BitSpan(item.bit, c.count)
       else 8 * c.size == ArrayBits(reg, item.typ, c.count)
  }

  ghost predicate Matches(reg: Registry, c: ClientItem, item: Item, count: nat)
    requires Sound(reg) && ValidType(reg, item.typ)
  {
    c.pos == item.offset && SameKind(reg, c, item, count)
  }

  // ---------------------------------------------------------------- falling short

  /** A position that is whole bytes short of another, or none exactly when `level` holds. */
  predicate Short(pos: int, full: int, level: bool) {
    pos <= full && (full - pos) % 8 == 0 && (pos == full <==> level)
  }

  function RoundedUp(pos: int): int {
    if pos % 8 == 0 then pos else pos - pos % 8 + 8
  }

  /** The position after `n` BOOLs, with the one-byte bit counter. */
  function Skipped(pos: int, n: nat): int {
    pos - pos % 8 + (pos % 8 + n) % 256
  }

  /** The bits of `n` elements of `size` bytes. */
  function Elements(size: int, n: int): int {
    8 * (size * n)
  }

  lemma {:induction false} SameBit(pos: int, full: int)
    requires (full - pos) % 8 == 0
    ensures pos % 8 == full % 8
  {}

  lemma {:induction false} SkipShort(pos: int, full: nat, n: nat, level: bool)
    requires Short(pos, full, level)
    ensures Short(Skipped(pos, n), Skip(full, n), level)
  {
    SameBit(pos, full);
  }

  lemma {:induction false} AlignShort(pos: int, full: nat, level: bool)
    requires Short(pos, full, level)
    ensures Short(RoundedUp(pos), Align(full), level)
  {
    SameBit(pos, full);
    RoundUp(full);
  }

  lemma {:induction false} AddShort(pos: int, full: int, level: bool, a: int, b: int, same: bool)
    requires Short(pos, full, level) && Short(a, b, same)
    ensures Short(pos + a, full + b, level && same)
  {}

  lemma {:induction false} ScaleShort(a: int, b: int, same: bool, n: nat)
    requires Short(a, b, same)
    ensures Short(a * n, b * n, n == 0 || same)
  {
    var d := (b - a) / 8;
    assert b - a == 8 * d;
    assert b * n - a * n == 8 * (d * n);
    if n > 0 && d > 0 { PositiveProduct(d, n); }
  }

  // ---------------------------------------------------------------- sizes

  /** `dax_get_typesize` for the type of a member that is not a BOOL: short of the layout unless nothing is missing. */
  method MemberBytes(reg: Registry, types: seq<CachedCdt>, i: nat, k: nat) returns (size: int)
    requires Sound(reg) && Serving(reg) && Sensible(reg, types) && i < |reg| && Used(types, i) && k < |reg[i].members|
    requires |types[i].members| == |reg[i].members| && !reg[i].members[k].IsBool()
    ensures ValidType(reg, reg[i].members[k].typ)
    ensures Short(8 * size, ElementBits(reg, reg[i].members[k].typ), Intact(reg, types, i, k))
  {
    CountKept(reg, types, i, k);
    MemberFacts(reg, i, k);
    hide Sound, Serving, Sensible, AllImages, ElementBits, Intact, Short;
    var t := types[i].members[k].typ;
    match t {
      case None =>
        MissingShort(reg, types, i, k);
        size := ERR_ARG;
      case Some(Basic(b)) =>
        BasicShort(reg, types, i, k, b);
        size := BaseBits(b) / 8;
      case Some(Custom(j)) =>
        NestedUsed(reg, types, i, k, j);
        size := CachedSize(reg, types, j);
        CachedShort(reg, types, i, k, j, size);
    }
  }

  lemma {:induction false} MissingShort(reg: Registry, types: seq<CachedCdt>, i: nat, k: nat)
    requires Sound(reg) && i < |reg| && i < |types| && k < |reg[i].members| == |types[i].members|
    requires ValidType(reg, reg[i].members[k].typ) && !reg[i].members[k].IsBool() && types[i].members[k].typ.None?
    ensures Short(8 * ERR_ARG, ElementBits(reg, reg[i].members[k].typ), Intact(reg, types, i, k))
  {
    hide ElementBits;
  }

  lemma {:induction false} BasicShort(reg: Registry, types: seq<CachedCdt>, i: nat, k: nat, b: Base)
    requires Sound(reg) && i < |reg| && i < |types| && k < |reg[i].members| == |types[i].members|
    requires reg[i].members[k].typ == Basic(b) && types[i].members[k].typ == Some(Basic(b)) && b != BOOL
    ensures ValidType(reg, Basic(b))
    ensures Short(8 * (BaseBits(b) / 8), ElementBits(reg, Basic(b)), Intact(reg, types, i, k))
  {
    BasicLayout(reg, b);
    hide ElementBits;
    assert BaseBits(b) % 8 == 0;
  }

  lemma {:induction false} CachedShort(reg: Registry, types: seq<CachedCdt>, i: nat, k: nat, j: nat, size: int)
    requires Sound(reg) && i < |reg| && i < |types| && k < |reg[i].members| == |types[i].members| && j < |reg|
    requires reg[i].members[k].typ == Custom(j) && types[i].members[k].typ == Some(Custom(j))
    requires 8 * size <= ElementBits(reg, Custom(j))
    requires 8 * size == ElementBits(reg, Custom(j)) <==> AllImages(reg, types, j)
    ensures Short(8 * size, ElementBits(reg, Custom(j)), Intact(reg, types, i, k))
  {
    hide ElementBits, AllImages;
  }

  /** The loop that steps over the members before the one named. */
  method ClientSkip(reg: Registry, types: seq<CachedCdt>, i: nat, name: string, pos0: int, ghost p: nat,
                    ghost level: bool)
    returns (k: nat, pos: int)
    requires Sound(reg) && Serving(reg) && Sensible(reg, types) && i < |reg| && Used(types, i)
    requires |types[i].members| == |reg[i].members| && Short(pos0, p, level)
    ensures k == FindMember(reg[i].members, name)
    ensures Short(pos, Walk(reg, i, k, p), level && IntactTo(reg, types, i, k))
  {
    hide Serving, Sensible, Align, Skip, ElementBits, ArrayBits, Intact, Short;
    var members := types[i].members;
    k, pos := 0, pos0;
    while k < |members| && members[k].name != name
      invariant k <= |members|
      invariant forall j :: 0 <= j < k ==> reg[i].members[j].name != name
      invariant Short(pos, Walk(reg, i, k, p), level && IntactTo(reg, types, i, k))
    {
      NameKept(reg, types, i, k);
      pos := ClientStep(reg, types, i, k, pos, p, level);
      k := k + 1;
    }
    if k < |members| { NameKept(reg, types, i, k); }
  }

  lemma {:induction false} NameKept(reg: Registry, types: seq<CachedCdt>, i: nat, k: nat)
    requires Sensible(reg, types) && i < |reg| && Used(types, i) && k < |types[i].members|
    ensures k < |reg[i].members| && types[i].members[k].name == reg[i].members[k].name
  {
    assert Entry(reg, types, i);
  }

  /** A BOOL member of the client is one of the server. */
  lemma {:induction false} BoolKept(reg: Registry, types: seq<CachedCdt>, i: nat, k: nat)
    requires Sound(reg) && Sensible(reg, types) && i < |reg| && Used(types, i) && k < |reg[i].members|
    requires |types[i].members| == |reg[i].members|
    ensures types[i].members[k].typ == Some(Basic(BOOL)) <==> reg[i].members[k].IsBool()
    ensures reg[i].members[k].IsBool() ==> Intact(reg, types, i, k)
    ensures types[i].members[k].count == reg[i].members[k].count > 0
    ensures types[i].members[k].typ.Some? ==> types[i].members[k].typ.value == reg[i].members[k].typ
    ensures types[i].members[k].typ.None? ==> reg[i].members[k].typ.Custom?
  {
    CountKept(reg, types, i, k);
    assert Complete(reg, types, i);
  }

  lemma {:induction false} WalkNext(reg: Registry, i: nat, k: nat, p: nat)
    requires Sound(reg) && i < |reg| && k < |reg[i].members|
    ensures var m, w := reg[i].members[k], Walk(reg, i, k, p);
      && ValidType(reg, m.typ) && m.count > 0
      && Walk(reg, i, k + 1, p) ==
           if m.IsBool() then Skip(w, m.count) else Align(w) + ElementBits(reg, m.typ) * m.count
  {
    MemberFacts(reg, i, k);
    var m := reg[i].members[k];
    hide Sound, Align, Skip, ElementBits;
    assert MemberBits(reg, i, k) == ElementBits(reg, m.typ) * m.count;
    assert Walk(reg, i, k + 1, p) ==
      if m.IsBool() then Skip(Walk(reg, i, k, p), m.count) else Align(Walk(reg, i, k, p)) + MemberBits(reg, i, k);
  }

  lemma {:induction false} IntactNext(reg: Registry, types: seq<CachedCdt>, i: nat, k: nat)
    requires Sound(reg) && i < |reg| && i < |types| && k < |reg[i].members| == |types[i].members|
    ensures IntactTo(reg, types, i, k + 1) <==> IntactTo(reg, types, i, k) && Intact(reg, types, i, k)
  {
    hide Sound, Intact;
  }

  /** One turn of the loop. */
  method ClientStep(reg: Registry, types: seq<CachedCdt>, i: nat, k: nat, pos0: int, ghost p: nat, ghost level: bool)
    returns (pos: int)
    requires Sound(reg) && Serving(reg) && Sensible(reg, types) && i < |reg| && Used(types, i) && k < |reg[i].members|
    requires |types[i].members| == |reg[i].members|
    requires Short(pos0, Walk(reg, i, k, p), level && IntactTo(reg, types, i, k))
    ensures Short(pos, Walk(reg, i, k + 1, p), level && IntactTo(reg, types, i, k + 1))
  {
    var m := types[i].members[k];
    BoolKept(reg, types, i, k);
    StepShort(reg, types, i, k, p, pos0, level);
    hide *;
    if m.typ == Some(Basic(BOOL)) {
      pos := Skipped(pos0, m.count);
    } else {
      var size := MemberBytes(reg, types, i, k);
      BytesShort(reg, types, i, k, p, pos0, level, size);
      pos := RoundedUp(pos0) + Elements(size, m.count);
    }
  }

  /** The turn over a BOOL. */
  lemma {:induction false} StepShort(reg: Registry, types: seq<CachedCdt>, i: nat, k: nat, p: nat, pos: int,
                                     level: bool)
    requires Sound(reg) && Sensible(reg, types) && i < |reg| && Used(types, i) && k < |reg[i].members|
    requires |types[i].members| == |reg[i].members|
    requires Short(pos, Walk(reg, i, k, p), level && IntactTo(reg, types, i, k))
    ensures reg[i].members[k].count > 0
    ensures reg[i].members[k].IsBool() ==>
      Short(Skipped(pos, reg[i].members[k].count), Walk(reg, i, k + 1, p), level && IntactTo(reg, types, i, k + 1))
  {
    BoolKept(reg, types, i, k);
    WalkNext(reg, i, k, p);
    IntactNext(reg, types, i, k);
    hide Sound, Sensible, Align, Skip, Walk, ElementBits, Intact, IntactTo, Short, Skipped;
    SkipShort(pos, Walk(reg, i, k, p), reg[i].members[k].count, level && IntactTo(reg, types, i, k));
  }

  /** The turn over anything else. */
  lemma {:induction false} BytesShort(reg: Registry, types: seq<CachedCdt>, i: nat, k: nat, p: nat, pos: int,
                                      level: bool, size: int)
    requires Sound(reg) && i < |reg| && i < |types| && k < |reg[i].members| == |types[i].members|
    requires !reg[i].members[k].IsBool() && ValidType(reg, reg[i].members[k].typ)
    requires Short(pos, Walk(reg, i, k, p), level && IntactTo(reg, types, i, k))
    requires Short(8 * size, ElementBits(reg, reg[i].members[k].typ), Intact(reg, types, i, k))
    ensures Short(RoundedUp(pos) + Elements(size, reg[i].members[k].count), Walk(reg, i, k + 1, p),
                  level && IntactTo(reg, types, i, k + 1))
  {
    WalkNext(reg, i, k, p);
    IntactNext(reg, types, i, k);
    hide Sound, Align, Skip, Walk, ElementBits, Intact, IntactTo, Short, RoundedUp;
    var w, before := Walk(reg, i, k, p), level && IntactTo(reg, types, i, k);
    var t, n := reg[i].members[k].typ, reg[i].members[k].count;
    AlignShort(pos, w, before);
    GainShort(RoundedUp(pos), Align(w), before, size, ElementBits(reg, t), Intact(reg, types, i, k), n);
  }

  /** Elements further on. */
  lemma {:induction false} GainShort(pos: int, full: int, level: bool, size: int, bits: int, same: bool, n: nat)
    requires Short(pos, full, level) && Short(8 * size, bits, same)
    ensures Short(pos + Elements(size, n), full + bits * n, level && (n == 0 || same))
  {
    hide Short;
    ScaleShort(8 * size, bits, same, n);
    Reorder(size, n);
    AddShort(pos, full, level, 8 * size * n, bits * n, n == 0 || same);
  }

  lemma {:induction false} Reorder(size: int, n: int)
    ensures 8 * size * n == 8 * (size * n)
  {}

  // ---------------------------------------------------------------- paths

  /** Nothing that the parser needs for the path is missing: the members that it steps over, the type of the last one,
      and the types of those whose elements it counts. */
  ghost predicate Level(reg: Registry, types: seq<CachedCdt>, i: nat, path: string)
    requires Sound(reg) && i < |reg| && i < |types| && |types[i].members| == |reg[i].members|
    decreases |path|
  {
    var (k, sub, rest) := Segment(reg, i, path);
    k < |reg[i].members| ==>
      && IntactTo(reg, types, i, k)
      && if rest.None? || reg[i].members[k].typ.Basic? then Intact(reg, types, i, k)
         else
           var j := reg[i].members[k].typ.index;
           && types[i].members[k].typ.Some? && (First(sub) == 0 || Intact(reg, types, i, k))
           && j < |types| && |types[j].members| == |reg[j].members| && Level(reg, types, j, rest.value)
  }

  /** How the client answers, against what the parser finds with all the types, for a parser that starts at `p` or whole
      bytes before it. */
  ghost predicate Answered(reg: Registry, types: seq<CachedCdt>, i: nat, path: string, count: nat, p: nat, level: bool,
                           code: int, c: ClientItem)
    requires Sound(reg) && i < |reg| && i < |types| && |types[i].members| == |reg[i].members|
  {
    var l := Resolve(reg, i, path, count, p);
    match l
    case Failed(_) => code < 0
    case Found(item) =>
      && (code == 0 || code == ERR_NOTFOUND)
      && (code == 0 ==> c.pos <= item.offset && (item.offset - c.pos) % 8 == 0)
      && (code == 0 && Matches(reg, c, item, count) <==> level && Level(reg, types, i, path))
  }

  /** The same for one lookup. */
  ghost predicate Gives(reg: Registry, l: Lookup, count: nat, level: bool, code: int, c: ClientItem)
    requires Sound(reg) && (l.Found? ==> ValidType(reg, l.item.typ))
  {
    match l
    case Failed(_) => code < 0
    case Found(item) =>
      && code == 0 && c.pos <= item.offset && (item.offset - c.pos) % 8 == 0
      && (Matches(reg, c, item, count) <==> level)
  }

  /** The branch for the last name of a path. */
  method LastName(reg: Registry, types: seq<CachedCdt>, i: nat, path: string, k: nat, sub: Subscript, count0: nat,
                  pos: int, ghost p: nat, ghost level: bool)
    returns (code: int, c: ClientItem)
    requires Sound(reg) && Serving(reg) && Sensible(reg, types) && i < |reg| && Used(types, i) && k < |reg[i].members|
    requires |types[i].members| == |reg[i].members| && Segment(reg, i, path) == (k, sub, None) && !sub.Malformed?
    requires Short(pos, Walk(reg, i, k, p), level && IntactTo(reg, types, i, k))
    ensures Answered(reg, types, i, path, count0, p, level, code, c)
  {
    var m := types[i].members[k];
    BoolKept(reg, types, i, k);
    MemberFacts(reg, i, k);
    hide *;
    c := ClientItem(pos, None, 0, 0);
    var fits, count := CountOf(m.count, sub, count0);
    if !fits {
      LastRefused(reg, types, i, path, count0, p, level, c);
      return ERR_2BIG, c;
    }
    var first := First(sub);
    if m.typ == Some(Basic(BOOL)) {
      c := ClientItem(pos + first, m.typ, count, BitSpan(pos % 8 + first % 8, count));
      LastBool(reg, types, i, path, count0, p, level, pos, c);
    } else {
      var size := MemberBytes(reg, types, i, k);
      c := ClientItem(RoundedUp(pos) + Elements(size, first), m.typ, count, size * count);
      LastBytes(reg, types, i, path, count0, p, level, pos, size, c);
    }
    code := 0;
  }

  /** The last name of a path leads to a member of a used type. */
  ghost predicate Last(reg: Registry, types: seq<CachedCdt>, i: nat, path: string)
    requires Sound(reg)
  {
    && i < |reg| && i < |types| && |types[i].members| == |reg[i].members|
    && var (k, sub, rest) := Segment(reg, i, path);
    && rest.None? && !sub.Malformed? && k < |reg[i].members| && ValidType(reg, reg[i].members[k].typ)
  }

  /** The elements that a subscript and a count ask for. */
  function Wanted(all: int, sub: Subscript, count: nat): int {
    if count > 0 then count else if sub.At? then 1 else all
  }

  /** The tests of the subscript and the count. */
  method CountOf(all: int, sub: Subscript, count0: nat) returns (fits: bool, count: int)
    requires all > 0
    ensures fits <==> !(if sub.At? then sub.n + AtLeastOne(count0) > all else count0 > all)
    ensures fits ==> count == Wanted(all, sub, count0) && count > 0 && First(sub) + count <= all
  {
    count := count0;
    if sub.At? {
      if count == 0 { count := 1; }
      fits := sub.n + count <= all;
    } else {
      fits := count <= all;
      if count == 0 { count := all; }
    }
  }

  lemma {:induction false} LastRefused(reg: Registry, types: seq<CachedCdt>, i: nat, path: string, count: nat, p: nat,
                                       level: bool, c: ClientItem)
    requires Sound(reg) && Last(reg, types, i, path)
    requires var (k, sub, rest) := Segment(reg, i, path);
      if sub.At? then sub.n + AtLeastOne(count) > reg[i].members[k].count else count > reg[i].members[k].count
    ensures Answered(reg, types, i, path, count, p, level, ERR_2BIG, c)
  {
    hide Sound, Walk, Align, ElementBits, ArrayBits, BitItem, Intact, IntactTo, Level, Matches, SplitName, GetIndex,
      FindMember, IsBitNumber;
  }

  lemma {:induction false} LastBool(reg: Registry, types: seq<CachedCdt>, i: nat, path: string, count: nat, p: nat,
                                    level: bool, pos: int, c: ClientItem)
    requires Sound(reg) && Last(reg, types, i, path)
    requires var (k, sub, rest) := Segment(reg, i, path);
      var m, n := reg[i].members[k], Wanted(reg[i].members[k].count, sub, count);
      && m.IsBool() && Intact(reg, types, i, k) && First(sub) + n <= m.count && n > 0
      && Short(pos, Walk(reg, i, k, p), level && IntactTo(reg, types, i, k))
      && c == ClientItem(pos + First(sub), Some(Basic(BOOL)), n, BitSpan(pos % 8 + First(sub) % 8, n))
    ensures Answered(reg, types, i, path, count, p, level, 0, c)
  {
    var (k, sub, rest) := Segment(reg, i, path);
    BoolArray(reg, First(sub));
    ShortFacts(pos, Walk(reg, i, k, p), level && IntactTo(reg, types, i, k));
    hide Sound, Walk, Align, ElementBits, ArrayBits, BitItem, BitSpan, Intact, IntactTo, Short, SplitName, GetIndex,
      FindMember, IsBitNumber;
  }

  lemma {:induction false} LastBytes(reg: Registry, types: seq<CachedCdt>, i: nat, path: string, count: nat, p: nat,
                                     level: bool, pos: int, size: int, c: ClientItem)
    requires Sound(reg) && Last(reg, types, i, path)
    requires var (k, sub, rest) := Segment(reg, i, path);
      var m, n := reg[i].members[k], Wanted(reg[i].members[k].count, sub, count);
      && !m.IsBool() && First(sub) + n <= m.count && n > 0
      && Short(pos, Walk(reg, i, k, p), level && IntactTo(reg, types, i, k))
      && Short(8 * size, ElementBits(reg, m.typ), Intact(reg, types, i, k))
      && (types[i].members[k].typ.Some? ==> types[i].members[k].typ == Some(m.typ))
      && c == ClientItem(RoundedUp(pos) + Elements(size, First(sub)), types[i].members[k].typ, n, size * n)
    ensures Answered(reg, types, i, path, count, p, level, 0, c)
  {
    var (k, sub, rest) := Segment(reg, i, path);
    var t, n := reg[i].members[k].typ, Wanted(reg[i].members[k].count, sub, count);
    var before, same := level && IntactTo(reg, types, i, k), Intact(reg, types, i, k);
    assert same ==> types[i].members[k].typ.Some?;
    hide Sound, Walk, Align, ElementBits, ArrayBits, BitItem, Intact, IntactTo, Short, SplitName, GetIndex, FindMember,
      IsBitNumber, RoundedUp, Elements;
    LastShort(reg, t, pos, Walk(reg, i, k, p), before, size, same, First(sub), n);
  }

  lemma {:induction false} ShortFacts(pos: int, full: int, level: bool)
    requires Short(pos, full, level)
    ensures pos <= full && (full - pos) % 8 == 0 && pos % 8 == full % 8 && (pos == full <==> level)
  {}

  lemma {:induction false} LastShort(reg: Registry, t: TagType, pos: int, w: nat, level: bool, size: int, same: bool,
                                     first: nat, n: nat)
    requires Sound(reg) && ValidType(reg, t) && n > 0
    requires Short(pos, w, level) && Short(8 * size, ElementBits(reg, t), same)
    ensures var c, full := RoundedUp(pos) + Elements(size, first), Align(w) + ArrayBits(reg, t, first);
      && c <= full && (full - c) % 8 == 0
      && (Elements(size, n) == ArrayBits(reg, t, n) <==> same)
      && (c == full <==> level && (first == 0 || same))
  {
    hide Sound, Short, ElementBits, ArrayBits, Align, RoundedUp, Elements;
    AlignShort(pos, w, level);
    ElementsShort(reg, t, size, same, first);
    ElementsShort(reg, t, size, same, n);
    ShortFacts(Elements(size, n), ArrayBits(reg, t, n), same);
    var a, b := Elements(size, first), ArrayBits(reg, t, first);
    AddShort(RoundedUp(pos), Align(w), level, a, b, first == 0 || same);
    ShortFacts(RoundedUp(pos) + a, Align(w) + b, level && (first == 0 || same));
  }

  /** The branch for a numbered bit. */
  method BitName(reg: Registry, types: seq<CachedCdt>, i: nat, path: string, k: nat, sub: Subscript, digits: string,
                 count: nat, pos: int, ghost p: nat, ghost level: bool)
    returns (code: int, c: ClientItem)
    requires Sound(reg) && Serving(reg) && Sensible(reg, types) && i < |reg| && Used(types, i) && k < |reg[i].members|
    requires |types[i].members| == |reg[i].members| && IsBitNumber(digits) && !sub.Malformed?
    requires Segment(reg, i, path) == (k, sub, Some(digits))
    requires Short(pos, Walk(reg, i, k, p), level && IntactTo(reg, types, i, k))
    ensures Answered(reg, types, i, path, count, p, level, code, c)
  {
    BoolKept(reg, types, i, k);
    MemberFacts(reg, i, k);
    hide *;
    var m := types[i].members[k];
    if m.count > 1 && sub.Whole? {
      c := ClientItem(pos, None, 0, 0);
      RefusedAnswered(reg, types, i, path, count, p, level, ERR_ARG, c);
      return ERR_ARG, c;
    }
    ghost var w, before := Walk(reg, i, k, p), level && IntactTo(reg, types, i, k);
    code, c := NumberedBit(reg, m.typ, digits, First(sub), count, pos, reg[i].members[k].typ, w, before);
    BitAnswered(reg, types, i, path, k, sub, digits, count, p, level, code, c);
  }

  /** The bit itself; `t` is the type of the member, if it is there. */
  method NumberedBit(reg: Registry, t: Option<TagType>, digits: string, first: nat, count0: nat, pos: int,
                     ghost typ: TagType, ghost w: nat, ghost level: bool)
    returns (code: int, c: ClientItem)
    requires Sound(reg) && ValidType(reg, typ) && Short(pos, w, level) && IsBitNumber(digits)
    requires t.Some? ==> t.value == typ
    requires t.None? ==> typ.Custom?
    ensures Gives(reg, BitLookup(reg, typ, digits, first, count0, w), count0, level, code, c)
  {
    c := ClientItem(pos, None, 0, 0);
    if t.Some? && (t.value.Custom? || t.value.base in {BOOL, TIME, REAL, LREAL}) {
      return ERR_BADTYPE, c;
    }
    var (value, length) := ParseNat(digits);
    if length != |digits| {
      return ERR_ARG, c;
    }
    var size := if t.Some? then BaseBits(t.value.base) / 8 else ERR_ARG;
    var bit, count := BitField(value), if count0 == 0 then 1 else count0;
    if bit > size * 8 || bit + count > size * 8 {
      return ERR_2BIG, c;
    }
    hide Sound, BitSpan, Value, DigitRun;
    ShortFacts(pos, w, level);
    BasicLayout(reg, typ.base);
    BasicArray(reg, typ.base, first, size);
    c := ClientItem(pos - pos % 8 + 8 * (size * first) + bit, Some(Basic(BOOL)), count, BitSpan(bit % 8, count));
    code := 0;
  }

  lemma {:induction false} BasicArray(reg: Registry, b: Base, n: nat, size: int)
    requires Sound(reg) && 8 * size == BaseBits(b)
    ensures ArrayBits(reg, Basic(b), n) == 8 * (size * n)
  {
    BasicLayout(reg, b);
    hide Sound, ElementBits;
    Reorder(size, n);
  }

  /** `_parse_next_member` on the client's own types: the handle is that of the parser with all the types exactly when
      nothing that it needs for the path is missing. */
  method ClientParse(reg: Registry, types: seq<CachedCdt>, i: nat, path: string, count: nat, pos0: int, ghost p: nat,
                     ghost level: bool)
    returns (code: int, c: ClientItem)
    requires Sound(reg) && Serving(reg) && Sensible(reg, types) && i < |reg| && Used(types, i)
    requires |types[i].members| == |reg[i].members| && Descends(reg, i, path) && Short(pos0, p, level)
    ensures Answered(reg, types, i, path, count, p, level, code, c)
    decreases |path|, 2
  {
    var (segment, rest) := SplitName(path);
    var (name, sub) := GetIndex(segment);
    c := ClientItem(pos0, None, 0, 0);
    if sub.Malformed? {
      RefusedAnswered(reg, types, i, path, count, p, level, ERR_ARG, c);
      return ERR_ARG, c;
    }
    var k, pos := ClientSkip(reg, types, i, name, pos0, p, level);
    assert Segment(reg, i, path) == (k, sub, rest);
    hide *;
    if k == |types[i].members| {
      RefusedAnswered(reg, types, i, path, count, p, level, ERR_NOTFOUND, c);
      return ERR_NOTFOUND, c;
    }
    code, c := NamedMember(reg, types, i, path, k, sub, rest, count, pos, p, level);
  }

  /** The member that is named has been reached. */
  method NamedMember(reg: Registry, types: seq<CachedCdt>, i: nat, path: string, k: nat, sub: Subscript,
                     rest: Option<string>, count: nat, pos: int, ghost p: nat, ghost level: bool)
    returns (code: int, c: ClientItem)
    requires Sound(reg) && Serving(reg) && Sensible(reg, types) && i < |reg| && Used(types, i) && k < |reg[i].members|
    requires |types[i].members| == |reg[i].members| && Descends(reg, i, path)
    requires Segment(reg, i, path) == (k, sub, rest) && !sub.Malformed?
    requires Short(pos, Walk(reg, i, k, p), level && IntactTo(reg, types, i, k))
    ensures Answered(reg, types, i, path, count, p, level, code, c)
    decreases |path|, 1
  {
    hide *;
    if rest.None? {
      code, c := LastName(reg, types, i, path, k, sub, count, pos, p, level);
    } else if IsBitNumber(rest.value) {
      code, c := BitName(reg, types, i, path, k, sub, rest.value, count, pos, p, level);
    } else {
      code, c := NestedName(reg, types, i, path, k, sub, rest.value, count, pos, p, level);
    }
  }

  lemma {:induction false} RefusedAnswered(reg: Registry, types: seq<CachedCdt>, i: nat, path: string, count: nat,
                                           p: nat, level: bool, code: int, c: ClientItem)
    requires Sound(reg) && i < |reg| && i < |types| && |types[i].members| == |reg[i].members| && code < 0
    requires var (k, sub, rest) := Segment(reg, i, path);
      || sub.Malformed? || k == |reg[i].members|
      || (rest.Some? && IsBitNumber(rest.value) && reg[i].members[k].count > 1 && sub.Whole?)
    ensures Answered(reg, types, i, path, count, p, level, code, c)
  {
    hide Sound, Walk, Align, ElementBits, ArrayBits, MemberItem, BitItem, Intact, IntactTo, Level, Matches, SplitName,
      GetIndex, FindMember, IsBitNumber;
  }

  /** The bit that is numbered, by the parser that has all the types. */
  ghost function BitLookup(reg: Registry, t: TagType, digits: string, first: nat, count: nat, w: nat): (l: Lookup)
    requires Sound(reg) && ValidType(reg, t)
    ensures l.Found? ==> ValidType(reg, l.item.typ)
  {
    BitItem(reg, t, digits, BitField(BitNumber(digits)), first, count).Moved(w - w % 8)
  }

  lemma {:induction false} BitAnswered(reg: Registry, types: seq<CachedCdt>, i: nat, path: string, k: nat,
                                       sub: Subscript, digits: string, count: nat, p: nat, level: bool, code: int,
                                       c: ClientItem)
    requires Sound(reg) && Sensible(reg, types) && i < |reg| && Used(types, i) && |types[i].members| == |reg[i].members|
    requires Segment(reg, i, path) == (k, sub, Some(digits)) && IsBitNumber(digits) && !sub.Malformed?
    requires k < |reg[i].members| && ValidType(reg, reg[i].members[k].typ)
    requires !(reg[i].members[k].count > 1 && sub.Whole?)
    requires Gives(reg, BitLookup(reg, reg[i].members[k].typ, digits, First(sub), count, Walk(reg, i, k, p)), count,
                   level && IntactTo(reg, types, i, k), code, c)
    ensures Answered(reg, types, i, path, count, p, level, code, c)
  {
    hide Sound, Sensible, Walk, Align, ElementBits, ArrayBits, MemberItem, BitItem, Intact, IntactTo, Matches,
      SplitName, GetIndex, FindMember, IsBitNumber, Value, DigitRun;
    BitOfBasic(reg, reg[i].members[k].typ, digits, BitField(BitNumber(digits)), First(sub), count);
    if reg[i].members[k].typ.Basic? { BasicIntact(reg, types, i, k); }
  }

  lemma {:induction false} BitOfBasic(reg: Registry, t: TagType, digits: string, v: nat, first: nat, count: nat)
    requires Sound(reg) && ValidType(reg, t)
    ensures BitItem(reg, t, digits, v, first, count).Found? ==> t.Basic?
  {}

  lemma {:induction false} BasicIntact(reg: Registry, types: seq<CachedCdt>, i: nat, k: nat)
    requires Sound(reg) && Sensible(reg, types) && i < |reg| && Used(types, i) && k < |reg[i].members|
    requires |types[i].members| == |reg[i].members| && reg[i].members[k].typ.Basic?
    ensures Intact(reg, types, i, k)
  {
    BoolKept(reg, types, i, k);
  }

  /** The branch for a name that has another name after it. */
  method NestedName(reg: Registry, types: seq<CachedCdt>, i: nat, path: string, k: nat, sub: Subscript, rest: string,
                    count: nat, pos: int, ghost p: nat, ghost level: bool)
    returns (code: int, c: ClientItem)
    requires Sound(reg) && Serving(reg) && Sensible(reg, types) && i < |reg| && Used(types, i) && k < |reg[i].members|
    requires |types[i].members| == |reg[i].members| && Descends(reg, i, path)
    requires Segment(reg, i, path) == (k, sub, Some(rest)) && !sub.Malformed? && !IsBitNumber(rest)
    requires Short(pos, Walk(reg, i, k, p), level && IntactTo(reg, types, i, k))
    ensures Answered(reg, types, i, path, count, p, level, code, c)
    decreases |path|, 0
  {
    BoolKept(reg, types, i, k);
    MemberFacts(reg, i, k);
    NestedDescends(reg, i, path);
    var m := types[i].members[k];
    c := ClientItem(pos, None, 0, 0);
    if m.typ.None? {
      MissingName(reg, types, i, path, count, p);
      var malformed := GetIndex(SplitName(rest).0).1.Malformed?;
      code := if malformed then ERR_ARG else ERR_NOTFOUND;
    } else {
      var j := m.typ.value.index;
      NestedUsed(reg, types, i, k, j);
      UsedExists(reg, types, j);
      ghost var before := level && IntactTo(reg, types, i, k);
      code, c := ClientParse(reg, types, j, rest, count, pos, Walk(reg, i, k, p), before);
      ghost var code0, inner := code, c;
      if code == 0 && sub.At? {
        if sub.n + (if count == 0 then 1 else count) > m.count {
          code := ERR_2BIG;
        } else {
          var size := MemberBytes(reg, types, i, k);
          c := c.(pos := c.pos + Elements(size, sub.n));
          MovedAnswered(reg, types, i, path, count, p, level, inner, size, c);
        }
      }
      if code != 0 || !sub.At? {
        SameAnswered(reg, types, i, path, count, p, level, code0, code, c);
      }
    }
  }

  /** A path into a nested type, by the parser that has all the types. */
  lemma {:induction false} ResolveNested(reg: Registry, i: nat, path: string, count: nat, p: nat)
    requires Sound(reg) && i < |reg|
    requires var (k, sub, rest) := Segment(reg, i, path);
      && k < |reg[i].members| && !sub.Malformed? && rest.Some? && !IsBitNumber(rest.value)
      && reg[i].members[k].typ.Custom?
    ensures var (k, sub, rest) := Segment(reg, i, path); var m := reg[i].members[k];
      && m.typ.index < |reg|
      && var inner := Resolve(reg, m.typ.index, rest.value, count, Walk(reg, i, k, p));
      Resolve(reg, i, path, count, p) ==
        if inner.Found? && sub.At? && sub.n + AtLeastOne(count) > m.count then Failed(ERR_2BIG)
        else inner.Moved(ArrayBits(reg, m.typ, First(sub)))
  {
    hide Sound, Walk, ElementBits, ArrayBits, SplitName, GetIndex, FindMember, MemberItem, BitItem, IsBitNumber;
    MemberFacts(reg, i, Segment(reg, i, path).0);
  }

  lemma {:induction false} NestedDescends(reg: Registry, i: nat, path: string)
    requires Sound(reg) && i < |reg| && Descends(reg, i, path)
    requires var (k, sub, rest) := Segment(reg, i, path);
      k < |reg[i].members| && rest.Some? && !IsBitNumber(rest.value)
    ensures var (k, sub, rest) := Segment(reg, i, path); var t := reg[i].members[k].typ;
      t.Custom? && t.index < |reg| && Descends(reg, t.index, rest.value)
  {
    hide Sound, SplitName, GetIndex, FindMember, IsBitNumber;
    MemberFacts(reg, i, Segment(reg, i, path).0);
  }

  /** The path goes into a nested member of a type that the client has. */
  ghost predicate Nested(reg: Registry, types: seq<CachedCdt>, i: nat, path: string)
    requires Sound(reg)
  {
    && i < |reg| && i < |types| && |types[i].members| == |reg[i].members|
    && var (k, sub, rest) := Segment(reg, i, path);
    && k < |reg[i].members| && !sub.Malformed? && rest.Some? && !IsBitNumber(rest.value)
    && reg[i].members[k].typ.Custom? && ValidType(reg, reg[i].members[k].typ)
  }

  /** A name that goes through a missing type is not found. */
  lemma {:induction false} MissingName(reg: Registry, types: seq<CachedCdt>, i: nat, path: string, count: nat, p: nat)
    requires Sound(reg) && Nested(reg, types, i, path) && types[i].members[Segment(reg, i, path).0].typ.None?
    ensures !Level(reg, types, i, path)
    ensures GetIndex(SplitName(Segment(reg, i, path).2.value).0).1.Malformed? ==>
      Resolve(reg, i, path, count, p).Failed?
  {
    hide Sound, Walk, Align, ElementBits, ArrayBits, MemberItem, BitItem, Intact, IntactTo, SplitName, GetIndex,
      FindMember, IsBitNumber;
    ResolveNested(reg, i, path, count, p);
  }

  /** What the nested name gives, and the state in which it was looked up. */
  ghost predicate Inner(reg: Registry, types: seq<CachedCdt>, i: nat, path: string, count: nat, p: nat, level: bool,
                        code: int, c: ClientItem)
    requires Sound(reg) && Nested(reg, types, i, path)
  {
    var (k, sub, rest) := Segment(reg, i, path);
    var j := reg[i].members[k].typ.index;
    && types[i].members[k].typ.Some? && j < |types| && |types[j].members| == |reg[j].members|
    && Answered(reg, types, j, rest.value, count, Walk(reg, i, k, p), level && IntactTo(reg, types, i, k), code, c)
  }

  /** Without a subscript, or after an error, the answer is that of the nested name. */
  lemma {:induction false} SameAnswered(reg: Registry, types: seq<CachedCdt>, i: nat, path: string, count: nat, p: nat,
                                        level: bool, code0: int, code: int, c: ClientItem)
    requires Sound(reg) && Nested(reg, types, i, path) && Inner(reg, types, i, path, count, p, level, code0, c)
    requires var (k, sub, rest) := Segment(reg, i, path);
      var beyond := sub.At? && sub.n + AtLeastOne(count) > reg[i].members[k].count;
      code == (if code0 == 0 && beyond then ERR_2BIG else code0) && (code != 0 || !sub.At?)
    ensures Answered(reg, types, i, path, count, p, level, code, c)
  {
    assert Backward(reg);
    hide Sound, Walk, Align, ElementBits, ArrayBits, Resolve, Intact, IntactTo, Segment, IsBitNumber, Level, Matches;
    ResolveNested(reg, i, path, count, p);
    LevelNested(reg, types, i, path);
    NoElements(reg, reg[i].members[Segment(reg, i, path).0].typ);
  }

  /** With a subscript the answer is that many elements further on. */
  lemma {:induction false} MovedAnswered(reg: Registry, types: seq<CachedCdt>, i: nat, path: string, count: nat, p: nat,
                                         level: bool, inner: ClientItem, size: int, c: ClientItem)
    requires Sound(reg) && Nested(reg, types, i, path) && Inner(reg, types, i, path, count, p, level, 0, inner)
    requires var (k, sub, rest) := Segment(reg, i, path); var m := reg[i].members[k];
      && sub.At? && sub.n + AtLeastOne(count) <= m.count
      && Short(8 * size, ElementBits(reg, m.typ), Intact(reg, types, i, k))
      && c == inner.(pos := inner.pos + Elements(size, sub.n))
    ensures Answered(reg, types, i, path, count, p, level, 0, c)
  {
    assert Backward(reg);
    hide Sound, Walk, ElementBits, ArrayBits, Resolve, Intact, IntactTo, Segment, IsBitNumber, Level, Matches, Short,
      Elements;
    ResolveNested(reg, i, path, count, p);
    LevelNested(reg, types, i, path);
    var (k, sub, rest) := Segment(reg, i, path);
    var t, same := reg[i].members[k].typ, Intact(reg, types, i, k);
    var l := Resolve(reg, t.index, rest.value, count, Walk(reg, i, k, p));
    var bits, shift := ArrayBits(reg, t, sub.n), Elements(size, sub.n);
    ElementsShort(reg, t, size, same, sub.n);
    assert Resolve(reg, i, path, count, p) == l.Moved(bits);
    if l.Found? {
      MovedMatches(reg, inner, l.item, count, shift, bits, sub.n == 0 || same);
      assert l.Moved(bits).item == l.item.(offset := l.item.offset + bits);
    }
  }

  lemma {:induction false} LevelNested(reg: Registry, types: seq<CachedCdt>, i: nat, path: string)
    requires Sound(reg) && Nested(reg, types, i, path)
    requires var j := reg[i].members[Segment(reg, i, path).0].typ.index;
      j < |types| && |types[j].members| == |reg[j].members|
    ensures var (k, sub, rest) := Segment(reg, i, path);
      Level(reg, types, i, path) <==>
        && IntactTo(reg, types, i, k) && types[i].members[k].typ.Some?
        && (First(sub) == 0 || Intact(reg, types, i, k))
        && Level(reg, types, reg[i].members[k].typ.index, rest.value)
  {
    hide Solid, Segment, Intact, IntactTo, IsBitNumber;
  }

  lemma {:induction false} ElementsShort(reg: Registry, t: TagType, size: int, same: bool, n: nat)
    requires Sound(reg) && ValidType(reg, t) && Short(8 * size, ElementBits(reg, t), same)
    ensures Short(Elements(size, n), ArrayBits(reg, t, n), n == 0 || same)
  {
    hide Sound, ElementBits;
    GainShort(0, 0, true, size, ElementBits(reg, t), same, n);
  }

  lemma {:induction false} MovedMatches(reg: Registry, c: ClientItem, item: Item, count: nat, shift: int, bits: nat,
                                        same: bool)
    requires Sound(reg) && ValidType(reg, item.typ) && Short(shift, bits, same)
    requires c.pos <= item.offset && (item.offset - c.pos) % 8 == 0
    ensures var d, moved := c.(pos := c.pos + shift), item.(offset := item.offset + bits);
      && d.pos <= moved.offset && (moved.offset - d.pos) % 8 == 0
      && (Matches(reg, d, moved, count) <==> Matches(reg, c, item, count) && same)
  {
    hide Sound, ArrayBits, BitSpan;
  }

  /** Where the type and all that it reaches are images, every path is level. */
  lemma {:induction false} ImagesLevel(reg: Registry, types: seq<CachedCdt>, i: nat, path: string)
    requires Sound(reg) && Ordered(reg, types) && i < |reg| && AllImages(reg, types, i)
    ensures i < |types| && |types[i].members| == |reg[i].members| && Level(reg, types, i, path)
    decreases |path|
  {
    hide Solid, SplitName, GetIndex, FindMember, IsBitNumber;
    assert i in Reach(reg, i) && Image(reg, types, i);
    ImagesByMember(reg, types, i);
    var (k, sub, rest) := Segment(reg, i, path);
    if k < |reg[i].members| {
      assert Intact(reg, types, i, k);
      if rest.Some? && reg[i].members[k].typ.Custom? {
        ImagesLevel(reg, types, reg[i].members[k].typ.index, rest.value);
      }
    }
  }
}
