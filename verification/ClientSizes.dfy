/** The sizes that the client works out from its own copy of the compound types (src/lib/libcdt.c), against those of
    the server: they agree exactly when all the types that are needed have arrived. */
module ClientSizes {
  import opened Common
  import opened Types
  import opened Text
  import opened CdtText
  import opened ClientTypes

  // ---------------------------------------------------------------- what is missing is large

  lemma {:induction false} ShortNumber(n: nat)
    requires n > 0
    ensures |PrintNat(n)| <= n
  {
    if n >= 10 { ShortNumber(n / 10); }
  }

  lemma {:induction false} ShortText(reg: Registry, i: nat, k: nat)
    requires Legal(reg) && i < |reg| && k < |reg[i].members| && Typed(reg, reg[i].members)
    requires reg[i].members[k].count > 0
    ensures |MemberText(reg, reg[i].members[k])| + 1 <= 68 * reg[i].members[k].count
  {
    hide GetType, ValidName, PrintNat;
    var m := reg[i].members[k];
    assert LegalType(reg, i);
    ValidNameShort(m.name);
    NameOfType(reg, i, m.typ);
    ValidNameShort(TypeName(reg, m.typ));
    ShortNumber(m.count);
    Appended("", reg, m);
  }

  /** Members take at least as many bits as they have elements. */
  lemma {:induction false} CursorAdvances(reg: Registry, i: nat, k: nat)
    requires Sound(reg) && i < |reg| && k < |reg[i].members|
    ensures Cursor(reg, i, k + 1) >= Cursor(reg, i, k) + reg[i].members[k].count
  {
    hide Cursor, Align, ElementBits;
    NextCursor(reg, i, k);
    var m := reg[i].members[k];
    if !m.IsBool() { Times(ElementBits(reg, m.typ), m.count); }
  }

  lemma {:induction false} Times(a: nat, n: nat)
    requires a > 0
    ensures a * n >= n
  {}

  /** The text of a type is not much longer than the type. */
  lemma {:induction false} TextBound(reg: Registry, i: nat, k: nat)
    requires Sound(reg) && Legal(reg) && i < |reg| && k <= |reg[i].members| && Typed(reg, reg[i].members)
    ensures |Colons(MemberTexts(reg, reg[i].members)[..k])| <= 68 * Cursor(reg, i, k)
  {
    hide Legal, Cursor, MemberText, Colons;
    var texts := MemberTexts(reg, reg[i].members);
    NoColons();
    if k == 0 {
      assert texts[..0] == [];
    } else {
      TextBound(reg, i, k - 1);
      NextPart("", texts, k - 1);
      CursorAdvances(reg, i, k - 1);
      ShortText(reg, i, k - 1);
    }
  }

  /** A type whose text does not fit one message has more than one byte. */
  lemma {:induction false} LongIsLarge(reg: Registry, i: nat)
    requires Sound(reg) && Serving(reg) && i < |reg| && !Fits(reg, i)
    ensures ElementBits(reg, Custom(i)) >= 16
  {
    hide Sound, Legal, Cursor, Colons, Align;
    var n := |reg[i].members|;
    assert Typed(reg, reg[i].members);
    TextBound(reg, i, n);
    ShortName(reg, i);
    var texts := MemberTexts(reg, reg[i].members);
    assert texts[..n] == texts;
  }

  // ---------------------------------------------------------------- the size loop over the cache

  /** What holds of every cache filled from a server whose counts are all positive: entries are complete, and only
      types that the server could not send are missing. */
  ghost predicate Sensible(reg: Registry, types: seq<CachedCdt>) {
    && Ordered(reg, types)
    && forall n :: 0 <= n < |reg| && Used(types, n) ==> Complete(reg, types, n)
  }

  ghost predicate Complete(reg: Registry, types: seq<CachedCdt>, n: nat)
    requires n < |reg| && n < |types|
  {
    && |types[n].members| == |reg[n].members|
    && forall k :: 0 <= k < |types[n].members| && types[n].members[k].typ.None? ==>
         reg[n].members[k].typ.Custom? && !Fits(reg, reg[n].members[k].typ.index)
  }

  /** Member `k` of type `i` has its type, and that and all it reaches are images. */
  ghost predicate Intact(reg: Registry, types: seq<CachedCdt>, i: nat, k: nat)
    requires Backward(reg) && i < |reg| && i < |types| && k < |reg[i].members| && k < |types[i].members|
  {
    var t := reg[i].members[k].typ;
    types[i].members[k].typ.Some? && (t.Custom? ==> AllImages(reg, types, t.index))
  }

  ghost predicate IntactTo(reg: Registry, types: seq<CachedCdt>, i: nat, k: nat)
    requires Backward(reg) && i < |reg| && i < |types| && k <= |types[i].members| && k <= |reg[i].members|
  {
    forall j :: 0 <= j < k ==> Intact(reg, types, i, j)
  }

  lemma {:induction false} ImagesByMember(reg: Registry, types: seq<CachedCdt>, i: nat)
    requires Backward(reg) && Ordered(reg, types) && i < |reg| && Used(types, i)
    requires |types[i].members| == |reg[i].members|
    ensures AllImages(reg, types, i) <==> IntactTo(reg, types, i, |reg[i].members|)
  {
    assert Entry(reg, types, i);
    var n := |reg[i].members|;
    if AllImages(reg, types, i) {
      assert i in Reach(reg, i) && Image(reg, types, i);
      forall j | 0 <= j < n ensures Intact(reg, types, i, j) {
        MemberWhole(reg, types, i, j);
      }
    }
    if IntactTo(reg, types, i, n) {
      forall k | 0 <= k < n ensures types[i].members[k] == Cached(reg[i].members[k]) {
        assert Intact(reg, types, i, k);
      }
      assert types[i].members == CachedAll(reg[i].members);
      ReachWhole(reg, types, i, n);
    }
  }

  lemma {:induction false} MemberWhole(reg: Registry, types: seq<CachedCdt>, i: nat, j: nat)
    requires Backward(reg) && i < |reg| && j < |reg[i].members| && AllImages(reg, types, i) && Image(reg, types, i)
    ensures Intact(reg, types, i, j)
  {
    var t := reg[i].members[j].typ;
    if t.Custom? {
      MemberReached(reg, i, |reg[i].members|, j);
      ReachClosed(reg, i, t.index);
    }
  }

  lemma {:induction false} ReachWhole(reg: Registry, types: seq<CachedCdt>, i: nat, k: nat)
    requires Backward(reg) && i < |reg| && i < |types| && |types[i].members| == |reg[i].members|
    requires k <= |reg[i].members| && IntactTo(reg, types, i, k)
    ensures forall n :: n in ReachOf(reg, i, k) ==> Image(reg, types, n)
  {
    hide Image;
    if k > 0 {
      ReachWhole(reg, types, i, k - 1);
      assert Intact(reg, types, i, k - 1);
    }
  }

  /** Equal, or a byte behind. */
  predicate Trails(pos: nat, cursor: nat) {
    pos == cursor || pos + 8 <= cursor
  }

  /** One member of the size loop: `add` bits on the client, `full` bits on the server. */
  lemma {:induction false} Advance(pos: nat, cursor: nat, add: nat, full: nat)
    requires Trails(pos, cursor) && Trails(add, full)
    ensures Trails(Align(pos) + add, Align(cursor) + full)
    ensures Align(pos) + add == Align(cursor) + full <==> pos == cursor && add == full
  {
    RoundUp(pos);
    RoundUp(cursor);
  }

  lemma {:induction false} Smaller(inner: nat, full: nat, count: nat)
    requires inner % 8 == 0 && full % 8 == 0 && inner <= full && count > 0
    ensures Trails(inner * count, full * count) && (inner * count == full * count <==> inner == full)
  {
    var d := full - inner;
    assert full * count == inner * count + d * count;
    if d > 0 { Times(count, d); }
  }

  /** A member without a type counts as one bit. */
  lemma {:induction false} MissingSmaller(full: nat, count: nat)
    requires full >= 16 && count > 0
    ensures Trails(count, full * count) && count != full * count
  {
    assert full * count == 16 * count + (full - 16) * count;
  }

  /** One turn of the size loop keeps the client level with the server exactly while nothing is missing. */
  lemma {:induction false} SizeStep(reg: Registry, types: seq<CachedCdt>, i: nat, k: nat, pos: nat, add: nat)
    requires Sound(reg) && Serving(reg) && Sensible(reg, types) && i < |reg| && Used(types, i) && k < |reg[i].members|
    requires |types[i].members| == |reg[i].members| && !reg[i].members[k].IsBool()
    requires Trails(pos, Cursor(reg, i, k)) && (pos == Cursor(reg, i, k) <==> IntactTo(reg, types, i, k))
    requires Adds(reg, types, i, k, add)
    ensures Trails(Align(pos) + add, Cursor(reg, i, k + 1))
    ensures Align(pos) + add == Cursor(reg, i, k + 1) <==> IntactTo(reg, types, i, k + 1)
  {
    hide Serving, Sensible, Cursor, Align, ElementBits, Intact;
    var m := reg[i].members[k];
    NextCursor(reg, i, k);
    Advance(pos, Cursor(reg, i, k), add, ElementBits(reg, m.typ) * m.count);
    assert IntactTo(reg, types, i, k + 1) <==> IntactTo(reg, types, i, k) && Intact(reg, types, i, k);
  }

  /** The bits that member `k` adds on the client trail those of the server, and are the same exactly when nothing of
      the member is missing. */
  ghost predicate Adds(reg: Registry, types: seq<CachedCdt>, i: nat, k: nat, add: nat)
    requires Sound(reg) && i < |reg| && i < |types| && k < |reg[i].members| == |types[i].members|
  {
    var m := reg[i].members[k];
    && ValidType(reg, m.typ) && m.count > 0
    && Trails(add, ElementBits(reg, m.typ) * m.count)
    && (add == ElementBits(reg, m.typ) * m.count <==> Intact(reg, types, i, k))
  }

  lemma {:induction false} AddsBasic(reg: Registry, types: seq<CachedCdt>, i: nat, k: nat, b: Base)
    requires Sound(reg) && Sensible(reg, types) && i < |reg| && Used(types, i) && k < |reg[i].members|
    requires |types[i].members| == |reg[i].members| && types[i].members[k].typ == Some(Basic(b))
    ensures reg[i].members[k].typ == Basic(b) && Adds(reg, types, i, k, BaseBits(b) * reg[i].members[k].count)
  {
    assert Entry(reg, types, i);
    assert Faithful(reg[i].members[k], types[i].members[k]);
  }

  lemma {:induction false} AddsMissing(reg: Registry, types: seq<CachedCdt>, i: nat, k: nat)
    requires Sound(reg) && Serving(reg) && Sensible(reg, types) && i < |reg| && Used(types, i) && k < |reg[i].members|
    requires |types[i].members| == |reg[i].members| && types[i].members[k].typ.None?
    ensures !reg[i].members[k].IsBool() && Adds(reg, types, i, k, reg[i].members[k].count)
  {
    assert Complete(reg, types, i);
    var m := reg[i].members[k];
    hide Serving, Sensible, ElementBits, Fits;
    LongIsLarge(reg, m.typ.index);
    MissingSmaller(ElementBits(reg, m.typ), m.count);
  }

  lemma {:induction false} AddsNested(reg: Registry, types: seq<CachedCdt>, i: nat, k: nat, j: nat, inner: nat)
    requires Sound(reg) && Sensible(reg, types) && i < |reg| && Used(types, i) && k < |reg[i].members|
    requires |types[i].members| == |reg[i].members| && types[i].members[k].typ == Some(Custom(j)) && j < |reg|
    requires 8 * inner <= ElementBits(reg, Custom(j))
    requires 8 * inner == ElementBits(reg, Custom(j)) <==> AllImages(reg, types, j)
    ensures reg[i].members[k].typ == Custom(j) && Adds(reg, types, i, k, (inner * reg[i].members[k].count) * 8)
  {
    assert Entry(reg, types, i);
    var m := reg[i].members[k];
    assert Faithful(m, types[i].members[k]);
    hide Sensible, ElementBits, AllImages;
    assert m.count > 0;
    Smaller(8 * inner, ElementBits(reg, m.typ), m.count);
    Scale(inner, m.count);
  }

  lemma {:induction false} NestedUsed(reg: Registry, types: seq<CachedCdt>, i: nat, k: nat, j: nat)
    requires Sound(reg) && Sensible(reg, types) && i < |reg| && Used(types, i)
    requires k < |types[i].members| && types[i].members[k].typ == Some(Custom(j))
    ensures k < |reg[i].members| && j < i && Used(types, j)
  {
    assert Entry(reg, types, i);
  }

  lemma {:induction false} CountKept(reg: Registry, types: seq<CachedCdt>, i: nat, k: nat)
    requires Solid(reg) && Ordered(reg, types) && i < |reg| && Used(types, i) && k < |types[i].members|
    ensures k < |reg[i].members| && types[i].members[k].count == reg[i].members[k].count > 0
    ensures types[i].members[k].typ.Some? ==> types[i].members[k].typ.value == reg[i].members[k].typ
  {
    assert Entry(reg, types, i);
  }

  lemma {:induction false} UsedExists(reg: Registry, types: seq<CachedCdt>, i: nat)
    requires Sensible(reg, types) && Used(types, i)
    ensures i < |reg| && |types[i].members| == |reg[i].members|
  {
    if i < |reg| { assert Complete(reg, types, i); }
  }

  lemma {:induction false} FirstCursor(reg: Registry, i: nat)
    requires Sound(reg) && i < |reg|
    ensures Cursor(reg, i, 0) == 0 && reg[i].members != []
  {}

  /** The size loop of `dax_get_typesize` over the cache: never more than the size of the server's layout, and the same
      exactly when the type and all that it reaches are images. */
  method CachedSize(reg: Registry, types: seq<CachedCdt>, i: nat) returns (size: int)
    requires Sound(reg) && Serving(reg) && Sensible(reg, types) && Used(types, i)
    ensures i < |reg| && 0 < 8 * size <= ElementBits(reg, Custom(i))
    ensures 8 * size == ElementBits(reg, Custom(i)) <==> AllImages(reg, types, i)
    decreases i, 2
  {
    UsedExists(reg, types, i);
    FirstCursor(reg, i);
    ImagesByMember(reg, types, i);
    hide Sound, Serving, Sensible, Cursor, Align, AllImages, Intact;
    var members := types[i].members;
    var pos: nat := 0;
    for k := 0 to |members|
      invariant k > 0 ==> pos > 0
      invariant Trails(pos, Cursor(reg, i, k))
      invariant pos == Cursor(reg, i, k) <==> IntactTo(reg, types, i, k)
    {
      pos := AddSize(reg, types, i, k, pos);
    }
    LastAlign(pos, Cursor(reg, i, |members|));
    size := if pos != 0 then (pos - 1) / 8 + 1 else 1;
  }

  /** One turn of the loop. */
  method AddSize(reg: Registry, types: seq<CachedCdt>, i: nat, k: nat, pos0: nat) returns (pos: nat)
    requires Sound(reg) && Serving(reg) && Sensible(reg, types) && i < |reg| && Used(types, i) && k < |reg[i].members|
    requires |types[i].members| == |reg[i].members|
    requires Trails(pos0, Cursor(reg, i, k)) && (pos0 == Cursor(reg, i, k) <==> IntactTo(reg, types, i, k))
    ensures pos > 0 && Trails(pos, Cursor(reg, i, k + 1))
    ensures pos == Cursor(reg, i, k + 1) <==> IntactTo(reg, types, i, k + 1)
    decreases i, 1
  {
    var m := types[i].members[k];
    CountKept(reg, types, i, k);
    hide Sound, Serving, Sensible, Cursor, Align, AllImages, IntactTo;
    pos := pos0;
    if m.typ == Some(Basic(BOOL)) {
      BoolStep(reg, types, i, k, pos);
      pos := pos + m.count;
    } else {
      RoundUp(pos);
      if pos % 8 != 0 {
        pos := pos - pos % 8 + 7; // pos |= 0x07
        pos := pos + 1;
      }
      var add := MemberSize(reg, types, i, k);
      SizeStep(reg, types, i, k, pos0, add);
      pos := pos + add;
    }
  }

  /** The bits of a member that is not a BOOL: a type, if there is none, counts as one bit. */
  method MemberSize(reg: Registry, types: seq<CachedCdt>, i: nat, k: nat) returns (add: nat)
    requires Sound(reg) && Serving(reg) && Sensible(reg, types) && i < |reg| && Used(types, i) && k < |reg[i].members|
    requires |types[i].members| == |reg[i].members| && types[i].members[k].typ != Some(Basic(BOOL))
    ensures !reg[i].members[k].IsBool() && add > 0 && Adds(reg, types, i, k, add)
    decreases i, 0
  {
    var m := types[i].members[k];
    CountKept(reg, types, i, k);
    hide Sound, Serving, Sensible, Adds, AllImages, ElementBits;
    match m.typ {
      case Some(Custom(j)) =>
        NestedUsed(reg, types, i, k, j);
        var inner := CachedSize(reg, types, j);
        AddsNested(reg, types, i, k, j, inner);
        PositiveProduct(inner, m.count);
        add := (inner * m.count) * 8;
      case Some(Basic(b)) =>
        AddsBasic(reg, types, i, k, b);
        PositiveProduct(BaseBits(b), m.count);
        add := BaseBits(b) * m.count;
      case None =>
        AddsMissing(reg, types, i, k);
        add := m.count;
    }
  }

  lemma {:induction false} PositiveProduct(a: int, n: int)
    requires a > 0 && n > 0
    ensures a * n > 0
  {}

  lemma {:induction false} BoolStep(reg: Registry, types: seq<CachedCdt>, i: nat, k: nat, pos: nat)
    requires Sound(reg) && Sensible(reg, types) && i < |reg| && Used(types, i) && k < |reg[i].members|
    requires |types[i].members| == |reg[i].members| && types[i].members[k].typ == Some(Basic(BOOL))
    requires reg[i].members[k].typ == Basic(BOOL)
    requires Trails(pos, Cursor(reg, i, k)) && (pos == Cursor(reg, i, k) <==> IntactTo(reg, types, i, k))
    ensures var count := reg[i].members[k].count;
      && count > 0 && Trails(pos + count, Cursor(reg, i, k + 1))
      && (pos + count == Cursor(reg, i, k + 1) <==> IntactTo(reg, types, i, k + 1))
  {
    NextCursor(reg, i, k);
    hide Sensible, Cursor;
    assert IntactTo(reg, types, i, k + 1) <==> IntactTo(reg, types, i, k) && Intact(reg, types, i, k);
  }

  lemma {:induction false} LastAlign(pos: nat, cursor: nat)
    requires pos > 0 && Trails(pos, cursor)
    ensures var size := (pos - 1) / 8 + 1;
      0 < 8 * size <= Align(cursor) && (8 * size == Align(cursor) <==> pos == cursor)
  {
    RoundUp(pos);
    RoundUp(cursor);
  }

  // ---------------------------------------------------------------- client and server

  /** Fetching a type keeps the cache sensible. */
  lemma {:induction false} StaysSensible(reg: Registry, a: Snap, b: Snap, i: nat)
    requires Sound(reg) && i < |reg| && Sensible(reg, a.types) && Fetched(reg, a, b, i)
    ensures Sensible(reg, b.types)
  {
    FetchedFresh(reg, a, b, i);
    forall n | 0 <= n < |reg| && Used(b.types, n) ensures Complete(reg, b.types, n) {
      if Used(a.types, n) {
        KeptComplete(reg, a, b, n);
      } else {
        assert Fresh(a, b, n);
        FreshComplete(reg, a, b, n);
      }
    }
  }

  lemma {:induction false} KeptComplete(reg: Registry, a: Snap, b: Snap, n: nat)
    requires Sensible(reg, a.types) && Grows(reg, a, b) && n < |reg| && Used(a.types, n)
    ensures n < |b.types| && Complete(reg, b.types, n)
  {
    assert Complete(reg, a.types, n) && b.types[n] == a.types[n];
  }

  lemma {:induction false} FreshComplete(reg: Registry, a: Snap, b: Snap, n: nat)
    requires Sound(reg) && n < |reg| && Settled(reg, a, b.types, n)
    ensures Complete(reg, b.types, n)
  {
    AllPositive(reg[n].members);
    forall k | 0 <= k < |b.types[n].members| && b.types[n].members[k].typ.None?
      ensures reg[n].members[k].typ.Custom? && !Fits(reg, reg[n].members[k].typ.index)
    {
      var t := reg[n].members[k].typ;
      assert Missing(reg, a, t);
      if t.index < |reg| { AllPositive(reg[t.index].members); }
    }
  }

  /** `dax_get_typesize`: the size that the client works out from its own cache, fetching the type first when it is
      not there. */
  method TypeSizeOf(cache: TypeCache, reg: Registry, t: TagType) returns (size: int)
    requires Sound(reg) && Serving(reg) && Sensible(reg, cache.types)
    modifies cache
    ensures Sensible(reg, cache.types)
    ensures t.Basic? ==>
      cache.Now() == old(cache.Now()) && 8 * size == (if t == Basic(BOOL) then 8 else BaseBits(t.base))
    ensures t.Custom? && !old(Used(cache.types, t.index)) ==>
      if t.index < |reg| && Fits(reg, t.index) then Fetched(reg, old(cache.Now()), cache.Now(), t.index)
      else size == ERR_ARG && cache.Now() == old(cache.Now())
    ensures t.Custom? && old(Used(cache.types, t.index)) ==> cache.Now() == old(cache.Now())
    ensures t.Custom? && t.index < |reg| && (old(Used(cache.types, t.index)) || Fits(reg, t.index)) ==>
      && 0 < 8 * size <= ElementBits(reg, t)
      && (8 * size == ElementBits(reg, t) <==> AllImages(reg, cache.types, t.index))
  {
    match t {
      case Basic(b) =>
        size := BasicSize(b);
      case Custom(i) =>
        if i < |reg| { AllPositive(reg[i].members); }
        hide Serving, Sensible, ElementBits, Fetched, Fits, AllImages, TypeCache.Now;
        SensibleOrdered(reg, cache.types);
        ghost var was := cache.Now();
        var found := cache.TypeToString(reg, i);
        if !found {
          return ERR_ARG;
        }
        if !Used(was.types, i) {
          StaysSensible(reg, was, cache.Now(), i);
          FetchedUsed(reg, was, cache.Now(), i);
        }
        size := CachedSize(reg, cache.types, i);
    }
  }

  lemma {:induction false} SensibleOrdered(reg: Registry, types: seq<CachedCdt>)
    requires Sensible(reg, types)
    ensures Ordered(reg, types) && forall n :: n >= 0 && Used(types, n) ==> n < |reg|
  {}

  function BasicSize(b: Base): (size: nat)
    ensures 8 * size == if b == BOOL then 8 else BaseBits(b)
  {
    if BaseBits(b) / 8 == 0 then 1 else BaseBits(b) / 8
  }

  /** Everything that a type needs was cached as it should be, or can be fetched. */
  ghost predicate AllAvailable(reg: Registry, types: seq<CachedCdt>, i: nat)
    requires Backward(reg) && i < |reg|
  {
    forall n :: n in Reach(reg, i) ==> Available(reg, types, n)
  }

  /** What is in the cache already is all there exactly when it was available. */
  lemma {:induction false} CachedExact(reg: Registry, types: seq<CachedCdt>, i: nat)
    requires Backward(reg) && Ordered(reg, types) && i < |reg| && Used(types, i)
    ensures AllImages(reg, types, i) <==> AllAvailable(reg, types, i)
  {
    hide Image, Fetchable, Reach;
    if AllAvailable(reg, types, i) {
      ReachUsed(reg, types, i);
    }
    if AllImages(reg, types, i) {
      forall n | n in Reach(reg, i) ensures Available(reg, types, n) {
        ImageUsed(reg, types, n);
      }
    }
  }

  lemma {:induction false} ImageUsed(reg: Registry, types: seq<CachedCdt>, n: nat)
    requires Image(reg, types, n)
    ensures Used(types, n)
  {}

  /** What has been fetched is all there exactly when it was available. */
  lemma {:induction false} FetchedExact(reg: Registry, a: Snap, b: Snap, i: nat)
    requires Sound(reg) && i < |reg| && Ordered(reg, a.types) && Fetched(reg, a, b, i) && Fits(reg, i)
    ensures AllImages(reg, b.types, i) <==> AllAvailable(reg, a.types, i)
  {
    ImagesExact(reg, a, b, i);
    AllPositive(reg[i].members);
    assert i in Reach(reg, i) && Available(reg, a.types, i);
  }

  lemma {:induction false} Unavailable(reg: Registry, types: seq<CachedCdt>, i: nat)
    requires Backward(reg) && i < |reg| && !Used(types, i) && !Fits(reg, i)
    ensures !AllAvailable(reg, types, i)
  {
    assert i in Reach(reg, i) && !Available(reg, types, i);
  }

  /** Client and server work out the same size for a compound type exactly when everything that it needs was cached as
      it should be or can be fetched; the size of a base type is always the same, a BOOL excepted. */
  method SizesAgree(cache: TypeCache, reg: Registry, t: TagType) returns (client: int, server: int)
    requires Sound(reg) && Serving(reg) && Sensible(reg, cache.types)
    modifies cache
    ensures Sensible(reg, cache.types)
    ensures ValidType(reg, t) ==> 8 * server == (if t == Basic(BOOL) then 0 else ElementBits(reg, t))
    ensures t.Basic? ==> (client == server <==> t != Basic(BOOL))
    ensures t.Custom? && t.index < |reg| ==>
      && client <= server
      && (client == server <==> AllAvailable(reg, old(cache.types), t.index))
  {
    hide Serving, Sensible, ElementBits, Fetched, Fits, AllImages, AllAvailable;
    ghost var was := cache.Now();
    SensibleOrdered(reg, cache.types);
    client := TypeSizeOf(cache, reg, t);
    server := TypeSize(reg, t);
    if t.Basic? {
      BasicLayout(reg, t.base);
    } else if t.index < |reg| {
      if Used(was.types, t.index) {
        CachedExact(reg, was.types, t.index);
      } else if Fits(reg, t.index) {
        FetchedExact(reg, was, cache.Now(), t.index);
      } else {
        Unavailable(reg, was.types, t.index);
      }
    }
  }

  lemma {:induction false} BasicLayout(reg: Registry, b: Base)
    requires Sound(reg)
    ensures ElementBits(reg, Basic(b)) == BaseBits(b)
  {}
}
