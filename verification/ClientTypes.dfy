/** The client's copy of the compound types (src/lib/libcdt.c, src/lib/libmsg.c): a cache that starts empty,
    is filled from the server type by type, and fetches the types of members on the way. */
module ClientTypes {
  import opened Common
  import opened Types
  import opened Text
  import opened CdtText

  const DAX_DATATYPE_SIZE := 8

  /** A member as the client stores it; a type name that cannot be resolved leaves the type at zero. */
  datatype CachedMember = CachedMember(name: string, typ: Option<TagType>, count: int)

  /** An element of the client's array; unused ones have no name. */
  datatype CachedCdt = CachedCdt(name: Option<string>, members: seq<CachedMember>)

  const UNUSED := CachedCdt(None, [])

  // ---------------------------------------------------------------- what the cache should hold

  function Cached(m: Member): CachedMember {
    CachedMember(m.name, Some(m.typ), m.count)
  }

  function CachedAll(ms: seq<Member>): (cs: seq<CachedMember>)
    ensures |cs| == |ms| && forall k :: 0 <= k < |ms| ==> cs[k] == Cached(ms[k])
  {
    seq(|ms|, k requires 0 <= k < |ms| => Cached(ms[k]))
  }

  predicate Used(types: seq<CachedCdt>, n: nat) {
    n < |types| && types[n].name.Some?
  }

  /** Every used entry carries the name of the server's type of that index. */
  ghost predicate Named(reg: Registry, types: seq<CachedCdt>) {
    forall n :: 0 <= n < |types| ==>
      if types[n].name.Some? then n < |reg| && types[n].name.value == reg[n].name else types[n] == UNUSED
  }

  /** A cached member is that of the server, except that its type may be missing. */
  predicate Faithful(m: Member, c: CachedMember) {
    c.name == m.name && c.count == m.count && (c.typ.Some? ==> c.typ.value == m.typ)
  }

  /** A used entry holds the first members of the server's type, and the types that they refer to are used. */
  ghost predicate Entry(reg: Registry, types: seq<CachedCdt>, n: nat)
    requires n < |reg| && n < |types|
  {
    var ms := types[n].members;
    && |ms| <= |reg[n].members|
    && forall k :: 0 <= k < |ms| ==>
         && Faithful(reg[n].members[k], ms[k])
         && (ms[k].typ.Some? && ms[k].typ.value.Custom? ==> Used(types, ms[k].typ.value.index))
  }

  /** What holds of every cache that has been filled from the server. */
  ghost predicate Ordered(reg: Registry, types: seq<CachedCdt>) {
    Named(reg, types) && forall n :: 0 <= n < |types| && n < |reg| ==> Entry(reg, types, n)
  }

  /** The entry is the type of the server, with all its members. */
  ghost predicate Image(reg: Registry, types: seq<CachedCdt>, n: nat) {
    Used(types, n) && n < |reg| && types[n].members == CachedAll(reg[n].members)
  }

  ghost predicate Positive(ms: seq<Member>) {
    forall k :: 0 <= k < |ms| ==> ms[k].count > 0
  }

  /** The server can send the type: its text fits one message. */
  ghost predicate Fits(reg: Registry, n: nat) {
    n < |reg| && Typed(reg, reg[n].members) && |Serialize(reg, reg[n])| + 1 <= MSG_DATA_SIZE - 4
  }

  /** The server can send the type, and the client takes all its members. */
  ghost predicate Fetchable(reg: Registry, n: nat) {
    Fits(reg, n) && Positive(reg[n].members)
  }

  /** Any table that the server can have. */
  ghost predicate Serving(reg: Registry) {
    Legal(reg) && Printable(reg) && Backward(reg)
  }

  // ---------------------------------------------------------------- the types that a type needs

  /** The type itself, and all that its members need. */
  ghost function Reach(reg: Registry, i: nat): set<nat>
    requires Backward(reg) && i < |reg|
    decreases i, |reg[i].members| + 1
  {
    {i} + ReachOf(reg, i, |reg[i].members|)
  }

  ghost function ReachOf(reg: Registry, i: nat, k: nat): set<nat>
    requires Backward(reg) && i < |reg| && k <= |reg[i].members|
    decreases i, k
  {
    if k == 0 then {}
    else
      var t := reg[i].members[k - 1].typ;
      ReachOf(reg, i, k - 1) + if t.Custom? then Reach(reg, t.index) else {}
  }

  lemma {:induction false} ReachBelow(reg: Registry, i: nat)
    requires Backward(reg) && i < |reg|
    ensures forall n :: n in Reach(reg, i) ==> n <= i
    decreases i, |reg[i].members| + 1
  {
    ReachOfBelow(reg, i, |reg[i].members|);
  }

  lemma {:induction false} ReachOfBelow(reg: Registry, i: nat, k: nat)
    requires Backward(reg) && i < |reg| && k <= |reg[i].members|
    ensures forall n :: n in ReachOf(reg, i, k) ==> n < i
    decreases i, k
  {
    if k > 0 {
      ReachOfBelow(reg, i, k - 1);
      var t := reg[i].members[k - 1].typ;
      if t.Custom? { ReachBelow(reg, t.index); }
    }
  }

  /** What a reached type needs is reached. */
  lemma {:induction false} ReachClosed(reg: Registry, i: nat, n: nat)
    requires Backward(reg) && i < |reg| && n in Reach(reg, i)
    ensures n < |reg| && Reach(reg, n) <= Reach(reg, i)
    decreases i, |reg[i].members| + 1
  {
    if n != i { ReachOfClosed(reg, i, |reg[i].members|, n); }
  }

  lemma {:induction false} ReachOfClosed(reg: Registry, i: nat, k: nat, n: nat)
    requires Backward(reg) && i < |reg| && k <= |reg[i].members| && n in ReachOf(reg, i, k)
    ensures n < |reg| && Reach(reg, n) <= ReachOf(reg, i, k)
    decreases i, k
  {
    var t := reg[i].members[k - 1].typ;
    if n in ReachOf(reg, i, k - 1) { ReachOfClosed(reg, i, k - 1, n); } else { ReachClosed(reg, t.index, n); }
  }

  /** The type of a member is reached. */
  lemma {:induction false} MemberReached(reg: Registry, i: nat, k: nat, j: nat)
    requires Backward(reg) && i < |reg| && j < k <= |reg[i].members| && reg[i].members[j].typ.Custom?
    ensures reg[i].members[j].typ.index in ReachOf(reg, i, k)
    decreases k
  {
    if j < k - 1 { MemberReached(reg, i, k - 1, j); }
  }

  /** Where every used type is an image, a used type has all that it reaches in the cache. */
  lemma {:induction false} ReachUsed(reg: Registry, types: seq<CachedCdt>, i: nat)
    requires Backward(reg) && Ordered(reg, types) && i < |reg| && Used(types, i)
    requires forall n :: n in Reach(reg, i) && Used(types, n) ==> Image(reg, types, n)
    ensures forall n :: n in Reach(reg, i) ==> Used(types, n)
    decreases i, |reg[i].members| + 1
  {
    assert i in Reach(reg, i) && Entry(reg, types, i);
    ReachOfUsed(reg, types, i, |reg[i].members|);
  }

  lemma {:induction false} ReachOfUsed(reg: Registry, types: seq<CachedCdt>, i: nat, k: nat)
    requires Backward(reg) && Ordered(reg, types) && i < |reg| && k <= |reg[i].members| && Image(reg, types, i)
    requires forall n :: n in Reach(reg, i) && Used(types, n) ==> Image(reg, types, n)
    ensures forall n :: n in ReachOf(reg, i, k) ==> Used(types, n)
    decreases i, k
  {
    if k > 0 {
      ReachOfUsed(reg, types, i, k - 1);
      var t := reg[i].members[k - 1].typ;
      if t.Custom? {
        assert Entry(reg, types, i) && types[i].members[k - 1].typ == Some(t);
        MemberReached(reg, i, |reg[i].members|, k - 1);
        ReachClosed(reg, i, t.index);
        ReachUsed(reg, types, t.index);
      }
    }
  }

  // ---------------------------------------------------------------- filling the cache

  /** The array of the client and the types that have been added to it, in order. */
  datatype Snap = Snap(types: seq<CachedCdt>, added: seq<nat>)

  /** How often a type has been added. */
  ghost function Times(s: Snap, n: nat): nat {
    multiset(s.added)[n]
  }

  /** From one state to another the used entries have only become more, each by being added once. */
  ghost predicate Grows(reg: Registry, a: Snap, b: Snap) {
    && |a.types| <= |b.types| && Named(reg, b.types)
    && (forall n :: 0 <= n < |a.types| && Used(a.types, n) ==> b.types[n] == a.types[n])
    && (forall n :: n >= 0 ==> Times(b, n) == Times(a, n) + if Used(b.types, n) && !Used(a.types, n) then 1 else 0)
  }

  /** A member without a type is one whose type was not there and could not be fetched. */
  ghost predicate Excused(reg: Registry, a: Snap, types: seq<CachedCdt>, n: nat)
    requires n < |reg| && n < |types| && |types[n].members| <= |reg[n].members|
  {
    forall k :: 0 <= k < |types[n].members| && types[n].members[k].typ.None? ==> Missing(reg, a, reg[n].members[k].typ)
  }

  ghost predicate Missing(reg: Registry, a: Snap, t: TagType) {
    t.Custom? && !Used(a.types, t.index) && !Fetchable(reg, t.index)
  }

  /** The types of the members have been asked for: those that the server can send are there. */
  ghost predicate Asked(reg: Registry, types: seq<CachedCdt>, n: nat)
    requires n < |reg| && n < |types| && |types[n].members| <= |reg[n].members|
  {
    forall k :: 0 <= k < |types[n].members| ==>
      var t := reg[n].members[k].typ; t.Custom? && Fits(reg, t.index) ==> Used(types, t.index)
  }

  /** An entry that has been added: its members up to the first count that is not positive. */
  ghost predicate Settled(reg: Registry, a: Snap, types: seq<CachedCdt>, n: nat) {
    && n < |reg| && n < |types| && |types[n].members| == FirstBad(reg[n].members)
    && Excused(reg, a, types, n) && Asked(reg, types, n)
  }

  /** The first mention of a type that is missing leaves the member without a type. */
  ghost predicate Honest(reg: Registry, a: Snap, types: seq<CachedCdt>, i: nat)
    requires Backward(reg) && i < |reg| && i < |types| && |types[i].members| <= |reg[i].members|
  {
    forall k :: 0 <= k < |types[i].members| && Missing(reg, a, reg[i].members[k].typ) ==>
      reg[i].members[k].typ.index in ReachOf(reg, i, k) || types[i].members[k].typ.None?
  }

  ghost predicate Fresh(a: Snap, b: Snap, n: nat) {
    Used(b.types, n) && !Used(a.types, n)
  }

  /** The state while the members of type `i` are added: `k` of them are there. */
  ghost predicate Filling(reg: Registry, a: Snap, b: Snap, i: nat, k: nat)
    requires Backward(reg) && i < |reg| && k <= |reg[i].members|
  {
    && Grows(reg, a, b) && Ordered(reg, b.types) && Fresh(a, b, i) && |b.types[i].members| == k
    && Excused(reg, a, b.types, i) && Asked(reg, b.types, i) && Honest(reg, a, b.types, i)
    && forall n :: n >= 0 && n != i && Fresh(a, b, n) ==>
         n in ReachOf(reg, i, k) && Fits(reg, n) && Settled(reg, a, b.types, n)
  }

  /** What comes of caching the text of type `i`: it and types that it reaches have been added, each with its members
      up to the first count that is not positive, and nothing else has changed. */
  ghost predicate Fetched(reg: Registry, a: Snap, b: Snap, i: nat)
    requires Backward(reg) && i < |reg|
  {
    Filling(reg, a, b, i, FirstBad(reg[i].members))
  }

  /** The state with one more member in entry `i`. */
  ghost function Extended(s: Snap, i: nat, m: CachedMember): Snap
    requires i < |s.types|
  {
    s.(types := s.types[i := s.types[i].(members := s.types[i].members + [m])])
  }

  /** How a type name is looked up: a type that is not there is fetched, and missing when that fails. */
  ghost predicate LookedUp(reg: Registry, b: Snap, c: Snap, t: TagType, r: Option<TagType>)
    requires Backward(reg) && (t.Custom? ==> t.index < |reg|)
  {
    && r == (if Missing(reg, b, t) then None else Some(t))
    && if t.Custom? && !Used(b.types, t.index) && Fits(reg, t.index) then Fetched(reg, b, c, t.index) else c == b
  }

  lemma {:induction false} ReachGrows(reg: Registry, i: nat, k: nat, l: nat)
    requires Backward(reg) && i < |reg| && k <= l <= |reg[i].members|
    ensures ReachOf(reg, i, k) <= ReachOf(reg, i, l)
    decreases l
  {
    if k < l { ReachGrows(reg, i, k, l - 1); }
  }

  lemma GrowsOn(reg: Registry, a: Snap, b: Snap, c: Snap)
    requires Grows(reg, a, b) && Grows(reg, b, c)
    ensures Grows(reg, a, c)
  {
    hide Named;
  }

  lemma NoGrowth(reg: Registry, a: Snap)
    requires Named(reg, a.types)
    ensures Grows(reg, a, a)
  {
    hide Named;
  }

  /** Looking up a type keeps what is there and what is known about it. */
  lemma {:induction false} LookupGrows(reg: Registry, b: Snap, c: Snap, t: TagType, r: Option<TagType>)
    requires Backward(reg) && (t.Custom? ==> t.index < |reg|) && Ordered(reg, b.types) && LookedUp(reg, b, c, t, r)
    ensures Grows(reg, b, c) && Ordered(reg, c.types)
    ensures r.Some? ==> r == Some(t) && (t.Custom? ==> Used(c.types, t.index))
    ensures t.Custom? && Fits(reg, t.index) ==> Used(c.types, t.index)
    ensures forall n :: n >= 0 && Fresh(b, c, n) ==>
      t.Custom? && n in Reach(reg, t.index) && Fits(reg, n) && Settled(reg, b, c.types, n)
  {
    assert Named(reg, b.types);
    hide Fetched, Settled, Ordered, Grows, Reach, Fits, Named, Positive;
    if t.Custom? && !Used(b.types, t.index) && Fits(reg, t.index) {
      FetchedFresh(reg, b, c, t.index);
    } else {
      NoGrowth(reg, b);
    }
  }

  lemma {:induction false} FetchedFresh(reg: Registry, a: Snap, b: Snap, i: nat)
    requires Backward(reg) && i < |reg| && Fetched(reg, a, b, i)
    ensures Grows(reg, a, b) && Ordered(reg, b.types) && Used(b.types, i)
    ensures forall n :: n >= 0 && Fresh(a, b, n) ==>
      n in Reach(reg, i) && (n != i ==> Fits(reg, n)) && Settled(reg, a, b.types, n)
  {
    hide Grows, Ordered, Excused, Asked, Honest, ReachOf, Fits;
    ReachGrows(reg, i, FirstBad(reg[i].members), |reg[i].members|);
  }

  lemma {:induction false} StillSettled(reg: Registry, a: Snap, b: Snap, before: seq<CachedCdt>,
                                        after: seq<CachedCdt>, n: nat)
    requires forall m :: m >= 0 && Used(a.types, m) ==> Used(b.types, m)
    requires forall m :: m >= 0 && Used(before, m) ==> Used(after, m)
    requires Settled(reg, b, before, n) && n < |after| && after[n] == before[n]
    ensures Settled(reg, a, after, n)
  {
    hide Fetchable, Fits;
  }

  /** One more member keeps the order of the cache. */
  lemma ExtendedOrdered(reg: Registry, c: Snap, i: nat, k: nat, m: CachedMember)
    requires Ordered(reg, c.types) && Used(c.types, i) && i < |reg| && |c.types[i].members| == k < |reg[i].members|
    requires Faithful(reg[i].members[k], m) && (m.typ.Some? && m.typ.value.Custom? ==> Used(c.types, m.typ.value.index))
    ensures Ordered(reg, Extended(c, i, m).types)
  {
    var d := Extended(c, i, m);
    assert forall n :: n >= 0 ==> Used(d.types, n) == Used(c.types, n);
    forall n | 0 <= n < |d.types| && n < |reg| ensures Entry(reg, d.types, n) {
      assert Entry(reg, c.types, n);
    }
  }

  lemma ExtendedGrows(reg: Registry, a: Snap, c: Snap, i: nat, m: CachedMember)
    requires Grows(reg, a, c) && Used(c.types, i) && !Used(a.types, i)
    ensures Grows(reg, a, Extended(c, i, m))
  {
    var d := Extended(c, i, m);
    assert forall n :: n >= 0 ==> Used(d.types, n) == Used(c.types, n);
  }

  lemma {:induction false} ExtendedExcused(reg: Registry, a: Snap, b: Snap, c: Snap, i: nat, k: nat, m: CachedMember)
    requires Backward(reg) && i < |reg| && k < |reg[i].members| && Filling(reg, a, b, i, k) && Grows(reg, b, c)
    requires m.typ.None? <==> Missing(reg, b, reg[i].members[k].typ)
    requires var t := reg[i].members[k].typ; t.Custom? && Fits(reg, t.index) ==> Used(c.types, t.index)
    ensures i < |c.types| && |c.types[i].members| == k
    ensures var types := Extended(c, i, m).types;
      Excused(reg, a, types, i) && Asked(reg, types, i) && Honest(reg, a, types, i)
  {
    hide Ordered, Fetchable, Fits, ReachOf, Settled;
    var t := reg[i].members[k].typ;
    var d := Extended(c, i, m);
    assert forall n :: n >= 0 ==> Used(d.types, n) == Used(c.types, n);
    if t.Custom? && Fresh(a, b, t.index) {
      assert t.index != i;
    }
  }

  /** A member is added, after its type has been looked up. */
  lemma {:induction false} FillNext(reg: Registry, a: Snap, b: Snap, c: Snap, i: nat, k: nat, typ: Option<TagType>)
    requires Backward(reg) && i < |reg| && k < |reg[i].members| && Filling(reg, a, b, i, k)
    requires LookedUp(reg, b, c, reg[i].members[k].typ, typ)
    ensures i < |c.types|
    ensures var m := CachedMember(reg[i].members[k].name, typ, reg[i].members[k].count);
      Filling(reg, a, Extended(c, i, m), i, k + 1)
  {
    var t := reg[i].members[k].typ;
    var m := CachedMember(reg[i].members[k].name, typ, reg[i].members[k].count);
    LookupGrows(reg, b, c, t, typ);
    GrowsOn(reg, a, b, c);
    ExtendedExcused(reg, a, b, c, i, k, m);
    ExtendedGrows(reg, a, c, i, m);
    ExtendedOrdered(reg, c, i, k, m);
    var d := Extended(c, i, m);
    hide Settled, Excused, Asked, Honest, Ordered, Named, Fetched, Missing, Fits;
    forall n | n >= 0 && n != i && Fresh(a, d, n)
      ensures n in ReachOf(reg, i, k + 1) && Fits(reg, n) && Settled(reg, a, d.types, n)
    {
      FreshOrKnown(reg, a, b, c, i, k, m, n);
    }
  }

  /** What is new is what was new before or what the lookup has brought. */
  lemma {:induction false} FreshOrKnown(reg: Registry, a: Snap, b: Snap, c: Snap, i: nat, k: nat, m: CachedMember,
                                        n: nat)
    requires Backward(reg) && i < |reg| && k < |reg[i].members| && Filling(reg, a, b, i, k) && Grows(reg, b, c)
    requires forall n :: n >= 0 && Fresh(b, c, n) ==>
      && reg[i].members[k].typ.Custom? && n in Reach(reg, reg[i].members[k].typ.index)
      && Fits(reg, n) && Settled(reg, b, c.types, n)
    requires i < |c.types| && n != i && Fresh(a, Extended(c, i, m), n)
    ensures n in ReachOf(reg, i, k + 1) && Fits(reg, n) && Settled(reg, a, Extended(c, i, m).types, n)
  {
    hide Settled, Excused, Asked, Honest, Ordered, Fits, Reach;
    var d := Extended(c, i, m);
    assert forall x :: x >= 0 ==> Used(d.types, x) == Used(c.types, x);
    if Used(b.types, n) {
      assert Fresh(a, b, n);
      StillSettled(reg, a, a, b.types, d.types, n);
    } else {
      assert Fresh(b, c, n);
      StillSettled(reg, a, b, c.types, d.types, n);
    }
  }

  /** The entry has been named and has no members yet. */
  lemma {:induction false} FillStart(reg: Registry, a: Snap, b: Snap, i: nat)
    requires Backward(reg) && i < |reg| && Ordered(reg, a.types) && !Used(a.types, i)
    requires |a.types| <= |b.types| && i < |b.types| && b.added == a.added + [i]
    requires forall n :: 0 <= n < |b.types| ==>
      b.types[n] == if n == i then CachedCdt(Some(reg[i].name), []) else if n < |a.types| then a.types[n] else UNUSED
    ensures Filling(reg, a, b, i, 0)
  {
    hide Reach, Fits;
    forall n | n >= 0 ensures Times(b, n) == Times(a, n) + if Used(b.types, n) && !Used(a.types, n) then 1 else 0 {}
    forall n | 0 <= n < |b.types| && n < |reg| ensures Entry(reg, b.types, n) {
      if n < |a.types| { assert Entry(reg, a.types, n); }
    }
  }

  function FirstBad(ms: seq<Member>): (k: nat)
    ensures k <= |ms| && (forall j :: 0 <= j < k ==> ms[j].count > 0) && (k < |ms| ==> ms[k].count <= 0)
  {
    if ms == [] || ms[0].count <= 0 then 0 else 1 + FirstBad(ms[1..])
  }

  lemma FirstBadExact(ms: seq<Member>)
    ensures FirstBad(ms) == |ms| <==> Positive(ms)
  {}

  // ---------------------------------------------------------------- exactly when the types arrive

  /** Type `i` and all that it reaches are images of the types of the server. */
  ghost predicate AllImages(reg: Registry, types: seq<CachedCdt>, i: nat)
    requires Backward(reg) && i < |reg|
  {
    forall n :: n in Reach(reg, i) ==> Image(reg, types, n)
  }

  /** A type that is there as it should be, or that can be fetched. */
  ghost predicate Available(reg: Registry, types: seq<CachedCdt>, n: nat) {
    if Used(types, n) then Image(reg, types, n) else Fetchable(reg, n)
  }

  /** After a fetch the type and all that it reaches are images exactly when its own counts are positive and every
      other type that it reaches was an image or can be fetched. */
  lemma {:induction false} ImagesExact(reg: Registry, a: Snap, b: Snap, i: nat)
    requires Backward(reg) && i < |reg| && Ordered(reg, a.types) && Fetched(reg, a, b, i)
    ensures AllImages(reg, b.types, i) <==>
      Positive(reg[i].members) && forall n :: n in Reach(reg, i) && n != i ==> Available(reg, a.types, n)
  {
    FetchedFresh(reg, a, b, i);
    var good := Positive(reg[i].members) && forall n :: n in Reach(reg, i) && n != i ==> Available(reg, a.types, n);
    if AllImages(reg, b.types, i) {
      forall n | n in Reach(reg, i)
        ensures if n == i then Positive(reg[i].members) else Available(reg, a.types, n)
      {
        ImageWas(reg, a, b, i, n);
      }
      assert i in Reach(reg, i);
    }
    if good {
      forall n | n in Reach(reg, i) && Used(b.types, n) ensures Image(reg, b.types, n) {
        WillBeImage(reg, a, b, i, n);
      }
      ReachUsed(reg, b.types, i);
    }
  }

  lemma {:induction false} ImageWas(reg: Registry, a: Snap, b: Snap, i: nat, n: nat)
    requires Backward(reg) && i < |reg| && Fetched(reg, a, b, i) && n in Reach(reg, i) && Image(reg, b.types, n)
    ensures if n == i then Positive(reg[i].members) else Available(reg, a.types, n)
  {
    hide Reach, Ordered, Excused, Asked, Honest, CachedAll, Positive;
    FetchedFresh(reg, a, b, i);
    FirstBadExact(reg[n].members);
    if !Used(a.types, n) { assert Fresh(a, b, n); }
  }

  lemma {:induction false} WillBeImage(reg: Registry, a: Snap, b: Snap, i: nat, n: nat)
    requires Backward(reg) && i < |reg| && Fetched(reg, a, b, i) && n in Reach(reg, i) && Used(b.types, n)
    requires Positive(reg[i].members) && forall m :: m in Reach(reg, i) && m != i ==> Available(reg, a.types, m)
    ensures Image(reg, b.types, n)
  {
    hide Reach, Positive, Honest, Asked, Fits;
    FetchedFresh(reg, a, b, i);
    if Used(a.types, n) {
      assert n != i && Available(reg, a.types, n);
    } else {
      assert Fresh(a, b, n);
      FirstBadExact(reg[n].members);
      assert Entry(reg, b.types, n);
      forall k | 0 <= k < |reg[n].members| ensures b.types[n].members[k] == Cached(reg[n].members[k]) {
        NotMissing(reg, a, i, n, k);
      }
      assert b.types[n].members == CachedAll(reg[n].members);
    }
  }

  lemma {:induction false} NotMissing(reg: Registry, a: Snap, i: nat, n: nat, k: nat)
    requires Backward(reg) && i < |reg| && n in Reach(reg, i) && n < |reg| && k < |reg[n].members|
    requires forall m :: m in Reach(reg, i) && m != i ==> Available(reg, a.types, m)
    ensures !Missing(reg, a, reg[n].members[k].typ)
  {
    hide Fetchable;
    var t := reg[n].members[k].typ;
    if t.Custom? {
      MemberReached(reg, n, |reg[n].members|, k);
      ReachClosed(reg, i, n);
      ReachBelow(reg, i);
      assert t.index in Reach(reg, n) && t.index != i;
    }
  }

  /** What comes of caching the text of type `i`: success exactly when its own counts are positive. */
  ghost predicate Taken(reg: Registry, a: Snap, b: Snap, i: nat, code: int)
    requires Backward(reg) && i < |reg|
  {
    code == (if Positive(reg[i].members) then 0 else ERR_ARG) && Fetched(reg, a, b, i)
  }

  lemma {:induction false} FillingOrdered(reg: Registry, a: Snap, b: Snap, i: nat, k: nat)
    requires Backward(reg) && i < |reg| && k <= |reg[i].members| && Filling(reg, a, b, i, k)
    ensures Ordered(reg, b.types)
  {}

  lemma {:induction false} FetchedUsed(reg: Registry, a: Snap, b: Snap, i: nat)
    requires Backward(reg) && i < |reg| && Fetched(reg, a, b, i)
    ensures Named(reg, b.types) && Used(b.types, i)
  {}

  lemma NotPositive(ms: seq<Member>, k: nat)
    requires k < |ms| && ms[k].count <= 0 && forall j :: 0 <= j < k ==> ms[j].count > 0
    ensures !Positive(ms) && FirstBad(ms) == k
  {}

  lemma AllPositive(ms: seq<Member>)
    requires forall j :: 0 <= j < |ms| ==> ms[j].count > 0
    ensures Positive(ms) && FirstBad(ms) == |ms|
  {}

  lemma ShortName(reg: Registry, i: nat)
    requires Legal(reg) && i < |reg|
    ensures |reg[i].name| <= DAX_TAGNAME_SIZE
  {
    assert LegalType(reg, i);
    ValidNameShort(reg[i].name);
  }

  /** The text of a member splits into its name, the name of its type and its count. */
  lemma MemberParts(reg: Registry, i: nat, k: nat)
    requires Legal(reg) && i < |reg| && k < |reg[i].members| && ValidType(reg, reg[i].members[k].typ)
    ensures var m := reg[i].members[k];
      && ValidType(reg[..i], m.typ)
      && Tokens(MemberText(reg, m), ',') == [m.name, TypeName(reg, m.typ), PrintInt(m.count)]
      && Strtol10(PrintInt(m.count)) == m.count
  {
    hide Tokens, MemberText, ValidName, PrintInt, Strtol10;
    assert LegalType(reg, i);
    MemberTokens(reg, i, reg[i].members[k]);
    PrintParse(reg[i].members[k].count);
  }

  // ---------------------------------------------------------------- the client's methods

  /** The first used entry of that name, or the length of the array. */
  method FindCached(types: seq<CachedCdt>, name: string) returns (n: nat)
    ensures n <= |types| && (n < |types| ==> Used(types, n) && SameText(name, types[n].name.value))
    ensures forall k :: 0 <= k < n && Used(types, k) ==> !SameText(name, types[k].name.value)
  {
    hide SameText;
    n := 0;
    while n < |types| && !(types[n].name.Some? && SameText(name, types[n].name.value))
      invariant n <= |types|
      invariant forall k :: 0 <= k < n && Used(types, k) ==> !SameText(name, types[k].name.value)
    {
      n := n + 1;
    }
  }

  lemma NamesDiffer(reg: Registry, a: nat, b: nat)
    requires Legal(reg) && a < b < |reg|
    ensures !SameText(reg[a].name, reg[b].name) && !SameText(reg[b].name, reg[a].name)
  {
    hide ValidName, LegalMembers;
    assert LegalType(reg, b);
    assert reg[..b][a] == reg[a];
  }

  /** Names of types are unique, so that a search by name finds the type that is meant. */
  lemma NameIsIndex(reg: Registry, j: nat, n: nat)
    requires Legal(reg) && j < |reg| && n < |reg| && SameText(reg[j].name, reg[n].name)
    ensures n == j
  {
    hide Legal, SameText;
    if n < j { NamesDiffer(reg, n, j); } else if j < n { NamesDiffer(reg, j, n); }
  }

  /** Where a search of the cache for the name of type `j` ends. */
  lemma SearchFinds(reg: Registry, types: seq<CachedCdt>, j: nat, n: nat)
    requires Legal(reg) && j < |reg| && Named(reg, types) && n <= |types|
    requires n < |types| ==> Used(types, n) && SameText(reg[j].name, types[n].name.value)
    requires forall k :: 0 <= k < n && Used(types, k) ==> !SameText(reg[j].name, types[k].name.value)
    ensures if Used(types, j) then n == j else n == |types|
  {
    hide LegalType;
    if n < |types| { NameIsIndex(reg, j, n); }
    assert SameText(reg[j].name, reg[j].name);
  }

  class TypeCache {
    var types: seq<CachedCdt>
    ghost var added: seq<nat>

    constructor ()
      ensures types == [] && added == []
    {
      types, added := [], [];
    }

    ghost function Now(): Snap
      reads this
    {
      Snap(types, added)
    }

    /** `dax_string_to_type` for the type name of a member of type `i`: missing exactly when the type is neither in the
        cache nor can be fetched. */
    method StringToType(reg: Registry, name: string, ghost i: nat, ghost t: TagType) returns (r: Option<TagType>)
      requires Serving(reg) && i < |reg| && ValidType(reg[..i], t) && name == TypeName(reg, t)
      requires Ordered(reg, types)
      modifies this
      ensures LookedUp(reg, old(Now()), Now(), t, r)
      decreases i, 1
    {
      hide SameText, Fits, Legal, Printable, Fetched, Grows, Positive, Entry;
      assert reg[..|reg|] == reg;
      TypeFound(reg, |reg|, t);
      var b := FindBase(BASES, name);
      if b.Some? {
        return Some(Basic(b.value));
      }
      var n := FindCached(types, name);
      SearchFinds(reg, types, t.index, n);
      if n < |types| {
        return Some(Custom(n));
      }
      var code := CdtGetByName(reg, name, t.index);
      if code != 0 {
        return None;
      }
      n := FindCached(types, name);
      FetchedUsed(reg, old(Now()), Now(), t.index);
      SearchFinds(reg, types, t.index, n);
      if n < |types| {
        return Some(Custom(n));
      }
      return None;
    }

    /** `dax_cdt_get` by name: the server looks the name up. */
    method CdtGetByName(reg: Registry, name: string, ghost j: nat) returns (code: int)
      requires Serving(reg) && j < |reg| && GetType(reg, name) == Some(Custom(j))
      requires Ordered(reg, types) && !Used(types, j)
      modifies this
      ensures code == 0 <==> Fetchable(reg, j)
      ensures if Fits(reg, j) then Fetched(reg, old(Now()), Now(), j) else Now() == old(Now())
      decreases j, 4
    {
      hide Serialize, Legal, Fetched, Filling, GetType;
      var t := GetType(reg, name);
      code := CdtGet(reg, t.value.index);
    }

    /** `dax_cdt_get` by type: the server sends the text of the type, if it fits one message. */
    method CdtGet(reg: Registry, i: nat) returns (code: int)
      requires Serving(reg) && Ordered(reg, types) && !Used(types, i)
      modifies this
      ensures i >= |reg| ==> code == ERR_ARG && Now() == old(Now())
      ensures i < |reg| && !Fits(reg, i) ==> code == ERR_2BIG && Now() == old(Now())
      ensures i < |reg| && Fits(reg, i) ==> Taken(reg, old(Now()), Now(), i, code)
      decreases i, 3
    {
      hide Serialize, Tokens, Legal, Taken;
      if i < |reg| { assert Typed(reg, reg[i].members); }
      var str, size := SerializeDatatype(reg, i);
      if size > MSG_DATA_SIZE - 4 {
        return ERR_2BIG;
      } else if size < 0 {
        return size;
      }
      code := AddCdtToCache(reg, i, str);
    }

    /** The array is allocated and grown in steps until it has the index. */
    method GrowTo(index: nat)
      modifies this`types
      ensures |types| > index && |types| >= |old(types)|
      ensures forall k :: 0 <= k < |types| ==> types[k] == if k < |old(types)| then old(types)[k] else UNUSED
    {
      while index >= |types|
        invariant |types| >= |old(types)|
        invariant forall k :: 0 <= k < |types| ==> types[k] == if k < |old(types)| then old(types)[k] else UNUSED
        decreases index - |types|
      {
        types := types + Copies(DAX_DATATYPE_SIZE, UNUSED);
      }
    }

    /** `add_cdt_to_cache` with the text of a type */
    method AddCdtToCache(reg: Registry, index: nat, desc: string) returns (code: int)
      requires Serving(reg) && index < |reg| && Typed(reg, reg[index].members)
      requires desc == Serialize(reg, reg[index])
      requires Ordered(reg, types) && !Used(types, index)
      modifies this
      ensures Taken(reg, old(Now()), Now(), index, code)
      decreases index, 2
    {
      assert Legal(reg) && Backward(reg);
      hide Serialize, Tokens, Serving, Ordered, MemberTexts, Taken, Filling, Typed;
      ghost var was := Now();
      SerializedTokens(reg, index);
      var t := Tokens(desc, ':');
      if t == [] {
        return ERR_ARG;
      }
      ShortName(reg, index);
      InsertType(reg, index, t[0]);
      code := AddMembers(reg, index, t[1..], was);
    }

    /** The entry of the type gets its name (`_insert_type`). */
    method InsertType(reg: Registry, index: nat, name: string)
      requires Backward(reg) && index < |reg| && name == reg[index].name && |name| <= DAX_TAGNAME_SIZE
      requires Ordered(reg, types) && !Used(types, index)
      modifies this
      ensures Filling(reg, old(Now()), Now(), index, 0)
    {
      hide Filling, Entry;
      GrowTo(index);
      if |name| <= DAX_TAGNAME_SIZE {
        types := types[index := types[index].(name := Some(name))];
      }
      added := added + [index];
      FillStart(reg, old(Now()), Now(), index);
    }

    /** The loop over the members. */
    method AddMembers(reg: Registry, index: nat, texts: seq<string>, ghost was: Snap) returns (code: int)
      requires Serving(reg) && index < |reg| && Typed(reg, reg[index].members)
      requires texts == MemberTexts(reg, reg[index].members)
      requires Filling(reg, was, Now(), index, 0)
      modifies this
      ensures Taken(reg, was, Now(), index, code)
      decreases index, 2, 1
    {
      hide Serialize, Legal, Filling, Positive, MemberText;
      for k := 0 to |texts|
        invariant Filling(reg, was, Now(), index, k)
        invariant forall j :: 0 <= j < k ==> reg[index].members[j].count > 0
      {
        code := AddMember(reg, index, texts[k], was, k);
        if code != 0 {
          NotPositive(reg[index].members, k);
          return;
        }
      }
      AllPositive(reg[index].members);
      return 0;
    }

    /** `_add_member_to_cache` with the text of member `k`: only the count is looked at, not whether there is a type */
    method AddMember(reg: Registry, index: nat, desc: string, ghost was: Snap, ghost k: nat) returns (code: int)
      requires Serving(reg) && index < |reg| && k < |reg[index].members| && Typed(reg, reg[index].members)
      requires desc == MemberText(reg, reg[index].members[k])
      requires Filling(reg, was, Now(), index, k)
      modifies this
      ensures if reg[index].members[k].count > 0 then code == 0 && Filling(reg, was, Now(), index, k + 1)
              else code == ERR_ARG && Now() == old(Now())
      decreases index, 2, 0
    {
      hide MemberText, Tokens, Filling, LookedUp, Ordered, Strtol10, PrintInt;
      ghost var m := reg[index].members[k];
      MemberParts(reg, index, k);
      var t := Tokens(desc, ',');
      if |t| < 3 || Strtol10(t[2]) <= 0 {
        return ERR_ARG;
      }
      ghost var before := Now();
      FillingOrdered(reg, was, before, index, k);
      var typ := StringToType(reg, t[1], index, m.typ);
      FillNext(reg, was, before, Now(), index, k, typ);
      var member := CachedMember(t[0], typ, Strtol10(t[2]));
      types := types[index := types[index].(members := types[index].members + [member])];
      return 0;
    }

    /** `dax_type_to_string` for a compound type: whether it is in the cache, fetched if need be. */
    method TypeToString(reg: Registry, i: nat) returns (found: bool)
      requires Serving(reg) && Ordered(reg, types)
      modifies this
      ensures found <==> old(Used(types, i)) || Fetchable(reg, i)
      ensures if i < |reg| && !old(Used(types, i)) && Fits(reg, i) then Fetched(reg, old(Now()), Now(), i)
              else Now() == old(Now())
    {
      hide Legal, Serialize, Ordered, Fetched;
      if i < |types| && types[i].name.Some? {
        return true;
      }
      var code := CdtGet(reg, i);
      return code == 0;
    }
  }

  // ---------------------------------------------------------------- a count of zero

  const ZERO: Registry := [Cdt("T", [Member("a", Basic(INT), 0)])]

  /** The server creates a type with a member that has no elements, and the client refuses to cache it. */
  method ZeroCount() returns (cache: TypeCache, code: int)
    ensures Tokens("T:a,INT,0", ':') != [] && Create([], "T:a,INT,0") == (ZERO, Ok(Custom(0)))
    ensures Backward(ZERO) && Taken(ZERO, Snap([], []), cache.Now(), 0, code) && code == ERR_ARG
    ensures Used(cache.types, 0) && cache.types[0].members == []
  {
    ZeroTable();
    NotPositive(ZERO[0].members, 0);
    hide Serving, Ordered, Fits, Create, Tokens, Fetched;
    cache := new TypeCache();
    code := cache.CdtGet(ZERO, 0);
    ZeroFetched(cache.Now());
  }

  lemma {:induction false} ZeroTable()
    ensures Tokens("T:a,INT,0", ':') != [] && Create([], "T:a,INT,0") == (ZERO, Ok(Custom(0)))
    ensures Serving(ZERO) && Fits(ZERO, 0) && Ordered(ZERO, [])
  {
    ZeroCreated();
    assert Legal([]);
    hide Legal, Serialize, Create, Tokens;
    CreateLegal([], "T:a,INT,0");
    LegalPrintable(ZERO);
    ZeroText();
  }

  lemma {:induction false} ZeroFetched(b: Snap)
    requires Backward(ZERO) && Fetched(ZERO, Snap([], []), b, 0)
    ensures Used(b.types, 0) && b.types[0].members == []
  {
    NotPositive(ZERO[0].members, 0);
  }

  const NEEDS_ZERO: Registry := ZERO + [Cdt("U", [Member("t", Custom(0), 1)])]

  /** The server creates a type that uses this one, and the client caches it with success, but without the type of its
      member. */
  method ZeroNeeded() returns (cache: TypeCache, code: int)
    ensures Tokens("U:t,T,1", ':') != [] && Printable(ZERO)
    ensures Create(ZERO, "U:t,T,1") == (NEEDS_ZERO, Ok(Custom(1))) && Positive(NEEDS_ZERO[1].members)
    ensures Backward(NEEDS_ZERO) && Taken(NEEDS_ZERO, Snap([], []), cache.Now(), 1, code) && code == 0
    ensures Used(cache.types, 1) && cache.types[1].members == [CachedMember("t", None, 1)]
    ensures Used(cache.types, 0) && cache.types[0].members == []
  {
    NeededTable();
    AllPositive(NEEDS_ZERO[1].members);
    hide Serving, Ordered, Fits, Create, Tokens, Fetched, Positive;
    cache := new TypeCache();
    code := cache.CdtGet(NEEDS_ZERO, 1);
    NeededFetched(cache.Now());
  }

  lemma {:induction false} NeededTable()
    ensures Tokens("U:t,T,1", ':') != [] && Printable(ZERO) && Create(ZERO, "U:t,T,1") == (NEEDS_ZERO, Ok(Custom(1)))
    ensures Serving(NEEDS_ZERO) && Fits(NEEDS_ZERO, 0) && Fits(NEEDS_ZERO, 1) && Ordered(NEEDS_ZERO, [])
  {
    ZeroTable();
    NeededCreated();
    NeededText();
    hide Legal, Serialize, Create, Tokens, Fits;
    CreateLegal(ZERO, "U:t,T,1");
    LegalPrintable(NEEDS_ZERO);
  }

  lemma {:induction false} NeededFetched(b: Snap)
    requires Backward(NEEDS_ZERO) && Fetched(NEEDS_ZERO, Snap([], []), b, 1)
    requires Fits(NEEDS_ZERO, 0)
    ensures Used(b.types, 1) && b.types[1].members == [CachedMember("t", None, 1)]
    ensures Used(b.types, 0) && b.types[0].members == []
  {
    hide Serialize, Fits, Grows;
    var reg, a := NEEDS_ZERO, Snap([], []);
    AllPositive(reg[1].members);
    NotPositive(reg[0].members, 0);
    assert ReachOf(reg, 1, 0) == {};
    assert Missing(reg, a, reg[1].members[0].typ);
    assert Entry(reg, b.types, 1) && Faithful(reg[1].members[0], b.types[1].members[0]);
    assert Fresh(a, b, 0);
  }

  lemma NeededText()
    ensures Fits(NEEDS_ZERO, 0) && Fits(NEEDS_ZERO, 1)
  {
    var reg := NEEDS_ZERO;
    assert Typed(reg, reg[0].members) && Typed(reg, reg[1].members);
    OneMember(reg, 0);
    OneMember(reg, 1);
    ShortDigit(0);
    ShortDigit(1);
  }

  lemma ShortDigit(n: nat)
    requires n < 10
    ensures |PrintInt(n)| == 1
  {}

  lemma OneMember(reg: Registry, i: nat)
    requires i < |reg| && |reg[i].members| == 1 && ValidType(reg, reg[i].members[0].typ)
    ensures var m := reg[i].members[0];
      && Typed(reg, reg[i].members)
      && |Serialize(reg, reg[i])| == |reg[i].name| + |m.name| + |TypeName(reg, m.typ)| + |PrintInt(m.count)| + 3
  {
    var m := reg[i].members[0];
    var texts := MemberTexts(reg, reg[i].members);
    assert texts[1..] == [];
    Appended("", reg, m);
    assert Colons(texts) == ":" + texts[0] + "";
  }

  lemma NeededTokens()
    ensures Tokens("U:t,T,1", ':') == ["U", "t,T,1"] && Tokens("t,T,1", ',') == ["t", "T", "1"]
  {
    hide Tokens;
    assert "U:t,T,1" == "U" + (":" + "t,T,1");
    TokensCons("U", ":" + "t,T,1", ':');
    TokensSkip("t,T,1", ':');
    assert "t,T,1" + "" == "t,T,1";
    TokensCons("t,T,1", "", ':');
    NoTokens(':');
    assert "t" + "," + "T" + "," + "1" == "t,T,1";
    ThreeTokens("t", "T", "1");
  }

  lemma NeededCreated()
    requires Printable(ZERO)
    ensures Tokens("U:t,T,1", ':') != [] && Create(ZERO, "U:t,T,1") == (NEEDS_ZERO, Ok(Custom(1)))
  {
    NeededTokens();
    NeededMember();
    ZeroTypes();
    ShortNames();
    hide Tokens, GetType, ParseMember, NameCode;
    var t := ["U", "t,T,1"];
    assert t[1..] == ["t,T,1"] && t[1..][1..] == [];
    var m := Member("t", Custom(0), 1);
    assert [] + [m] == [m] && ParseMembers(ZERO, [m], []) == Ok([m]);
    assert ParseMembers(ZERO, [], t[1..]) == Ok([m]);
  }

  lemma NeededMember()
    ensures ParseMember(ZERO, [], "t,T,1") == Ok(Member("t", Custom(0), 1))
  {
    NeededTokens();
    ZeroTypes();
    ShortNames();
    OneNumber();
    hide Tokens, Strtol0, GetType, NameCode;
  }

  lemma ZeroTypes()
    ensures GetType(ZERO, "T") == Some(Custom(0)) && GetType(ZERO, "U").None?
  {
    hide FindBase;
    assert forall b: Base :: |BaseName(b)| >= 3;
    assert SameText("T", "T");
    assert !SameText("U", "T") by { assert Lower("U"[0]) != Lower("T"[0]); }
    assert ZERO[1..] == [];
  }

  lemma OneNumber()
    ensures Strtol0("1") == 1
  {
    PrintParse(1);
    assert PrintInt(1) == "1";
  }

  lemma ZeroTokens()
    ensures Tokens("T:a,INT,0", ':') == ["T", "a,INT,0"] && Tokens("a,INT,0", ',') == ["a", "INT", "0"]
  {
    hide Tokens;
    assert "T:a,INT,0" == "T" + (":" + "a,INT,0");
    TokensCons("T", ":" + "a,INT,0", ':');
    TokensSkip("a,INT,0", ':');
    assert "a,INT,0" + "" == "a,INT,0";
    TokensCons("a,INT,0", "", ':');
    NoTokens(':');
    assert "a" + "," + "INT" + "," + "0" == "a,INT,0";
    ThreeTokens("a", "INT", "0");
  }

  lemma ZeroCreated()
    ensures Tokens("T:a,INT,0", ':') != [] && Create([], "T:a,INT,0") == (ZERO, Ok(Custom(0)))
  {
    ZeroTokens();
    ZeroMember();
    NoBase();
    ShortNames();
    hide Tokens, GetType, ParseMember, NameCode;
    var t := ["T", "a,INT,0"];
    assert t[1..] == ["a,INT,0"] && t[1..][1..] == [];
    var m := Member("a", Basic(INT), 0);
    assert [] + [m] == [m] && ParseMembers([], [m], []) == Ok([m]);
    assert ParseMembers([], [], t[1..]) == Ok([m]);
    assert [] + [Cdt("T", [m])] == ZERO;
  }

  lemma ZeroMember()
    ensures ParseMember([], [], "a,INT,0") == Ok(Member("a", Basic(INT), 0))
  {
    ZeroTokens();
    BaseFound(INT);
    ShortNames();
    ZeroNumber();
    hide Tokens, Strtol0, FindBase, NameCode;
  }

  lemma ZeroNumber()
    ensures Strtol0("0") == 0
  {
    assert Trimmed("0") == "0";
    assert PrefixFrom("0", 8, 0) == PrefixFrom("0"[1..], 8, 0) == 0;
  }

  lemma ShortNames()
    ensures NameCode("T") == 0 && NameCode("a") == 0 && NameCode("U") == 0 && NameCode("t") == 0
  {}

  /** No base type has a name of one letter. */
  lemma NoBase()
    ensures GetType([], "T").None?
  {
    hide FindBase;
    assert forall b: Base :: |BaseName(b)| >= 3;
  }

  lemma ZeroText()
    ensures Typed(ZERO, ZERO[0].members) && |Serialize(ZERO, ZERO[0])| < 100
  {}
}
