/** One client's tag cache and the server's database over whole runs: what a cached tag says about its
    index stays what the server's slot was created with. */
module CacheRuns {
  import opened Common
  import opened Types
  import opened TagBase
  import CdtText
  import TC = TagCache

  /** The server's slots, the name each slot was created with, and the client's cached tags from the head. */
  datatype System = System(slots: seq<Slot>, born: seq<string>, cache: seq<TC.Tag>)

  datatype Action =
    | Server(q: Request)                // any client adds or deletes a tag
    | AddTag(q: Request, attr: nat)     // dax_tag_add by this client
    | ByName(name: string)              // dax_tag_byname
    | ByIndex(idx: int)                 // dax_tag_byindex
    | Forget(idx: int)                  // an access was answered with "deleted"

  function Word(attr: set<Attr>): nat {
    (if ReadOnly in attr then 0x01 else 0) + (if Retain in attr then 0x04 else 0) + (if Owned in attr then 0x20 else 0)
  }

  /** The server's description of a live tag (`tag_get_name`, `tag_get_index`). */
  function Describe(slots: seq<Slot>, i: nat): TC.Tag
    requires i < |slots|
  {
    TC.Tag(slots[i].name, i, slots[i].typ, slots[i].count, Word(slots[i].attr))
  }

  ghost function ServerStep(reg: Registry, s: System, q: Request): (System, int)
    requires Sound(reg)
  {
    var (slots, r) := Step(reg, s.slots, q);
    (s.(slots := slots, born := if |slots| > |s.slots| && q.Add? then s.born + [q.name] else s.born), r)
  }

  function Dropped(cache: seq<TC.Tag>, idx: int): seq<TC.Tag> {
    var k := TC.Position(cache, (t: TC.Tag) => t.idx == idx);
    if k < |cache| then TC.Without(cache, k) else cache
  }

  /** A lookup: a hit moves the tag up, a miss asks the server and adds what it answers. */
  function Looked(cache: seq<TC.Tag>, p: TC.Tag -> bool, answer: Option<TC.Tag>, limit: int): seq<TC.Tag> {
    var k := TC.Position(cache, p);
    if k < |cache| then TC.Bubbled(cache, k)
    else if answer.Some? then TC.Added(cache, answer.value, limit)
    else cache
  }

  ghost function Next(reg: Registry, limit: int, s: System, a: Action): System
    requires Sound(reg)
  {
    match a
    case Server(q) => ServerStep(reg, s, q).0
    case AddTag(q, attr) =>
      var (after, r) := ServerStep(reg, s, q);
      if q.Add? && r >= 0 then
        after.(cache := TC.Added(Dropped(s.cache, r), TC.Tag(q.name, r, q.typ, q.count, attr), limit))
      else after
    case ByName(name) =>
      if name == "" || |name| > CdtText.DAX_TAGNAME_SIZE then s
      else
        var n := Scan(s.slots, name);
        var found := if n >= 0 then Some(Describe(s.slots, n)) else None;
        s.(cache := Looked(s.cache, (t: TC.Tag) => t.name == name, found, limit))
    case ByIndex(idx) =>
      var known := 0 <= idx < |s.slots| && s.slots[idx].Live();
      var found := if known then Some(Describe(s.slots, idx)) else None;
      s.(cache := Looked(s.cache, (t: TC.Tag) => t.idx == idx, found, limit))
    case Forget(idx) => s.(cache := Dropped(s.cache, idx))
  }

  /** A cached tag names its slot and gives its type as they were when the slot was created; it may show fewer elements
      than there are by now, and never more. */
  ghost predicate True(s: System, t: TC.Tag) {
    && 0 <= t.idx < |s.slots| == |s.born| && t.name == s.born[t.idx] && t.typ == s.slots[t.idx].typ
    && t.count <= s.slots[t.idx].count
  }

  ghost predicate Truthful(s: System, limit: int) {
    && |s.born| == |s.slots|
    && (forall i :: 0 <= i < |s.slots| && s.slots[i].Live() ==> s.slots[i].name == s.born[i])
    && (forall t :: t in s.cache ==> True(s, t))
    && |s.cache| <= (if limit > 1 then limit else 1)
  }

  /** Server requests keep old names and types; see `TagBase.StepKeeps`. */
  lemma ServerTruthful(reg: Registry, limit: int, s: System, q: Request)
    requires Sound(reg) && Truthful(s, limit)
    ensures var (after, r) := ServerStep(reg, s, q);
      && Truthful(after, limit)
      && (q.Add? && r >= 0 ==> r < |after.slots| && after.born[r] == q.name && after.slots[r].typ == q.typ)
      && (q.Add? && r >= 0 ==> q.count <= after.slots[r].count)
  {
    var after := ServerStep(reg, s, q).0;
    forall t | t in s.cache ensures True(after, t) {
      assert True(s, t);
      StepKeeps(reg, s.slots, q, t.idx);
    }
    forall i | 0 <= i < |after.slots| && after.slots[i].Live() ensures after.slots[i].name == after.born[i] {
      if i < |s.slots| {
        StepKeeps(reg, s.slots, q, i);
      }
    }
  }

  lemma AddedFrom(cache: seq<TC.Tag>, t: TC.Tag, limit: int, u: TC.Tag)
    requires u in TC.Added(cache, t, limit)
    ensures u in cache || u == t
  {}

  lemma DroppedFrom(cache: seq<TC.Tag>, idx: int, u: TC.Tag)
    requires u in Dropped(cache, idx)
    ensures u in cache && |Dropped(cache, idx)| <= |cache|
  {}

  lemma LookedFrom(cache: seq<TC.Tag>, p: TC.Tag -> bool, answer: Option<TC.Tag>, limit: int, u: TC.Tag)
    requires u in Looked(cache, p, answer, limit)
    ensures u in cache || answer == Some(u)
  {}

  /** Every action keeps every cached tag true and the cache within its limit. */
  lemma NextTruthful(reg: Registry, limit: int, s: System, a: Action)
    requires Sound(reg) && Truthful(s, limit)
    ensures Truthful(Next(reg, limit, s, a), limit)
  {
    hide Sound, Step, TC.Position;
    var after := Next(reg, limit, s, a);
    match a
    case Server(q) =>
      ServerTruthful(reg, limit, s, q);
    case AddTag(q, attr) =>
      ServerTruthful(reg, limit, s, q);
      var (mid, r) := ServerStep(reg, s, q);
      if q.Add? && r >= 0 {
        var t := TC.Tag(q.name, r, q.typ, q.count, attr);
        forall u | u in after.cache ensures True(after, u) {
          AddedFrom(Dropped(s.cache, r), t, limit, u);
          if u != t {
            DroppedFrom(s.cache, r, u);
            assert True(mid, u);
          }
        }
      }
    case ByName(name) =>
      if after != s {
        LookupTruthful(s, after, limit, (t: TC.Tag) => t.name == name, Scan(s.slots, name));
      }
    case ByIndex(idx) =>
      LookupTruthful(s, after, limit, (t: TC.Tag) => t.idx == idx,
                     if 0 <= idx < |s.slots| && s.slots[idx].Live() then idx else -1);
    case Forget(idx) =>
      forall u | u in after.cache ensures True(after, u) {
        DroppedFrom(s.cache, idx, u);
        assert True(s, u);
      }
  }

  lemma LookupTruthful(s: System, after: System, limit: int, p: TC.Tag -> bool, n: int)
    requires Truthful(s, limit) && (n >= 0 ==> n < |s.slots| && s.slots[n].Live())
    requires after == s.(cache := Looked(s.cache, p, if n >= 0 then Some(Describe(s.slots, n)) else None, limit))
    ensures Truthful(after, limit)
  {
    hide TC.Position;
    forall u | u in after.cache ensures True(after, u) {
      LookedFrom(s.cache, p, if n >= 0 then Some(Describe(s.slots, n)) else None, limit, u);
      if u in s.cache {
        assert True(s, u);
      }
    }
  }

  /** What a cached tag says that was fetched from its slot just now. */
  ghost predicate Current(slot: Slot, idx: int, t: TC.Tag) {
    && t.idx == idx && t.name == slot.name && t.typ == slot.typ && t.count == slot.count
    && (t.attr % 2 == 1 <==> ReadOnly in slot.attr)
    && (t.attr / 0x04 % 2 == 1 <==> Retain in slot.attr)
    && (t.attr / 0x20 % 2 == 1 <==> Owned in slot.attr)
  }

  lemma DescribeIs(slots: seq<Slot>, i: nat)
    requires i < |slots|
    ensures Current(slots[i], i, Describe(slots, i))
  {}

  /** A tag that is not in the cache is fetched as it is, by index or by name. */
  lemma FetchedIsCurrent(reg: Registry, limit: int, s: System, idx: nat)
    requires Sound(reg) && idx < |s.slots| && s.slots[idx].Live() && Scan(s.slots, s.slots[idx].name) == idx
    requires 0 < |s.slots[idx].name| <= CdtText.DAX_TAGNAME_SIZE
    requires forall t :: t in s.cache ==> t.idx != idx && t.name != s.slots[idx].name
    ensures exists t :: t in Next(reg, limit, s, ByIndex(idx)).cache && Current(s.slots[idx], idx, t)
    ensures exists t :: t in Next(reg, limit, s, ByName(s.slots[idx].name)).cache && Current(s.slots[idx], idx, t)
  {
    var name, t := s.slots[idx].name, Describe(s.slots, idx);
    DescribeIs(s.slots, idx);
    AddedIn(s.cache, t, limit);
    hide Scan, Current, Describe, TC.Added;
    assert TC.Position(s.cache, (t: TC.Tag) => t.idx == idx) == |s.cache|;
    assert TC.Position(s.cache, (t: TC.Tag) => t.name == name) == |s.cache|;
  }

  lemma AddedIn(cache: seq<TC.Tag>, t: TC.Tag, limit: int)
    ensures t in TC.Added(cache, t, limit)
  {
    var r := TC.Added(cache, t, limit);
    assert r[|r| - 1] == t;
  }

  ghost function Run(reg: Registry, limit: int, s: System, actions: seq<Action>): System
    requires Sound(reg)
    decreases |actions|
  {
    if actions == [] then s else Run(reg, limit, Next(reg, limit, s, actions[0]), actions[1..])
  }

  /** From an empty start, over any run: whatever the cache shows for an index is what the server's slot
      of that index was created with, even after the tag is deleted and its name used again. */
  lemma {:induction false} AlwaysTruthful(reg: Registry, limit: int, s: System, actions: seq<Action>)
    requires Sound(reg) && Truthful(s, limit)
    ensures Truthful(Run(reg, limit, s, actions), limit)
    decreases |actions|
  {
    if actions != [] {
      NextTruthful(reg, limit, s, actions[0]);
      AlwaysTruthful(reg, limit, Next(reg, limit, s, actions[0]), actions[1..]);
    }
  }

  // ---------------------------------------------------------------- the objects

  /** The client's cache and the server's database, seen as one system. */
  ghost function Seen(db: Database, cache: TC.Cache, born: seq<string>): System
    reads db, cache, cache.ring
  {
    System(db.slots, born, cache.Tags())
  }

  /** A request at the server. */
  method Serve(reg: Registry, db: Database, q: Request) returns (r: int)
    requires Sound(reg) && db.Valid()
    modifies db
    ensures db.Valid() && (db.slots, r) == Step(reg, old(db.slots), q)
  {
    hide Sound, Step;
    match q {
      case Add(fd, name, typ, count, attr, junk) => r := db.TagAdd(reg, fd, name, typ, count, attr, junk);
      case Del(idx) => r := db.TagDel(reg, idx);
    }
  }

  /** A lookup that misses the cache asks the server. */
  method Lookup(db: Database, cache: TC.Cache, p: TC.Tag -> bool, n: int)
    requires db.Valid() && cache.Valid() && n < |db.slots|
    modifies cache, cache.ring
    ensures cache.Valid()
    ensures forall i :: 0 <= i < |cache.ring| ==> cache.ring[i] in old(cache.ring) || fresh(cache.ring[i])
    ensures cache.Tags() ==
      Looked(old(cache.Tags()), p, if n >= 0 then Some(Describe(db.slots, n)) else None, cache.limit)
  {
    hide TC.Position, TC.Bubbled, TC.Added, TC.Cache.Tags, TC.Cache.Linked;
    var found, tag := cache.Check(p);
    if !found && n >= 0 {
      cache.Add(Describe(db.slots, n));
    }
  }

  /** One action, carried out on the objects; `born` grows with the slots. */
  method Act(reg: Registry, db: Database, cache: TC.Cache, a: Action, ghost born: seq<string>)
    returns (ghost after: seq<string>)
    requires Sound(reg) && db.Valid() && cache.Valid()
    modifies db, cache, cache.ring
    ensures db.Valid() && cache.Valid()
    ensures forall i :: 0 <= i < |cache.ring| ==> cache.ring[i] in old(cache.ring) || fresh(cache.ring[i])
    ensures Seen(db, cache, after) == Next(reg, cache.limit, old(Seen(db, cache, born)), a)
  {
    hide Sound, Step, Scan, TC.Position, TC.Added, Looked, TC.Cache.Tags, TC.Cache.Linked, Database.Valid;
    after := born;
    match a {
      case Server(q) =>
        var r := Serve(reg, db, q);
        after := ServerStep(reg, old(Seen(db, cache, born)), q).0.born;
      case AddTag(q, attr) =>
        var r := Serve(reg, db, q);
        after := ServerStep(reg, old(Seen(db, cache, born)), q).0.born;
        if q.Add? && r >= 0 {
          var code := cache.Delete(r);
          cache.Add(TC.Tag(q.name, r, q.typ, q.count, attr));
        }
      case ByName(name) =>
        if name != "" && |name| <= CdtText.DAX_TAGNAME_SIZE {
          var n := db.GetByName(name);
          ScanBound(db.slots, name);
          Lookup(db, cache, (t: TC.Tag) => t.name == name, n);
        }
      case ByIndex(idx) =>
        var known := 0 <= idx < |db.slots| && db.slots[idx].data.Some?;
        Lookup(db, cache, (t: TC.Tag) => t.idx == idx, if known then idx else -1);
      case Forget(idx) =>
        var code := cache.Delete(idx);
    }
  }

  lemma ScanBound(slots: seq<Slot>, name: string)
    ensures Scan(slots, name) < |slots|
  {}

  /** Any sequence of actions on the objects is a run of the system. */
  method Session(reg: Registry, db: Database, cache: TC.Cache, actions: seq<Action>, ghost born: seq<string>)
    returns (ghost after: seq<string>)
    requires Sound(reg) && db.Valid() && cache.Valid()
    modifies db, cache, cache.ring
    ensures db.Valid() && cache.Valid()
    ensures forall i :: 0 <= i < |cache.ring| ==> cache.ring[i] in old(cache.ring) || fresh(cache.ring[i])
    ensures Seen(db, cache, after) == Run(reg, cache.limit, old(Seen(db, cache, born)), actions)
    decreases |actions|
  {
    hide Sound, Next, Seen, Database.Valid, TC.Cache.Valid;
    if actions == [] {
      return born;
    }
    ghost var mid := Act(reg, db, cache, actions[0], born);
    after := Session(reg, db, cache, actions[1..], mid);
  }
}
