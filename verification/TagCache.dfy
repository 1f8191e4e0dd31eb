/** The client's tag cache (src/lib/libdata.c): a circular doubly linked list whose head is the top, and
    in which every hit moves the node found one place up. */
module TagCache {
  import opened Common
  import opened Types

  /** What the client knows about a tag (`dax_tag`). */
  datatype Tag = Tag(name: string, idx: int, typ: TagType, count: nat, attr: nat)

  class Node {
    var tag: Tag
    var next: Node?
    var prev: Node?

    constructor (tag: Tag)
      ensures this.tag == tag && next == this && prev == this
    {
      this.tag := tag;
      next, prev := this, this;
    }
  }

  // ---------------------------------------------------------------- the list seen from the head

  function Swapped<T>(s: seq<T>, k: nat): (r: seq<T>)
    requires 0 < k < |s|
    ensures |r| == |s| && r[k - 1] == s[k] && r[k] == s[k - 1]
    ensures forall i :: 0 <= i < |s| && i != k - 1 && i != k ==> r[i] == s[i]
  {
    s[k - 1 := s[k]][k := s[k - 1]]
  }

  /** A hit at position `k`. */
  function Bubbled<T>(s: seq<T>, k: nat): seq<T>
    requires k < |s|
  {
    if k == 0 then s else Swapped(s, k)
  }

  function Without<T>(s: seq<T>, k: nat): (r: seq<T>)
    requires k < |s|
    ensures |r| == |s| - 1 && forall i :: 0 <= i < |r| ==> r[i] == s[if i < k then i else i + 1]
  {
    s[..k] + s[k + 1..]
  }

  /** The first position whose tag satisfies the search, or the length. */
  function Position(s: seq<Tag>, p: Tag -> bool): (k: nat)
    ensures k <= |s| && (k < |s| ==> p(s[k]))
    ensures forall i :: 0 <= i < k ==> !p(s[i])
  {
    if s == [] || p(s[0]) then 0 else 1 + Position(s[1..], p)
  }

  /** Adding appends while there is room and overwrites the last tag otherwise. */
  function Added(s: seq<Tag>, t: Tag, limit: int): (r: seq<Tag>)
    ensures |r| <= (if |s| < limit then limit else if |s| == 0 then 1 else |s|)
  {
    if s == [] || |s| < limit then s + [t] else s[|s| - 1 := t]
  }

  ghost function TagsOf(nodes: seq<Node>): (s: seq<Tag>)
    reads nodes
    ensures |s| == |nodes| && forall i :: 0 <= i < |nodes| ==> s[i] == nodes[i].tag
  {
    if nodes == [] then [] else [nodes[0].tag] + TagsOf(nodes[1..])
  }

  ghost predicate Distinct(nodes: seq<Node>) {
    forall i, j :: 0 <= i < j < |nodes| ==> nodes[i] != nodes[j]
  }

  lemma TagsSwapped(nodes: seq<Node>, k: nat)
    requires 0 < k < |nodes|
    ensures TagsOf(Swapped(nodes, k)) == Swapped(TagsOf(nodes), k)
  {
    hide TagsOf;
  }

  lemma TagsWithout(nodes: seq<Node>, k: nat)
    requires k < |nodes|
    ensures TagsOf(Without(nodes, k)) == Without(TagsOf(nodes), k)
  {
    hide TagsOf, Without;
  }

  // ---------------------------------------------------------------- the ring

  class Cache {
    var head: Node?
    var count: nat
    const limit: int
    ghost var ring: seq<Node>

    constructor (limit: int)
      ensures Valid() && ring == [] && this.limit == limit
    {
      this.limit := limit;
      head, count, ring := null, 0, [];
    }

    /** The nodes reached from the head by `next` are those of `ring`, and `prev` leads back. */
    ghost predicate Linked(nodes: seq<Node>)
      reads nodes
    {
      && Distinct(nodes)
      && (forall i :: 0 <= i < |nodes| ==> nodes[i].next == nodes[if i + 1 < |nodes| then i + 1 else 0])
      && (forall i :: 0 <= i < |nodes| ==> nodes[i].prev == nodes[if i > 0 then i - 1 else |nodes| - 1])
    }

    ghost predicate Valid()
      reads this, ring
    {
      && Linked(ring)
      && count == |ring|
      && head == (if ring == [] then null else ring[0])
    }

    /** The cached tags from the head on. */
    ghost function Tags(): seq<Tag>
      reads this, ring
    {
      TagsOf(ring)
    }

    /** `_cache_hit` on the node at position `k` */
    method Hit(node: Node, ghost k: nat) returns (tag: Tag)
      requires Valid() && k < |ring| && ring[k] == node
      modifies this, ring
      ensures Valid() && ring == Bubbled(old(ring), k)
      ensures tag == old(Tags())[k] && Tags() == Bubbled(old(Tags()), k)
    {
      hide Linked, Swapped, TagsOf;
      tag := node.tag;
      RingFacts(ring, k);
      if node != head {
        if count == 2 {
          head := head.next;
        } else {
          if node == head.next {
            head := node;
          }
          Exchange(node, ring, k);
        }
        assert Tags() == old(Tags());
        TagsSwapped(ring, k);
        ring := Swapped(ring, k);
      }
    }

    lemma RingFacts(nodes: seq<Node>, k: nat)
      requires Linked(nodes) && k < |nodes|
      ensures nodes[k] == nodes[0] <==> k == 0
      ensures |nodes| > 1 ==> nodes[0].next == nodes[1] && (nodes[k] == nodes[1] <==> k == 1)
      ensures |nodes| == 2 ==> Linked(Swapped(nodes, 1))
    {}

    /** The node at position `k` of a ring of three or more goes in front of its predecessor. */
    method Exchange(node: Node, ghost nodes: seq<Node>, ghost k: nat)
      requires Linked(nodes) && |nodes| >= 3 && 0 < k < |nodes| && nodes[k] == node
      modifies nodes
      ensures Linked(Swapped(nodes, k))
      ensures forall n :: n in nodes ==> n.tag == old(n.tag)
    {
      hide Swapped;
      ghost var n := |nodes|;
      ghost var b := if k >= 2 then k - 2 else n - 1;
      ghost var c := if k + 1 < n then k + 1 else 0;
      assert nodes[k].prev == nodes[k - 1] && nodes[k - 1].prev == nodes[b] && nodes[k].next == nodes[c];
      Relink(node, node.prev, node.prev.prev, node.next);
    }

    /** The assignments of `_cache_hit`; in a ring of three, `before` and `succ` are the same node. */
    method Relink(node: Node, after: Node, before: Node, succ: Node)
      requires node != after && node != before && node != succ && after != before && after != succ
      requires node.next == succ
      modifies node, after, before, succ
      ensures before.next == node && node.next == after && after.next == succ
      ensures node.prev == before && after.prev == node && succ.prev == after
      ensures before != succ ==> before.prev == old(before.prev) && succ.next == old(succ.next)
      ensures node.tag == old(node.tag) && after.tag == old(after.tag)
      ensures before.tag == old(before.tag) && succ.tag == old(succ.tag)
    {
      before.next := node;
      after.prev := node;
      after.next := node.next;
      node.next.prev := after;
      node.next := after;
      node.prev := before;
    }

    /** The search loop of `check_cache_index`, `check_cache_name` and `cache_tag_del`. */
    method FindNode(p: Tag -> bool) returns (node: Node?, ghost k: nat)
      requires Valid()
      ensures k == Position(Tags(), p)
      ensures if k < |ring| then node == ring[k] else node == null
    {
      hide Position;
      if head == null {
        return null, 0;
      }
      node, k := head, 0;
      if !p(head.tag) {
        assert ring[0].next == ring[if |ring| > 1 then 1 else 0];
        node, k := node.next, 1;
        while node != head && !p(node.tag)
          invariant 1 <= k <= |ring| && node == ring[if k < |ring| then k else 0]
          invariant forall i :: 0 <= i < k ==> !p(Tags()[i])
          decreases |ring| - k
        {
          assert k < |ring|;
          assert ring[k].next == ring[if k + 1 < |ring| then k + 1 else 0];
          assert !p(Tags()[k]);
          node := node.next;
          k := k + 1;
        }
        if node == head {
          node := null;
        }
      }
    }

    /** `check_cache_index` and `check_cache_name`: a tag that is found moves up one place. */
    method Check(p: Tag -> bool) returns (found: bool, tag: Tag)
      requires Valid()
      modifies this, ring
      ensures Valid()
      ensures var s := old(Tags()); var k := Position(s, p);
        && found == (k < |s|)
        && (found ==> tag == s[k])
        && Tags() == if found then Bubbled(s, k) else s
      ensures forall i :: 0 <= i < |ring| ==> ring[i] in old(ring)
    {
      hide Linked, Position, Swapped, TagsOf;
      var node, k := FindNode(p);
      if node == null {
        tag := Tag("", 0, Basic(BOOL), 0, 0);
        return false, tag;
      }
      tag := Hit(node, k);
      found := true;
    }

    /** `cache_tag_add` */
    method Add(tag: Tag)
      requires Valid()
      modifies this, ring
      ensures Valid() && Tags() == Added(old(Tags()), tag, limit)
      ensures forall i :: 0 <= i < |ring| ==> ring[i] in old(ring) || fresh(ring[i])
    {
      hide TagsOf;
      var node;
      if head == null {
        node := new Node(tag);
        head := node;
        count := count + 1;
        ring := [node];
      } else if count < limit {
        node := new Node(tag);
        Append(node);
      } else {
        Overwrite(tag);
      }
    }

    /** The last node gets a new tag. */
    method Overwrite(tag: Tag)
      requires Valid() && ring != []
      modifies ring
      ensures Valid() && Tags() == old(Tags())[|ring| - 1 := tag]
    {
      hide TagsOf;
      ghost var last := |ring| - 1;
      assert ring[0].prev == ring[last];
      var node := head.prev;
      assert forall i :: 0 <= i < last ==> ring[i] != node;
      node.tag := tag;
    }

    /** A new node goes between the last one and the head. */
    method Append(node: Node)
      requires Valid() && ring != [] && node !in ring
      modifies this, ring, node
      ensures Valid() && ring == old(ring) + [node]
      ensures Tags() == old(Tags()) + [node.tag] && node.tag == old(node.tag)
    {
      hide TagsOf;
      assert ring[0].prev == ring[|ring| - 1];
      node.next := head;
      node.prev := head.prev;
      head.prev.next := node;
      head.prev := node;
      count := count + 1;
      ring := ring + [node];
    }

    /** `cache_tag_del` */
    method Delete(idx: int) returns (code: int)
      requires Valid()
      modifies this, ring
      ensures Valid()
      ensures var s := old(Tags()); var k := Position(s, (t: Tag) => t.idx == idx);
        if k < |s| then code == 0 && Tags() == Without(s, k) else code == ERR_NOTFOUND && Tags() == s
      ensures forall i :: 0 <= i < |ring| ==> ring[i] in old(ring)
    {
      hide Linked, Position, TagsOf;
      var node, k := FindNode((t: Tag) => t.idx == idx);
      if node == null {
        return ERR_NOTFOUND;
      }
      Unlink(node, k);
      return 0;
    }

    method Unlink(node: Node, ghost k: nat)
      requires Valid() && k < |ring| && ring[k] == node
      modifies this, ring
      ensures Valid() && ring == Without(old(ring), k) && Tags() == Without(old(Tags()), k)
    {
      hide Linked, TagsOf;
      UnlinkFacts(ring, k);
      assert Without(ring, k) == ring[..k] + ring[k + 1..];
      if node.next == node {
        head := null;
      } else {
        Bypass(node, ring, k);
        if head == node {
          head := node.next;
        }
      }
      assert Tags() == old(Tags());
      TagsWithout(ring, k);
      count := count - 1;
      ring := ring[..k] + ring[k + 1..];
    }

    lemma UnlinkFacts(nodes: seq<Node>, k: nat)
      requires Linked(nodes) && k < |nodes|
      ensures nodes[k].next == nodes[if k + 1 < |nodes| then k + 1 else 0]
      ensures nodes[k].next == nodes[k] <==> |nodes| == 1
      ensures nodes[k] == nodes[0] <==> k == 0
      ensures |nodes| == 1 ==> Linked(Without(nodes, k))
    {}

    /** The neighbours of the node at position `k` are joined; the node itself is not touched. */
    method Bypass(node: Node, ghost nodes: seq<Node>, ghost k: nat)
      requires Linked(nodes) && |nodes| >= 2 && k < |nodes| && nodes[k] == node
      modifies nodes
      ensures Linked(Without(nodes, k))
      ensures forall i :: 0 <= i < |nodes| ==> nodes[i].tag == old(nodes[i].tag)
      ensures node.next == old(node.next)
    {
      hide Without;
      ghost var n := |nodes|;
      ghost var a := if k > 0 then k - 1 else n - 1;
      ghost var b := if k + 1 < n then k + 1 else 0;
      assert node.prev == nodes[a] && node.next == nodes[b];
      assert Apart(nodes, a) && Apart(nodes, b);
      hide Distinct;
      node.next.prev := node.prev;
      assert forall i :: 0 <= i < n && i != b ==> nodes[i].prev == nodes[if i > 0 then i - 1 else n - 1];
      node.prev.next := node.next;
      Joined(nodes, k, a, b);
    }

    /** No other node is the one at position `k`. */
    ghost predicate Apart(nodes: seq<Node>, k: nat)
      requires k < |nodes|
    {
      forall i :: 0 <= i < |nodes| && i != k ==> nodes[i] != nodes[k]
    }

    lemma Joined(nodes: seq<Node>, k: nat, a: nat, b: nat)
      requires Distinct(nodes) && |nodes| >= 2 && k < |nodes|
      requires a == (if k > 0 then k - 1 else |nodes| - 1) && b == (if k + 1 < |nodes| then k + 1 else 0)
      requires nodes[a].next == nodes[b] && nodes[b].prev == nodes[a]
      requires forall i :: 0 <= i < |nodes| && i != a ==> nodes[i].next == nodes[if i + 1 < |nodes| then i + 1 else 0]
      requires forall i :: 0 <= i < |nodes| && i != b ==> nodes[i].prev == nodes[if i > 0 then i - 1 else |nodes| - 1]
      ensures Linked(Without(nodes, k))
    {
      hide Without;
    }
  }
}
