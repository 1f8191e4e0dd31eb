/** Queue tags (src/server/virtualtag.c): a ring of pointers to blocks that doubles when it is full. */
module TagQueue {
  import opened Common
  import opened Bits

  const START_QUEUE_SIZE := 16

  /** The slot of item `j`, counted from the next one to be read, in a ring of `n` slots. */
  function Slot(read: nat, j: nat, n: nat): (k: nat)
    requires read < n && j <= n
    ensures k < n
  {
    if read + j < n then read + j else read + j - n
  }

  lemma SlotIsMod(read: nat, j: nat, n: nat)
    requires read < n && j <= n
    ensures (read + j) % n == Slot(read, j, n)
  {
    if read + j < n {
      SmallMod(read + j, n);
    } else {
      SmallMod(read + j - n, n);
      AddMod(read + j - n, n);
    }
  }

  lemma SmallMod(x: nat, n: nat)
    requires x < n
    ensures x % n == x
  {}

  lemma AddMod(x: nat, n: nat)
    requires 0 < n
    ensures (x + n) % n == x % n
  {
    var q, r := x / n, x % n;
    assert x + n == n * (q + 1) + r;
    Unique(x + n, n, q + 1, r);
  }

  lemma Unique(x: nat, n: nat, q: nat, r: nat)
    requires 0 < n && r < n && x == n * q + r
    ensures x % n == r
  {
    var d := x / n - q;
    assert n * d == r - x % n;
    AtLeastOne(n, d);
  }

  lemma AtLeastOne(n: int, d: int)
    requires n >= 0
    ensures d > 0 ==> n * d >= n
    ensures d < 0 ==> n * d <= -n
  {}

  // ---------------------------------------------------------------- the ring of pointers

  /** The block of item `j`; item `count` is the place of the next write. */
  function Block(queue: seq<array?<byte>>, read: nat, j: nat): array?<byte>
    requires read < |queue| && j <= |queue|
  {
    queue[Slot(read, j, |queue|)]
  }

  /** Every stored item has a block. */
  ghost predicate Ring(queue: seq<array?<byte>>, read: nat, count: nat, size: nat) {
    && read < |queue| && count <= |queue|
    && (forall k :: 0 <= k < |queue| ==> var b := queue[k]; b != null ==> b.Length == size)
    && (forall j :: 0 <= j < count ==> Block(queue, read, j) != null)
  }

  lemma HasBlocks(queue: seq<array?<byte>>, read: nat, count: nat, size: nat)
    requires Ring(queue, read, count, size)
    ensures read < |queue| && count <= |queue| && forall j :: 0 <= j < count ==> Block(queue, read, j) != null
  {}

  /** No block is in two slots. */
  ghost predicate Alone(queue: seq<array?<byte>>) {
    forall k, l :: 0 <= k < l < |queue| && queue[k] != null ==> queue[k] != queue[l]
  }

  lemma AfterRead(queue: seq<array?<byte>>, read: nat, count: nat, size: nat)
    requires Ring(queue, read, count, size) && count > 0
    ensures read < |queue| && count <= |queue|
    ensures queue[read] != null && Block(queue, read, 0) == queue[read]
    ensures var next := Slot(read, 1, |queue|);
      && Ring(queue, next, count - 1, size)
      && forall j :: 0 <= j < count - 1 ==> Block(queue, next, j) == Block(queue, read, j + 1)
  {
    assert Block(queue, read, 0) != null;
    var next := Slot(read, 1, |queue|);
    forall j | 0 <= j < count - 1 ensures Block(queue, next, j) == Block(queue, read, j + 1) {}
  }

  /** The doubled ring: the slots before the next read are copied behind the old ones, and stay where they
      were as well. */
  function Doubled(queue: seq<array?<byte>>, read: nat): (r: seq<array?<byte>>)
    requires read < |queue|
    ensures |r| == 2 * |queue|
  {
    queue + queue[..read] + seq(|queue| - read, _ => null)
  }

  lemma AfterGrowth(queue: seq<array?<byte>>, read: nat, size: nat)
    requires Ring(queue, read, |queue|, size)
    ensures var grown := Doubled(queue, read);
      && Ring(grown, read, |queue|, size) && Block(grown, read, |queue|) == null
      && (forall j :: 0 <= j < |queue| ==> Block(grown, read, j) == Block(queue, read, j))
      && (Alone(queue) && read == 0 ==> Alone(grown))
  {
    var grown := Doubled(queue, read);
    forall j | 0 <= j < |queue| ensures Block(grown, read, j) == Block(queue, read, j) {
      assert grown[read + j] == queue[Slot(read, j, |queue|)];
    }
  }

  /** The slot of the next write now holds `block`. */
  lemma AfterWrite(queue: seq<array?<byte>>, read: nat, count: nat, size: nat, block: array<byte>)
    requires Ring(queue, read, count, size) && count < |queue| && block.Length == size
    ensures var next := queue[Slot(read, count, |queue|) := block];
      && Ring(next, read, count + 1, size) && Block(next, read, count) == block
      && forall j :: 0 <= j < count ==> Block(next, read, j) == Block(queue, read, j)
  {
    var next := queue[Slot(read, count, |queue|) := block];
    forall j | 0 <= j < count ensures Block(next, read, j) == Block(queue, read, j) {
      assert Slot(read, j, |queue|) != Slot(read, count, |queue|);
    }
  }

  // ---------------------------------------------------------------- the queue

  /** `tag_queue`: `queue` holds pointers to blocks of `size` bytes, or null. */
  class TagQueue {
    const size: nat
    var queue: seq<array?<byte>>
    var read: nat
    var count: nat

    ghost predicate Valid()
      reads this
    {
      Ring(queue, read, count, size)
    }

    ghost function Blocks(): set<object>
      reads this`queue
    {
      set k | 0 <= k < |queue| && queue[k] != null :: queue[k]
    }

    ghost function Item(j: nat): seq<byte>
      requires Valid() && j < count
      reads this, Blocks()
    {
      Block(queue, read, j)[..]
    }

    /** The stored items, oldest first. */
    ghost function Contents(): (items: seq<seq<byte>>)
      requires Valid()
      reads this, Blocks()
      ensures |items| == count && forall j :: 0 <= j < count ==> items[j] == Item(j)
    {
      Items(count)
    }

    ghost function Items(n: nat): (items: seq<seq<byte>>)
      requires Valid() && n <= count
      reads this, Blocks()
      ensures |items| == n && forall j :: 0 <= j < n ==> items[j] == Item(j)
    {
      if n == 0 then [] else Items(n - 1) + [Item(n - 1)]
    }

    /** The next write would land in the block of a stored item that is different. */
    ghost predicate Clobbers(data: seq<byte>)
      requires Valid()
      reads this, Blocks()
    {
      && count < |queue|
      && exists j :: 0 <= j < count && Block(queue, read, j) == Block(queue, read, count) && Item(j) != data
    }

    /** `_queue_add` */
    constructor (size: nat)
      ensures Valid() && Alone(queue) && Contents() == [] && this.size == size
      ensures queue == seq(START_QUEUE_SIZE, _ => null) && read == 0 && count == 0 && Blocks() == {}
    {
      this.size := size;
      queue := seq(START_QUEUE_SIZE, _ => null);
      read := 0;
      count := 0;
    }

    /** `read_queue` */
    method Read() returns (err: int, data: seq<byte>)
      requires Valid()
      modifies this`read, this`count
      ensures Valid()
      ensures err == if old(count) == 0 then ERR_EMPTY else 0
      ensures err != 0 ==> count == 0 && read == old(read)
      ensures err == 0 ==> read == Slot(old(read), 1, |queue|) && count == old(count) - 1
      ensures err == 0 ==> data == old(Contents())[0] && Contents() == old(Contents())[1..]
    {
      if count == 0 {
        return ERR_EMPTY, [];
      }
      ghost var was := Contents();
      assert Slot(read, 1, |queue|) == if read + 1 == |queue| then 0 else read + 1;
      hide Ring, Slot, Block, Items, Contents;
      AfterRead(queue, read, count, size);
      assert was[0] == Item(0);
      err, data := 0, queue[read][..];
      read := read + 1;
      if read == |queue| {
        read := 0;
      }
      count := count - 1;
      forall j | 0 <= j < count ensures Item(j) == was[j + 1] {}
      assert Contents() == was[1..];
    }

    /** The doubling in `write_queue`. */
    method Grow()
      requires Valid() && count == |queue|
      modifies this`queue
      ensures Valid() && Contents() == old(Contents()) && Blocks() == old(Blocks())
      ensures queue == Doubled(old(queue), read) && Block(queue, read, count) == null
      ensures Alone(old(queue)) && read == 0 ==> Alone(queue)
    {
      ghost var was := Contents();
      AfterGrowth(queue, read, size);
      ghost var before := queue;
      queue := Doubled(queue, read);
      assert Contents() == was;
      SameBlocks(before, queue, read);
    }

    /** `write_queue`: the item goes to the end of the queue, exactly unless it lands in a stored one. */
    method Write(offset: nat, data: seq<byte>) returns (err: int)
      requires Valid()
      modifies this`queue, this`count, Blocks()
      ensures Valid() && read == old(read) && fresh(Blocks() - old(Blocks()))
      ensures err == if offset != 0 || |data| != size then ERR_ILLEGAL else 0
      ensures err != 0 ==> queue == old(queue) && count == old(count) && Contents() == old(Contents())
      ensures err == 0 ==>
        && count == old(count) + 1
        && |queue| == if old(count == |queue|) then 2 * old(|queue|) else old(|queue|)
      ensures err == 0 ==> Extends(old(queue), old(count), queue, read)
      ensures err == 0 && old(count) < old(|queue|) ==> Lands(old(Contents()), Contents(), old(queue), read, data)
      ensures err == 0 ==> (Contents() == old(Contents()) + [data] <==> !old(Clobbers(data)))
      ensures Alone(old(queue)) && (old(count) < old(|queue|) || read == 0) ==> Alone(queue)
    {
      if offset != 0 || |data| != size {
        return ERR_ILLEGAL;
      }
      hide Alone, Ring, Items, Contents;
      if count == |queue| {
        Grow();
      }
      Append(data);
      err := 0;
    }

    /** The rest of `write_queue`, when there is room. */
    method Append(data: seq<byte>)
      requires Valid() && count < |queue| && |data| == size
      modifies this`queue, this`count, Blocks()
      ensures Valid() && read == old(read) && fresh(Blocks() - old(Blocks()))
      ensures count == old(count) + 1 && Extends(old(queue), old(count), queue, read)
      ensures Lands(old(Contents()), Contents(), old(queue), read, data)
      ensures Contents() == old(Contents()) + [data] <==> !old(Clobbers(data))
      ensures Alone(old(queue)) ==> Alone(queue)
    {
      ghost var items, clobbers := Contents(), Clobbers(data);
      hide Ring, Alone, Slot, Block, Items, Contents, Blocks;
      Put(data);
      Appended(items, Contents(), data);
    }

    method Put(data: seq<byte>)
      requires Valid() && count < |queue| && |data| == size
      modifies this`queue, this`count, Blocks()
      ensures Valid() && read == old(read) && fresh(Blocks() - old(Blocks()))
      ensures count == old(count) + 1 && Extends(old(queue), old(count), queue, read)
      ensures Lands(old(Contents()), Contents(), old(queue), read, data)
      ensures Alone(old(queue)) ==> Alone(queue)
    {
      HasBlocks(queue, read, count, size);
      hide Ring, Alone, Slot, Block, Items, Contents, Blocks;
      var b := Claim();
      Store(b, data);
    }

    /** The data goes into its block, and so into every item that shares it. */
    method Store(b: array<byte>, data: seq<byte>)
      requires Valid() && count < |queue| && Ring(queue, read, count + 1, size)
      requires Block(queue, read, count) == b && b.Length == size == |data|
      modifies this`count, b
      ensures Valid() && count == old(count) + 1 && b[..] == data
      ensures Contents()[old(count)] == data
      ensures forall j :: 0 <= j < old(count) ==>
        Contents()[j] == if Block(queue, read, j) == b then data else old(Contents())[j]
    {
      ghost var items := Contents();
      HasBlocks(queue, read, count, size);
      hide Ring, Slot, Block, Items, Contents;
      label L:
      Fill(b, data);
      count := count + 1;
      forall j | 0 <= j < count - 1 ensures Item(j) == if Block(queue, read, j) == b then data else items[j] {
        assert Block(queue, read, j) != b ==> unchanged@L(Block(queue, read, j));
      }
      assert Item(count - 1) == data;
    }

    /** The block for the next write is allocated when there is none. */
    method Claim() returns (b: array<byte>)
      requires Valid() && count < |queue|
      modifies this`queue
      ensures Extends(old(queue), count, queue, read) && |queue| == old(|queue|)
      ensures b == old(Block(queue, read, count)) || (fresh(b) && old(Block(queue, read, count)) == null)
      ensures b.Length == size && (b in old(Blocks()) || fresh(b)) && fresh(Blocks() - old(Blocks()))
      ensures Ring(queue, read, count + 1, size) && Valid() && Block(queue, read, count) == b
      ensures Contents() == old(Contents())
      ensures forall j :: 0 <= j < count ==> Block(queue, read, j) == old(Block(queue, read, j))
      ensures Alone(old(queue)) ==> Alone(queue)
    {
      SlotIsMod(read, count, |queue|);
      var next := (read + count) % |queue|;
      if queue[next] == null {
        b := new byte[size];
        queue := queue[next := b];
      } else {
        b := queue[next];
      }
      AfterWrite(old(queue), read, count, size, b);
      assert old(queue)[next := b] == queue;
    }
  }

  /** `memcpy` of the data into its block. */
  method Fill(b: array<byte>, data: seq<byte>)
    requires b.Length == |data|
    modifies b
    ensures b[..] == data
  {
    for k := 0 to |data|
      invariant b[..k] == data[..k]
    {
      b[k] := data[k];
    }
  }

  lemma Appended(items: seq<seq<byte>>, now: seq<seq<byte>>, data: seq<byte>)
    requires |now| == |items| + 1 && now[|items|] == data
    ensures now == items + [data] <==> forall j :: 0 <= j < |items| ==> now[j] == items[j]
  {
    if now == items + [data] {
      forall j | 0 <= j < |items| ensures now[j] == items[j] {
        assert (items + [data])[j] == items[j];
      }
    }
  }

  /** The data is the newest item, and has come into every item whose block was in the slot written. */
  ghost predicate Lands(before: seq<seq<byte>>, after: seq<seq<byte>>, queue: seq<array?<byte>>, read: nat,
                        data: seq<byte>)
    requires read < |queue| && |before| <= |queue|
  {
    && |after| == |before| + 1 && after[|before|] == data
    && forall j :: 0 <= j < |before| ==>
         after[j] == if Block(queue, read, j) == Block(queue, read, |before|) then data else before[j]
  }

  /** The pointers after a write: doubled when the ring was full, and a block in the slot written. */
  ghost predicate Extends(before: seq<array?<byte>>, count: nat, after: seq<array?<byte>>, read: nat)
    requires read < |before| && count <= |before|
  {
    var base := if count == |before| then Doubled(before, read) else before;
    && |after| == |base| && after == base[Slot(read, count, |base|) := Block(after, read, count)]
    && Block(after, read, count) != null
  }

  // ---------------------------------------------------------------- runs

  datatype Op = Write(data: seq<byte>) | Read

  /** The ring without its data. */
  datatype Shape = Shape(read: nat, count: nat, slots: nat) {
    function Next(op: Op, size: nat): Shape
      requires read < slots && count <= slots
    {
      match op
      case Write(data) =>
        if |data| != size then this
        else Shape(read, count + 1, if count == slots then 2 * slots else slots)
      case Read => if count == 0 then this else Shape(Slot(read, 1, slots), count - 1, slots)
    }
  }

  /** Whenever the ring has to grow during the run, the next item to be read is in its first slot. */
  predicate Calm(s: Shape, ops: seq<Op>, size: nat)
    requires s.read < s.slots && s.count <= s.slots
    decreases |ops|
  {
    ops == [] ||
    (&& (ops[0].Write? && |ops[0].data| == size && s.count == s.slots ==> s.read == 0)
     && Calm(s.Next(ops[0], size), ops[1..], size))
  }

  /** The items that a run puts in. */
  function Accepted(ops: seq<Op>, size: nat): seq<seq<byte>> {
    if ops == [] then [] else Put(ops[0], size) + Accepted(ops[1..], size)
  }

  function Put(op: Op, size: nat): seq<seq<byte>> {
    if op.Write? && |op.data| == size then [op.data] else []
  }

  /** One operation of a run. */
  method Perform(q: TagQueue, op: Op) returns (taken: seq<seq<byte>>)
    requires q.Valid() && Alone(q.queue)
    requires op.Write? && |op.data| == q.size && q.count == |q.queue| ==> q.read == 0
    modifies q, q.Blocks()
    ensures q.Valid() && Alone(q.queue) && fresh(q.Blocks() - old(q.Blocks()))
    ensures Shape(q.read, q.count, |q.queue|) == old(Shape(q.read, q.count, |q.queue|)).Next(op, q.size)
    ensures taken + q.Contents() == old(q.Contents()) + Put(op, q.size)
  {
    hide Ring, Alone, TagQueue.Items, TagQueue.Contents, TagQueue.Blocks, Shape.Next;
    match op {
      case Write(data) =>
        PerformWrite(q, data);
        taken := [];
        assert [] + q.Contents() == q.Contents();
      case Read =>
        taken := PerformRead(q);
        assert old(q.Contents()) + [] == old(q.Contents());
    }
  }

  method PerformWrite(q: TagQueue, data: seq<byte>)
    requires q.Valid() && Alone(q.queue)
    requires |data| == q.size && q.count == |q.queue| ==> q.read == 0
    modifies q, q.Blocks()
    ensures q.Valid() && Alone(q.queue) && fresh(q.Blocks() - old(q.Blocks()))
    ensures Shape(q.read, q.count, |q.queue|) == old(Shape(q.read, q.count, |q.queue|)).Next(Write(data), q.size)
    ensures q.Contents() == old(q.Contents()) + Put(Write(data), q.size)
  {
    NeverClobbers(q, data);
    hide Alone, Slot, Extends, TagQueue.Items, TagQueue.Contents, TagQueue.Clobbers, TagQueue.Blocks;
    var err := q.Write(0, data);
    assert err != 0 ==> q.Contents() == old(q.Contents()) + [];
  }

  method PerformRead(q: TagQueue) returns (taken: seq<seq<byte>>)
    requires q.Valid() && Alone(q.queue)
    modifies q`read, q`count
    ensures q.Valid()
    ensures Shape(q.read, q.count, |q.queue|) == old(Shape(q.read, q.count, |q.queue|)).Next(Read, q.size)
    ensures taken + q.Contents() == old(q.Contents())
  {
    hide Alone, Slot, TagQueue.Items, TagQueue.Contents, TagQueue.Blocks;
    ghost var items := q.Contents();
    var err, data := q.Read();
    taken := if err == 0 then [data] else [];
    if err == 0 {
      assert items == [data] + items[1..];
    } else {
      assert items == [] && q.Contents() == [];
    }
  }

  /** First in, first out over every calm run: what was read and what is still stored is what was written. */
  method Drive(q: TagQueue, ops: seq<Op>) returns (taken: seq<seq<byte>>)
    requires q.Valid() && Alone(q.queue) && Calm(Shape(q.read, q.count, |q.queue|), ops, q.size)
    modifies q, q.Blocks()
    ensures q.Valid() && Alone(q.queue) && fresh(q.Blocks() - old(q.Blocks()))
    ensures taken + q.Contents() == old(q.Contents()) + Accepted(ops, q.size)
    decreases |ops|
  {
    if ops == [] {
      return [];
    }
    hide Alone, Slot, TagQueue.Items, TagQueue.Contents;
    ghost var items := q.Contents();
    var first := Perform(q, ops[0]);
    ghost var now := q.Contents();
    var rest := Drive(q, ops[1..]);
    taken := first + rest;
    Joined(items, now, q.Contents(), first, rest, Put(ops[0], q.size), Accepted(ops[1..], q.size));
  }

  lemma Joined(a: seq<seq<byte>>, b: seq<seq<byte>>, c: seq<seq<byte>>, t: seq<seq<byte>>, u: seq<seq<byte>>,
               p: seq<seq<byte>>, r: seq<seq<byte>>)
    requires t + b == a + p && u + c == b + r
    ensures (t + u) + c == a + (p + r)
  {
    assert (t + u) + c == t + (u + c);
    assert t + (b + r) == (t + b) + r;
    assert (a + p) + r == a + (p + r);
  }

  /** Without shared blocks no write can land in a stored item. */
  lemma NeverClobbers(q: TagQueue, data: seq<byte>)
    requires q.Valid() && Alone(q.queue)
    ensures !q.Clobbers(data)
  {
    if q.count < |q.queue| {
      forall j | 0 <= j < q.count ensures Block(q.queue, q.read, j) != Block(q.queue, q.read, q.count) {
        assert Slot(q.read, j, |q.queue|) != Slot(q.read, q.count, |q.queue|);
      }
    }
  }

  // ---------------------------------------------------------------- growth at another slot

  /** After a ring of `n` slots has grown with the oldest item in slot `read`, slots 0 and `n` hold one block; slot `n`
      is in use and the slots from `k` on are still empty. */
  ghost predicate Shared(q: TagQueue, n: nat, k: nat)
    requires q.Valid()
    reads q
  {
    && |q.queue| == 2 * n && 0 < q.read < n && n + q.read < k <= 2 * n && q.count == k - q.read
    && q.queue[0] != null && q.queue[n] == q.queue[0] && forall l :: k <= l < 2 * n ==> q.queue[l] == null
  }

  /** After some writes there are as many items as there should be, but the last of them has replaced item `k`. */
  ghost predicate Overtakes(before: seq<seq<byte>>, ops: seq<Op>, after: seq<seq<byte>>, size: nat, k: nat) {
    var fifo := before + Accepted(ops, size);
    && ops != [] && (forall i :: 0 <= i < |ops| ==> ops[i].Write? && |ops[i].data| == size)
    && |after| == |fifo| > k && after[k] == ops[|ops| - 1].data != fifo[k]
    && forall j :: 0 <= j < |fifo| ==> after[j] == fifo[j] || after[j] == ops[|ops| - 1].data
  }

  /** Growth with the oldest item anywhere but in the first slot is followed by a run that is not first in, first
      out: once the new slots are filled, the next item replaces one that is still stored. */
  method Breaks(q: TagQueue) returns (ops: seq<Op>)
    requires q.Valid() && q.count == |q.queue| && q.read > 0 && q.size > 0
    modifies q, q.Blocks()
    ensures q.Valid() && Overtakes(old(q.Contents()), ops, q.Contents(), q.size, old(|q.queue|) - old(q.read))
  {
    hide Ring, TagQueue.Items, TagQueue.Contents, TagQueue.Clobbers, TagQueue.Blocks, Shared, Copies, Accepted, Lands,
      Overtakes;
    var n, data := |q.queue|, seq(q.size, _ => 0 as byte);
    ghost var was, r := q.Contents(), q.read;
    var m := Crowd(q, data);
    SharesFirst(q, n);
    var last := Other(q.queue[n][..]);
    ghost var items, queue := q.Contents(), q.queue;
    var err := q.Write(0, last);
    ops := Copies(m, Op.Write(data)) + [Op.Write(last)];
    AcceptedCopies(m, data, last, q.size);
    Associates(was, Copies(m, data), [last]);
    Concludes(was, ops, items, q.Contents(), queue, r, last, q.size, n - r);
  }

  lemma Concludes(was: seq<seq<byte>>, ops: seq<Op>, items: seq<seq<byte>>, now: seq<seq<byte>>,
                  queue: seq<array?<byte>>, read: nat, last: seq<byte>, size: nat, k: nat)
    requires was + Accepted(ops, size) == items + [last] && k < |items| < |queue| && read < |queue|
    requires ops != [] && ops[|ops| - 1] == Op.Write(last)
    requires forall i :: 0 <= i < |ops| ==> ops[i].Write? && |ops[i].data| == size
    requires Lands(items, now, queue, read, last) && Block(queue, read, k) == Block(queue, read, |items|)
    requires items[k] != last
    ensures Overtakes(was, ops, now, size, k)
  {
    hide Accepted, Block;
  }

  lemma Associates<T>(a: seq<T>, b: seq<T>, c: seq<T>)
    ensures a + (b + c) == a + b + c
  {}

  /** All slots that growth has added are filled. */
  method Crowd(q: TagQueue, data: seq<byte>) returns (m: nat)
    requires q.Valid() && |data| == q.size && q.count == |q.queue| && q.read > 0
    modifies q, q.Blocks()
    ensures q.Valid() && Shared(q, old(|q.queue|), 2 * old(|q.queue|)) && fresh(q.Blocks() - old(q.Blocks()))
    ensures q.read == old(q.read) && q.Contents() == old(q.Contents()) + Copies(m, data)
  {
    hide Ring, TagQueue.Items, TagQueue.Contents, Shared, Copies;
    var n := |q.queue|;
    ghost var was := q.Contents();
    Double(q, data);
    m := FillUp(q, n, data);
    assert [data] + Copies(m - 1, data) == Copies(m, data);
    Associates(was, [data], Copies(m - 1, data));
  }

  function Other(data: seq<byte>): (r: seq<byte>)
    requires data != []
    ensures |r| == |data| && r != data
  {
    var r := data[0 := if data[0] == 0 then 1 else 0];
    assert r[0] != data[0];
    r
  }

  /** Slot `n` belongs to a stored item, and its block is in the slot of the next write as well. */
  lemma SharesFirst(q: TagQueue, n: nat)
    requires q.Valid() && Shared(q, n, 2 * n)
    ensures |q.queue| == 2 * n && q.read < n && n - q.read < q.count < |q.queue| && q.queue[n] != null
    ensures q.queue[n].Length == q.size && q.Contents()[n - q.read] == q.queue[n][..]
    ensures Block(q.queue, q.read, n - q.read) == Block(q.queue, q.read, q.count)
  {
    assert Block(q.queue, q.read, n - q.read) == q.queue[n];
    assert Block(q.queue, q.read, q.count) == q.queue[0];
    assert q.Contents()[n - q.read] == q.Item(n - q.read);
  }

  lemma {:induction false} AcceptedCopies(m: nat, data: seq<byte>, last: seq<byte>, size: nat)
    requires |data| == |last| == size
    ensures Accepted(Copies(m, Op.Write(data)) + [Op.Write(last)], size) == Copies(m, data) + [last]
  {
    var ops := Copies(m, Op.Write(data)) + [Op.Write(last)];
    if m == 0 {
      assert ops[1..] == [];
    } else {
      assert ops[1..] == Copies(m - 1, Op.Write(data)) + [Op.Write(last)];
      AcceptedCopies(m - 1, data, last, size);
      assert Copies(m, data) == [data] + Copies(m - 1, data);
    }
  }

  /** The write that makes the ring grow. */
  method Double(q: TagQueue, data: seq<byte>)
    requires q.Valid() && |data| == q.size && q.count == |q.queue| && q.read > 0
    modifies q, q.Blocks()
    ensures q.Valid() && q.read == old(q.read) && Shared(q, old(|q.queue|), old(|q.queue|) + q.read + 1)
    ensures fresh(q.Blocks() - old(q.Blocks())) && q.Contents() == old(q.Contents()) + [data]
  {
    ghost var was, r := q.queue, q.read;
    assert Block(was, r, |was| - r) == was[0] && was[0] != null;
    hide Ring, Alone, TagQueue.Items, TagQueue.Contents, TagQueue.Blocks;
    var err := q.Write(0, data);
    assert q.queue == Doubled(was, r)[|was| + r := q.queue[|was| + r]];
  }

  /** More items go to the slots that are still empty; `m` counts the one that made the ring grow. */
  method FillUp(q: TagQueue, n: nat, data: seq<byte>) returns (m: nat)
    requires q.Valid() && Shared(q, n, n + q.read + 1) && |data| == q.size
    modifies q, q.Blocks()
    ensures q.Valid() && Shared(q, n, 2 * n) && q.read == old(q.read) && m > 0
    ensures fresh(q.Blocks() - old(q.Blocks())) && q.Contents() == old(q.Contents()) + Copies(m - 1, data)
  {
    hide Ring, TagQueue.Items, TagQueue.Contents, Copies;
    m := 1;
    ghost var was := q.Contents();
    assert was + Copies(0, data) == was;
    while m < n - q.read
      invariant 1 <= m <= n - q.read && q.read == old(q.read)
      invariant q.Valid() && Shared(q, n, n + q.read + m) && fresh(q.Blocks() - old(q.Blocks()))
      invariant q.Contents() == was + Copies(m - 1, data)
    {
      FillOne(q, n, n + q.read + m, data);
      assert Copies(m, data) == Copies(m - 1, data) + [data];
      m := m + 1;
    }
  }

  method FillOne(q: TagQueue, n: nat, k: nat, data: seq<byte>)
    requires q.Valid() && Shared(q, n, k) && k < 2 * n && |data| == q.size
    modifies q, q.Blocks()
    ensures q.Valid() && Shared(q, n, k + 1) && q.read == old(q.read)
    ensures fresh(q.Blocks() - old(q.Blocks())) && q.Contents() == old(q.Contents()) + [data]
  {
    assert Block(q.queue, q.read, q.count) == null;
    hide Ring, Alone, TagQueue.Items, TagQueue.Contents, TagQueue.Blocks;
    ghost var was := q.queue;
    var err := q.Write(0, data);
    assert q.queue == was[k := q.queue[k]];
  }

  /** A run that is not first in, first out, from the empty queue on. */
  method Overtaken() returns (q: TagQueue, first: seq<byte>, ops: seq<Op>)
    ensures q.Valid() && first == [0] && Overtakes(Copies(16, [0]), ops, q.Contents(), 1, 15)
  {
    hide Ring, Alone, Copies, TagQueue.Items, TagQueue.Contents, TagQueue.Blocks;
    q := new TagQueue(1);
    first := Wrap(q, [0]);
    ops := Breaks(q);
  }

  /** Sixteen items fill the ring. */
  method FillRing(q: TagQueue, data: seq<byte>)
    requires q.Valid() && Alone(q.queue) && q.size == 1 == |data| && |q.queue| == 16 && q.read == q.count == 0
    modifies q, q.Blocks()
    ensures q.Valid() && Alone(q.queue) && |q.queue| == 16 == q.count && q.read == 0
    ensures fresh(q.Blocks() - old(q.Blocks()))
    ensures q.Contents() == Copies(16, data)
  {
    hide Alone, Slot, Extends, TagQueue.Items, TagQueue.Contents, TagQueue.Clobbers;
    for i := 0 to 16
      invariant q.Valid() && Alone(q.queue) && |q.queue| == 16 && q.read == 0 && q.count == i
      invariant fresh(q.Blocks() - old(q.Blocks()))
      invariant q.Contents() == Copies(i, data)
    {
      NeverClobbers(q, data);
      var err := q.Write(0, data);
    }
  }

  /** Then one out and one in: the newest item is in slot 0. */
  method Wrap(q: TagQueue, data: seq<byte>) returns (first: seq<byte>)
    requires q.Valid() && Alone(q.queue) && q.size == 1 == |data| && |q.queue| == 16 && q.read == q.count == 0
    modifies q, q.Blocks()
    ensures q.Valid() && |q.queue| == 16 == q.count && q.read == 1 && fresh(q.Blocks() - old(q.Blocks()))
    ensures first == data && q.Contents() == Copies(16, data)
  {
    FillRing(q, data);
    hide Alone, Extends, Block, TagQueue.Items, TagQueue.Contents, TagQueue.Clobbers, TagQueue.Blocks;
    var err;
    err, first := q.Read();
    NeverClobbers(q, data);
    err := q.Write(0, data);
  }

  /** A run that is not calm reaches a growth with the oldest item behind the first slot; first in, first out so far. */
  method DriveToGrowth(q: TagQueue, ops: seq<Op>) returns (n: nat, taken: seq<seq<byte>>)
    requires q.Valid() && Alone(q.queue) && !Calm(Shape(q.read, q.count, |q.queue|), ops, q.size)
    modifies q, q.Blocks()
    ensures q.Valid() && fresh(q.Blocks() - old(q.Blocks())) && n < |ops|
    ensures q.count == |q.queue| > q.read > 0 && ops[n].Write? && |ops[n].data| == q.size
    ensures taken + q.Contents() == old(q.Contents()) + Accepted(ops[..n], q.size)
    decreases |ops|
  {
    hide Alone, Slot, TagQueue.Items, TagQueue.Contents, Shape.Next;
    if ops[0].Write? && |ops[0].data| == q.size && q.count == |q.queue| && q.read > 0 {
      assert ops[..0] == [];
      assert [] + q.Contents() == q.Contents() == q.Contents() + [];
      return 0, [];
    }
    ghost var items := q.Contents();
    var first := Perform(q, ops[0]);
    ghost var now := q.Contents();
    var rest;
    n, rest := DriveToGrowth(q, ops[1..]);
    taken := first + rest;
    Joined(items, now, q.Contents(), first, rest, Put(ops[0], q.size), Accepted(ops[1..][..n], q.size));
    assert ops[..n + 1][0] == ops[0] && ops[..n + 1][1..] == ops[1..][..n];
    n := n + 1;
  }

  /** For every run that is not calm there is one that begins in the same way and is not first in, first out. */
  method BreaksFrom(q: TagQueue, ops: seq<Op>) returns (n: nat, more: seq<Op>, taken: seq<seq<byte>>)
    requires q.Valid() && Alone(q.queue) && !Calm(Shape(q.read, q.count, |q.queue|), ops, q.size) && q.size > 0
    modifies q, q.Blocks()
    ensures q.Valid() && n < |ops|
    ensures taken + q.Contents() != old(q.Contents()) + Accepted(ops[..n] + more, q.size)
  {
    hide Ring, Alone, Slot, TagQueue.Items, TagQueue.Contents, Calm, TagQueue.Blocks;
    ghost var was := q.Contents();
    n, taken := DriveToGrowth(q, ops);
    ghost var mid, k := q.Contents(), |q.queue| - q.read;
    more := Breaks(q);
    AcceptedBoth(ops[..n], more, q.size);
    Differs(was, mid, q.Contents(), taken, Accepted(ops[..n], q.size), more, q.size, k);
  }

  lemma {:induction false} AcceptedBoth(a: seq<Op>, b: seq<Op>, size: nat)
    ensures Accepted(a + b, size) == Accepted(a, size) + Accepted(b, size)
  {
    if a == [] {
      assert a + b == b;
    } else {
      assert (a + b)[1..] == a[1..] + b;
      AcceptedBoth(a[1..], b, size);
    }
  }

  lemma Differs(was: seq<seq<byte>>, mid: seq<seq<byte>>, now: seq<seq<byte>>, taken: seq<seq<byte>>,
                put: seq<seq<byte>>, more: seq<Op>, size: nat, k: nat)
    requires taken + mid == was + put && Overtakes(mid, more, now, size, k)
    ensures taken + now != was + (put + Accepted(more, size))
  {
    hide Accepted;
    var next := Accepted(more, size);
    Associates(was, put, next);
    Associates(taken, mid, next);
    assert (taken + now)[|taken| + k] == now[k] && (taken + (mid + next))[|taken| + k] == (mid + next)[k];
  }

  lemma SameBlocks(before: seq<array?<byte>>, after: seq<array?<byte>>, read: nat)
    requires read < |before| && after == Doubled(before, read)
    ensures (set k | 0 <= k < |before| && before[k] != null :: before[k])
            == (set k | 0 <= k < |after| && after[k] != null :: after[k])
  {
    forall k | 0 <= k < |before| ensures after[k] == before[k] {}
    forall k | 0 <= k < |after| && after[k] != null ensures exists l :: 0 <= l < |before| && before[l] == after[k] {
      if k >= |before| { assert after[k] == before[k - |before|]; }
    }
  }
}
