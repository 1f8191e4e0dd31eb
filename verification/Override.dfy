/** Overrides (src/server/tagbase.c): bits of a tag that are shown with other values while an override is
    set, without touching the tag's own data. */
module Override {
  import opened Common
  import opened Bits
  import opened Store

  // ---------------------------------------------------------------- the bytes

  /** The override buffers `odata` and `omask`. */
  datatype Overlay = NoOverlay | Overlay(data: seq<byte>, mask: seq<byte>)

  /** A tag's bytes, its override buffers and the flag TAG_ATTR_OVR_SET. */
  datatype State = State(raw: seq<byte>, over: Overlay, active: bool) {
    ghost predicate Valid() {
      && (active ==> over.Overlay?)
      && (over.Overlay? ==> |over.data| == |over.mask| == |raw|)
    }
  }

  /** Changes of a tag; `Add` also names what `malloc` leaves in the two buffers. */
  datatype Op =
    | Write(offset: nat, bytes: seq<byte>)
    | MaskWrite(offset: nat, bytes: seq<byte>, mask: seq<byte>)
    | Add(offset: nat, bytes: seq<byte>, mask: seq<byte>, junkData: seq<byte>, junkMask: seq<byte>)
    | Del(offset: nat, mask: seq<byte>)
    | Set(flag: bool)
  {
    ghost predicate InBounds(n: nat) {
      match this
      case Write(offset, bytes) => offset + |bytes| <= n
      case MaskWrite(offset, bytes, mask) => offset + |bytes| <= n && |mask| == |bytes|
      case Add(offset, bytes, mask, d, m) => offset + |bytes| <= n && |mask| == |bytes| && |d| == |m| == n
      case Del(offset, mask) => offset + |mask| <= n
      case Set(flag) => true
    }
  }

  /** Byte-wise `b & ~m`. */
  function Without(b: byte, m: byte): byte { b & !m }

  lemma WithoutBits(b: byte, m: byte, i: nat)
    requires i < 8
    ensures Bit(Without(b, m), i) == (Bit(b, i) && !Bit(m, i))
  {
    hide Bit;
    BitOps(b, !m, i);
    BitOps(m, m, i);
  }

  function Removed(s: seq<byte>, offset: nat, mask: seq<byte>): (r: seq<byte>)
    requires offset + |mask| <= |s|
    ensures |r| == |s|
  {
    Written(s, offset, seq(|mask|, n requires 0 <= n < |mask| => Without(s[offset + n], mask[n])))
  }

  lemma RemovedBit(s: seq<byte>, offset: nat, mask: seq<byte>, k: nat)
    requires offset + |mask| <= |s| && k < 8 * |s|
    ensures BitAt(Removed(s, offset, mask), k) ==
      (BitAt(s, k) && !(8 * offset <= k < 8 * (offset + |mask|) && BitAt(mask, k - 8 * offset)))
  {
    hide Bit, Without;
    var removed := seq(|mask|, n requires 0 <= n < |mask| => Without(s[offset + n], mask[n]));
    WrittenBit(s, offset, removed, k);
    if 8 * offset <= k < 8 * (offset + |mask|) {
      var n := k / 8 - offset;
      assert (k - 8 * offset) / 8 == n && (k - 8 * offset) % 8 == k % 8;
      WithoutBits(s[offset + n], mask[n], k % 8);
    }
  }

  predicate Blank(s: seq<byte>) {
    forall n :: 0 <= n < |s| ==> s[n] == 0
  }

  /** `bzero` of the first `size` bytes. */
  function Zeroed(s: seq<byte>, size: nat): (r: seq<byte>)
    requires size <= |s|
    ensures |r| == |s|
  {
    seq(size, _ => 0) + s[size..]
  }

  /** The tag after a change. */
  function Next(s: State, op: Op): (t: State)
    requires s.Valid() && op.InBounds(|s.raw|)
    ensures t.Valid() && |t.raw| == |s.raw|
  {
    match op
    case Write(offset, bytes) => s.(raw := Written(s.raw, offset, bytes))
    case MaskWrite(offset, bytes, mask) => s.(raw := MaskWritten(s.raw, offset, bytes, mask))
    case Add(offset, bytes, mask, d, m) =>
      var base := if s.over.Overlay? then s.over else Overlay(Zeroed(d, |bytes|), Zeroed(m, |bytes|));
      s.(over := Overlay(Written(base.data, offset, bytes), Written(base.mask, offset, mask)))
    case Del(offset, mask) =>
      if s.over.NoOverlay? then s
      else
        var left := Removed(s.over.mask, offset, mask);
        if Blank(left) then State(s.raw, NoOverlay, false)
        else s.(over := Overlay(Removed(s.over.data, offset, mask), left))
    case Set(flag) => if flag && s.over.NoOverlay? then s else s.(active := flag)
  }

  /** What `tag_read` returns for the whole tag. */
  function Shown(s: State): (r: seq<byte>)
    requires s.Valid()
    ensures |r| == |s.raw|
  {
    if s.active then MaskWritten(s.raw, 0, s.over.data, s.over.mask) else s.raw
  }

  lemma ShownByte(s: State, k: nat)
    requires s.Valid() && k < |s.raw|
    ensures Shown(s)[k] == if s.active then Merge(s.raw[k], s.over.data[k], s.over.mask[k]) else s.raw[k]
  {
    hide Merge;
  }

  // ---------------------------------------------------------------- bit by bit

  datatype Force = Free | Forced(value: bool)

  datatype Cell = Cell(raw: bool, force: Force)

  /** The intended tag: every bit has its own value and perhaps a forced one. */
  datatype Model = Model(cells: seq<Cell>, open: bool, active: bool)

  /** Bit `k` lies in the bytes from `offset`, and in the mask. */
  predicate Selected(k: int, offset: nat, mask: seq<byte>) {
    8 * offset <= k < 8 * (offset + |mask|) && BitAt(mask, k - 8 * offset)
  }

  function CellNext(c: Cell, k: nat, op: Op, open: bool): Cell
    requires op.MaskWrite? || op.Add? ==> |op.mask| == |op.bytes|
  {
    match op
    case Write(offset, bytes) =>
      if 8 * offset <= k < 8 * (offset + |bytes|) then c.(raw := BitAt(bytes, k - 8 * offset)) else c
    case MaskWrite(offset, bytes, mask) =>
      if Selected(k, offset, mask) then c.(raw := BitAt(bytes, k - 8 * offset)) else c
    case Add(offset, bytes, mask, _, _) =>
      if Selected(k, offset, mask) then c.(force := Forced(BitAt(bytes, k - 8 * offset)))
      else if 8 * offset <= k < 8 * (offset + |mask|) then c.(force := Free)
      else c
    case Del(offset, mask) => if open && Selected(k, offset, mask) then c.(force := Free) else c
    case Set(flag) => c
  }

  function ModelNext(m: Model, op: Op): (r: Model)
    requires op.MaskWrite? || op.Add? ==> |op.mask| == |op.bytes|
    ensures |r.cells| == |m.cells|
  {
    var cells := seq(|m.cells|, k requires 0 <= k < |m.cells| => CellNext(m.cells[k], k, op, m.open));
    match op
    case Add(_, _, _, _, _) => Model(cells, true, m.active)
    case Del(_, _) =>
      if forall k :: 0 <= k < |cells| ==> cells[k].force == Free then Model(cells, false, false)
      else Model(cells, m.open, m.active)
    case Set(flag) => Model(cells, m.open, if flag && !m.open then m.active else flag)
    case _ => Model(cells, m.open, m.active)
  }

  /** The bits of a tag's bytes and buffers. */
  ghost function CellOf(s: State, k: nat): Cell
    requires s.Valid() && k < 8 * |s.raw|
  {
    Cell(BitAt(s.raw, k), if s.over.Overlay? && BitAt(s.over.mask, k) then Forced(BitAt(s.over.data, k)) else Free)
  }

  ghost function Meaning(s: State): (m: Model)
    requires s.Valid()
    ensures |m.cells| == 8 * |s.raw|
  {
    Model(seq(8 * |s.raw|, k requires 0 <= k < 8 * |s.raw| => CellOf(s, k)), s.over.Overlay?, s.active)
  }

  /** New buffers are cleared wherever the override does not write: they are written from `offset` to the
      end of the tag, and the bytes cleared at the start reach that far. */
  ghost predicate Clean(s: State, op: Op)
    requires op.InBounds(|s.raw|)
  {
    op.Add? && s.over.NoOverlay? ==> op.offset <= |op.bytes| && op.offset + |op.bytes| == |s.raw|
  }

  lemma BlankMeans(s: seq<byte>)
    ensures Blank(s) <==> forall k :: 0 <= k < 8 * |s| ==> !BitAt(s, k)
  {
    hide Bit;
    if Blank(s) {
      forall k | 0 <= k < 8 * |s| ensures !BitAt(s, k) { ZeroBuffer(s, k); }
    }
    if forall k :: 0 <= k < 8 * |s| ==> !BitAt(s, k) {
      forall n | 0 <= n < |s| ensures s[n] == 0 {
        forall i | 0 <= i < 8 ensures !Bit(s[n], i) { assert !BitAt(s, 8 * n + i); }
        ZeroByte(s[n]);
      }
    }
  }

  lemma ZeroedBit(s: seq<byte>, size: nat, k: nat)
    requires size <= |s| && k < 8 * |s|
    ensures BitAt(Zeroed(s, size), k) == (k >= 8 * size && BitAt(s, k))
  {
    hide Bit;
    if k < 8 * size { ConstBits(k % 8); }
  }

  /** Each bit of the buffers changes as its cell should. */
  lemma CellStep(s: State, op: Op, k: nat)
    requires s.Valid() && op.InBounds(|s.raw|) && Clean(s, op) && k < 8 * |s.raw|
    ensures CellOf(Next(s, op), k) == CellNext(CellOf(s, k), k, op, s.over.Overlay?)
  {
    hide BitAt, Written, MaskWritten, Removed, Blank, Zeroed;
    match op
    case Write(offset, bytes) => WrittenBit(s.raw, offset, bytes, k);
    case MaskWrite(offset, bytes, mask) => MaskWrittenBit(s.raw, offset, bytes, mask, k);
    case Add(offset, bytes, mask, d, m) => AddedCell(s, op, k);
    case Del(offset, mask) =>
      if s.over.Overlay? {
        RemovedBit(s.over.mask, offset, mask, k);
        RemovedBit(s.over.data, offset, mask, k);
        BlankMeans(Removed(s.over.mask, offset, mask));
      }
    case Set(flag) =>
  }

  lemma AddedCell(s: State, op: Op, k: nat)
    requires s.Valid() && op.InBounds(|s.raw|) && op.Add? && Clean(s, op) && k < 8 * |s.raw|
    ensures CellOf(Next(s, op), k) == CellNext(CellOf(s, k), k, op, s.over.Overlay?)
  {
    hide BitAt, Written, MaskWritten, Zeroed;
    var base :=
      if s.over.Overlay? then s.over
      else Overlay(Zeroed(op.junkData, |op.bytes|), Zeroed(op.junkMask, |op.bytes|));
    WrittenBit(base.data, op.offset, op.bytes, k);
    WrittenBit(base.mask, op.offset, op.mask, k);
    if s.over.NoOverlay? {
      ZeroedBit(op.junkMask, |op.bytes|, k);
    }
  }

  /** The byte buffers refine the bits. */
  lemma Refines(s: State, op: Op)
    requires s.Valid() && op.InBounds(|s.raw|) && Clean(s, op)
    ensures Meaning(Next(s, op)) == ModelNext(Meaning(s), op)
  {
    hide CellOf, CellNext, Blank, Written, MaskWritten, Removed, Zeroed;
    forall k | 0 <= k < 8 * |s.raw| ensures CellOf(Next(s, op), k) == CellNext(CellOf(s, k), k, op, s.over.Overlay?) {
      CellStep(s, op, k);
    }
    var m, r := Meaning(Next(s, op)), ModelNext(Meaning(s), op);
    assert m.cells == r.cells;
    if op.Del? {
      Emptied(s, op);
      var cells := seq(8 * |s.raw|, k requires 0 <= k < 8 * |s.raw| =>
        CellNext(Meaning(s).cells[k], k, op, s.over.Overlay?));
      assert forall k :: 0 <= k < 8 * |s.raw| ==> cells[k] == CellOf(Next(s, op), k);
      assert cells == r.cells;
    }
  }

  /** The buffers go exactly when no bit is forced any more. */
  lemma Emptied(s: State, op: Op)
    requires s.Valid() && op.InBounds(|s.raw|) && op.Del?
    ensures Next(s, op).over.NoOverlay? <==> forall k :: 0 <= k < 8 * |s.raw| ==> CellOf(Next(s, op), k).force == Free
    ensures Next(s, op).over.NoOverlay? ==> !Next(s, op).active
  {
    hide BitAt, Written, Removed, Blank;
    if s.over.Overlay? {
      BlankMeans(Removed(s.over.mask, op.offset, op.mask));
      var t := Next(s, op);
      if t.over.Overlay? {
        var k :| 0 <= k < 8 * |s.raw| && BitAt(t.over.mask, k);
        assert CellOf(t, k).force != Free;
      }
    }
  }

  /** A first override is what was asked for, whatever the allocated memory holds, exactly when it is clean. */
  lemma CleanExact(s: State, op: Op)
    requires s.Valid() && op.InBounds(|s.raw|) && op.Add? && s.over.NoOverlay?
    ensures (forall d, m :: |d| == |m| == |s.raw| ==>
               Meaning(Next(s, op.(junkData := d, junkMask := m))) == ModelNext(Meaning(s), op)) <==> Clean(s, op)
  {
    hide Written, BitAt, Zeroed;
    var n, size := |s.raw|, |op.bytes|;
    if Clean(s, op) {
      forall d, m | |d| == |m| == n
        ensures Meaning(Next(s, op.(junkData := d, junkMask := m))) == ModelNext(Meaning(s), op)
      {
        Refines(s, op.(junkData := d, junkMask := m));
        SameModel(Meaning(s), op, d, m);
      }
    } else {
      var j := if op.offset > size then size else op.offset + size;
      var junk := seq(n, _ => 0xFF);
      var dirty := op.(junkData := junk, junkMask := junk);
      WrittenBit(Zeroed(junk, size), op.offset, op.mask, 8 * j);
      ZeroedBit(junk, size, 8 * j);
      AllOnes(junk, 8 * j);
      var wanted := ModelNext(Meaning(s), op);
      assert wanted.cells[8 * j].force == Free;
      assert Meaning(Next(s, dirty)).cells[8 * j].force != Free;
    }
  }

  lemma SameModel(m: Model, op: Op, d: seq<byte>, k: seq<byte>)
    requires op.Add? && |op.mask| == |op.bytes|
    ensures ModelNext(m, op.(junkData := d, junkMask := k)) == ModelNext(m, op)
  {
    assert ModelNext(m, op.(junkData := d, junkMask := k)).cells == ModelNext(m, op).cells;
  }

  lemma AllOnes(s: seq<byte>, k: nat)
    requires k < 8 * |s| && s[k / 8] == 0xFF
    ensures BitAt(s, k)
  {
    ConstBits(k % 8);
  }

  // ---------------------------------------------------------------- runs

  ghost predicate Legal(s: State, ops: seq<Op>)
    requires s.Valid()
    decreases |ops|
  {
    ops == [] || (ops[0].InBounds(|s.raw|) && Clean(s, ops[0]) && Legal(Next(s, ops[0]), ops[1..]))
  }

  ghost function Run(s: State, ops: seq<Op>): (t: State)
    requires s.Valid() && Legal(s, ops)
    ensures t.Valid() && |t.raw| == |s.raw|
    decreases |ops|
  {
    if ops == [] then s else Run(Next(s, ops[0]), ops[1..])
  }

  ghost predicate Paired(ops: seq<Op>) {
    forall i :: 0 <= i < |ops| ==> ops[i].MaskWrite? || ops[i].Add? ==> |ops[i].mask| == |ops[i].bytes|
  }

  ghost function ModelRun(m: Model, ops: seq<Op>): (r: Model)
    requires Paired(ops)
    ensures |r.cells| == |m.cells|
    decreases |ops|
  {
    if ops == [] then m else ModelRun(ModelNext(m, ops[0]), ops[1..])
  }

  /** The bit that a reader sees. */
  ghost predicate Visible(m: Model, k: nat)
    requires k < |m.cells|
  {
    if m.active && m.cells[k].force.Forced? then m.cells[k].force.value else m.cells[k].raw
  }

  lemma ReadIsOverlay(s: State, k: nat)
    requires s.Valid() && k < 8 * |s.raw|
    ensures BitAt(Shown(s), k) == Visible(Meaning(s), k)
  {
    hide BitAt, MaskWritten;
    if s.active { MaskWrittenBit(s.raw, 0, s.over.data, s.over.mask, k); }
  }

  /** After every legal run a read shows each bit's forced value if it has one and the override is active,
      and its own value otherwise. */
  lemma {:induction false} RunRefines(s: State, ops: seq<Op>)
    requires s.Valid() && Legal(s, ops)
    ensures Paired(ops) && Meaning(Run(s, ops)) == ModelRun(Meaning(s), ops)
    ensures forall k :: 0 <= k < 8 * |s.raw| ==>
      BitAt(Shown(Run(s, ops)), k) == Visible(ModelRun(Meaning(s), ops), k)
    decreases |ops|
  {
    hide Meaning, Next, ModelNext, Shown, BitAt, Visible;
    if ops != [] {
      Refines(s, ops[0]);
      RunRefines(Next(s, ops[0]), ops[1..]);
      assert forall i :: 1 <= i < |ops| ==> ops[i] == ops[1..][i - 1];
    } else {
      forall k | 0 <= k < 8 * |s.raw| ensures BitAt(Shown(s), k) == Visible(Meaning(s), k) { ReadIsOverlay(s, k); }
    }
  }

  /** The writes of a run, without its overrides. */
  function Writes(ops: seq<Op>): seq<Op> {
    if ops == [] then []
    else if ops[0].Write? || ops[0].MaskWrite? then [ops[0]] + Writes(ops[1..])
    else Writes(ops[1..])
  }

  /** A tag's own bytes depend on the writes alone. */
  lemma {:induction false} RawFromWrites(s: State, ops: seq<Op>, t: State)
    requires s.Valid() && t.Valid() && t.raw == s.raw && Legal(s, ops)
    ensures Legal(t, Writes(ops)) && Run(t, Writes(ops)).raw == Run(s, ops).raw
    decreases |ops|
  {
    if ops != [] {
      var rest := ops[1..];
      if ops[0].Write? || ops[0].MaskWrite? {
        assert ([ops[0]] + Writes(rest))[1..] == Writes(rest);
        RawFromWrites(Next(s, ops[0]), rest, Next(t, ops[0]));
      } else {
        RawFromWrites(Next(s, ops[0]), rest, t);
      }
    }
  }

  /** Clearing an override, or deleting its last bit, shows the tag's own bytes again. */
  lemma Revealed(s: State, op: Op)
    requires s.Valid() && op.InBounds(|s.raw|)
    requires op == Set(false) ||
      (op.Del? && forall k :: 0 <= k < 8 * |s.raw| ==> CellOf(Next(s, op), k).force == Free)
    ensures Shown(Next(s, op)) == s.raw
  {
    hide CellOf, Removed, MaskWritten;
    if op.Del? { Emptied(s, op); }
  }

  // ---------------------------------------------------------------- the server's tag

  /** A tag that is not deleted, as far as overrides are concerned. */
  class Tag {
    const data: array<byte>
    var odata: array?<byte>
    var omask: array?<byte>
    var installed: bool
    var active: bool

    ghost predicate Valid()
      reads this
    {
      && (odata == null <==> omask == null) && (active ==> odata != null) && (installed <==> odata != null)
      && (odata != null ==>
           && data != odata && data != omask && odata != omask
           && odata.Length == omask.Length == data.Length)
    }

    ghost function Buffers(): set<object>
      reads this
    {
      {data} + (if odata == null then {} else {odata}) + (if omask == null then {} else {omask})
    }

    ghost function Value(): (s: State)
      requires Valid()
      reads this, Buffers()
      ensures s.Valid() && |s.raw| == data.Length
    {
      State(data[..], if odata == null then NoOverlay else Overlay(odata[..], omask[..]), active)
    }

    /** `tag_read` of a range inside the tag */
    method Read(offset: nat, size: nat) returns (out: array<byte>)
      requires Valid() && offset + size <= data.Length
      ensures fresh(out) && out[..] == Shown(Value())[offset..offset + size]
    {
      hide Merge, Shown;
      out := new byte[size];
      for n := 0 to size
        invariant forall k :: 0 <= k < n ==> out[k] == data[offset + k]
      {
        out[n] := data[offset + n];
      }
      if active {
        for n := 0 to size
          invariant forall k :: 0 <= k < n ==> out[k] == Merge(data[offset + k], odata[offset + k], omask[offset + k])
        {
          out[n] := Merge(data[offset + n], odata[offset + n], omask[offset + n]);
        }
      }
      ghost var shown := Shown(Value());
      forall k | 0 <= k < size ensures out[k] == shown[offset + k] {
        ShownByte(Value(), offset + k);
      }
      assert out[..] == shown[offset..offset + size];
    }

    /** `override_add` of a range inside the tag; `junkData` and `junkMask` are the contents of new memory. */
    method OverrideAdd(offset: nat, bytes: seq<byte>, mask: seq<byte>, junkData: seq<byte>, junkMask: seq<byte>)
      requires Valid() && Add(offset, bytes, mask, junkData, junkMask).InBounds(data.Length)
      modifies this, Buffers()
      ensures Valid() && fresh(Buffers() - old(Buffers())) && installed
      ensures Value() == Next(old(Value()), Add(offset, bytes, mask, junkData, junkMask))
    {
      hide Written;
      if odata == null {
        odata := Allocate(junkData, |bytes|);
        omask := Allocate(junkMask, |bytes|);
      }
      CopyInto(odata, offset, bytes);
      CopyInto(omask, offset, mask);
      installed := true;
    }

    /** `override_del` of a range inside the tag */
    method OverrideDel(offset: nat, mask: seq<byte>) returns (err: int)
      requires Valid() && offset + |mask| <= data.Length
      modifies this, Buffers()
      ensures Valid() && Value() == Next(old(Value()), Del(offset, mask))
      ensures err == if old(odata) == null then ERR_GENERIC else 0
    {
      if odata == null {
        return ERR_GENERIC;
      }
      ghost var was := Value();
      RemoveFrom(omask, offset, mask);
      RemoveFrom(odata, offset, mask);
      hide Removed;
      for n := 0 to data.Length
        invariant forall k :: 0 <= k < n ==> omask[k] == 0
      {
        if omask[n] != 0 {
          assert omask[..][n] != 0;
          return 0;
        }
      }
      assert Blank(omask[..]);
      installed, active := false, false;
      odata, omask := null, null;
      err := 0;
    }

    /** `override_set` */
    method OverrideSet(flag: bool) returns (err: int)
      requires Valid()
      modifies this`active
      ensures Valid() && Value() == Next(old(Value()), Set(flag))
      ensures err == if flag && odata == null then ERR_ILLEGAL else 0
    {
      if flag {
        if odata == null {
          return ERR_ILLEGAL;
        }
        if !active {
          active := true;
        }
      } else if active {
        active := false;
      }
      err := 0;
    }
  }

  /** `malloc` and `bzero` of the first `size` bytes. */
  method Allocate(junk: seq<byte>, size: nat) returns (a: array<byte>)
    requires size <= |junk|
    ensures fresh(a) && a[..] == Zeroed(junk, size)
  {
    a := new byte[|junk|](k requires 0 <= k < |junk| => junk[k]);
    for n := 0 to size
      invariant forall k :: 0 <= k < |junk| ==> a[k] == if k < n then 0 else junk[k]
    {
      a[n] := 0;
    }
  }

  method RemoveFrom(a: array<byte>, offset: nat, mask: seq<byte>)
    requires offset + |mask| <= a.Length
    modifies a
    ensures a[..] == Removed(old(a[..]), offset, mask)
  {
    hide Without;
    for n := 0 to |mask|
      invariant forall k :: 0 <= k < a.Length ==>
        a[k] == if offset <= k < offset + n then Without(old(a[k]), mask[k - offset]) else old(a[k])
    {
      a[offset + n] := Without(a[offset + n], mask[n]);
    }
  }
}
