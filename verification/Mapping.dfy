/** Data maps (src/server/mapping.c): a source range that is copied to a destination range whenever a
    write touches the source. */
module Mapping {
  import opened Common
  import opened Bits
  import opened Store
  import opened Types
  import Atomic
  import EventRuns

  /** The contents of all tags. */
  type Tags = seq<seq<byte>>

  /** A tag handle. */
  datatype Area = Area(index: int, typ: TagType, count: nat, byte: nat, bit: nat, size: nat) {
    predicate IsBool() { typ == Basic(BOOL) }
  }

  datatype Mask = NoMask | Mask(bytes: seq<byte>)

  /** `_dax_datamap` */
  datatype Map = Map(id: nat, src: Area, dest: Area, mask: Mask) {

    /** The mapped bits: where they start in the source and in the destination, and how many there are. */
    function SrcFirst(): nat { 8 * src.byte + if src.IsBool() then src.bit else 0 }

    function DestFirst(): nat { 8 * dest.byte + if src.IsBool() then dest.bit else 0 }

    function Bits(): nat { if src.IsBool() then src.count else 8 * src.size }

    predicate InDest(i: int, k: int) { i == dest.index && DestFirst() <= k < DestFirst() + Bits() }

    /** The test of `map_check`. */
    predicate Overlaps(offset: nat, length: nat) {
      offset <= src.byte + src.size - 1 && offset + length - 1 >= src.byte
    }

    /** A map that `map_add` can have made for tags of these sizes, whose mask fits its buffer. */
    ghost predicate Valid(tags: Tags) {
      && 0 <= src.index < |tags| && 0 <= dest.index < |tags|
      && src.byte + src.size <= |tags[src.index]| && dest.byte + src.size <= |tags[dest.index]|
      && if src.IsBool() then
           && src.bit < 8 && src.bit + src.count <= 8 * src.size
           && dest.bit < 8 && dest.bit + src.count <= 8 * src.size
           && mask.Mask? && IsMask(mask.bytes, src.size, dest.bit, src.count)
         else mask == NoMask
    }
  }

  /** A map is hit by exactly the messages that write a byte of its source, and by empty ones strictly inside it. */
  lemma HitIsExact(m: Map, offset: nat, length: nat)
    requires m.src.size > 0
    ensures length > 0 ==>
      (m.Overlaps(offset, length) <==>
        exists k :: EventRuns.Within(k, offset, length) && EventRuns.Within(k, m.src.byte, m.src.size))
    ensures length == 0 ==> (m.Overlaps(offset, length) <==> m.src.byte < offset < m.src.byte + m.src.size)
  {
    if m.Overlaps(offset, length) && length > 0 {
      var k := if offset >= m.src.byte then offset else m.src.byte;
      assert EventRuns.Within(k, offset, length) && EventRuns.Within(k, m.src.byte, m.src.size);
    }
  }

  // ---------------------------------------------------------------- masks and moved bits

  ghost predicate IsMask(mask: seq<byte>, size: nat, bit: nat, count: nat) {
    |mask| == size && forall k :: 0 <= k < 8 * size ==> BitAt(mask, k) == (bit <= k < bit + count)
  }

  /** The mask of `map_add`: `count` ones from bit `bit`. */
  method BuildMask(size: nat, first: nat, count: nat) returns (mask: array<byte>)
    requires first < 8 && first + count <= 8 * size
    ensures fresh(mask) && IsMask(mask[..], size, first, count)
  {
    hide BitAt;
    mask := new byte[size](_ => 0);
    AllZero(mask[..]);
    var bit, offset := first, 0;
    for i := 0 to count
      invariant 8 * offset + bit == first + i && bit < 8
      invariant IsMask(mask[..], size, first, i)
    {
      SetBitIn(mask, offset, bit, first + i);
      bit := bit + 1;
      if bit == 8 {
        bit := 0;
        offset := offset + 1;
      }
    }
  }

  lemma AllZero(s: seq<byte>)
    requires forall n :: 0 <= n < |s| ==> s[n] == 0
    ensures forall k :: 0 <= k < 8 * |s| ==> !BitAt(s, k)
  {
    forall k | 0 <= k < 8 * |s| ensures !BitAt(s, k) { ZeroBuffer(s, k); }
  }

  /** `count` bits of `src` from `from`, moved to `to` in a buffer of the same size that is otherwise zero. */
  function Moved(src: seq<byte>, from: nat, to: nat, count: nat): (out: seq<byte>)
    requires from + count <= 8 * |src| && to + count <= 8 * |src|
    ensures |out| == |src|
  {
    if count == 0 then seq(|src|, _ => 0)
    else
      var out := Moved(src, from, to, count - 1);
      if BitAt(src, from + count - 1) then WithBit(out, to + count - 1) else out
  }

  lemma {:induction false} MovedBit(src: seq<byte>, from: nat, to: nat, count: nat, k: nat)
    requires from + count <= 8 * |src| && to + count <= 8 * |src| && k < 8 * |src|
    ensures BitAt(Moved(src, from, to, count), k) == (to <= k < to + count && BitAt(src, from + k - to))
  {
    hide BitAt, WithBit;
    if count == 0 {
      AllZero(Moved(src, from, to, 0));
    } else {
      MovedBit(src, from, to, count - 1, k);
      OneBit(Moved(src, from, to, count - 1), to + count - 1, k);
    }
  }

  /** The bit loop of `map_check`. */
  method MoveBits(src: seq<byte>, from: nat, to: nat, count: nat) returns (out: array<byte>)
    requires from < 8 && to < 8 && from + count <= 8 * |src| && to + count <= 8 * |src|
    ensures fresh(out) && out[..] == Moved(src, from, to, count)
  {
    hide BitAt, Bit, WithBit;
    out := new byte[|src|](_ => 0);
    var srcByte, srcBit, destByte, destBit := 0, from, 0, to;
    for n := 0 to count
      invariant 8 * srcByte + srcBit == from + n && srcBit < 8
      invariant 8 * destByte + destBit == to + n && destBit < 8
      invariant out[..] == Moved(src, from, to, n)
    {
      BitPlace(src, srcByte, srcBit);
      if Bit(src[srcByte], srcBit) {
        SetBitIn(out, destByte, destBit, to + n);
      }
      srcBit := srcBit + 1;
      destBit := destBit + 1;
      if srcBit == 8 {
        srcBit := 0;
        srcByte := srcByte + 1;
      }
      if destBit == 8 {
        destBit := 0;
        destByte := destByte + 1;
      }
    }
  }

  lemma BitPlace(s: seq<byte>, byte: nat, bit: nat)
    requires bit < 8 && byte < |s|
    ensures BitAt(s, 8 * byte + bit) == Bit(s[byte], bit)
  {}

  // ---------------------------------------------------------------- one map

  ghost predicate SameShape(s: Tags, t: Tags) {
    |s| == |t| && forall i :: 0 <= i < |s| ==> |s[i]| == |t[i]|
  }

  ghost predicate TagBit(tags: Tags, i: int, k: int)
    requires 0 <= i < |tags| && 0 <= k < 8 * |tags[i]|
  {
    BitAt(tags[i], k)
  }

  /** The destination tag after a hit. */
  ghost function Mirrored(tags: Tags, m: Map): (data: seq<byte>)
    requires m.Valid(tags)
    ensures |data| == |tags[m.dest.index]|
  {
    var source := tags[m.src.index][m.src.byte..m.src.byte + m.src.size];
    if m.mask.Mask? then
      MaskWritten(tags[m.dest.index], m.dest.byte, Moved(source, m.src.bit, m.dest.bit, m.src.count), m.mask.bytes)
    else Written(tags[m.dest.index], m.dest.byte, source)
  }

  ghost function Mirror(tags: Tags, m: Map): (r: Tags)
    requires m.Valid(tags)
    ensures SameShape(tags, r)
  {
    tags[m.dest.index := Mirrored(tags, m)]
  }

  /** A hit copies the mapped bits and changes no other bit of any tag. */
  lemma MirrorBit(tags: Tags, m: Map, i: nat, k: nat)
    requires m.Valid(tags) && i < |tags| && k < 8 * |tags[i]|
    ensures TagBit(Mirror(tags, m), i, k) ==
      if m.InDest(i, k) then TagBit(tags, m.src.index, m.SrcFirst() + k - m.DestFirst()) else TagBit(tags, i, k)
  {
    hide BitAt, Moved, MaskWritten, Written;
    if i == m.dest.index {
      var data, source := tags[m.dest.index], tags[m.src.index][m.src.byte..m.src.byte + m.src.size];
      var j := k - 8 * m.dest.byte;
      if m.src.IsBool() {
        var moved := Moved(source, m.src.bit, m.dest.bit, m.src.count);
        MaskWrittenBit(data, m.dest.byte, moved, m.mask.bytes, k);
        if 0 <= j < 8 * m.src.size {
          MovedBit(source, m.src.bit, m.dest.bit, m.src.count, j);
          if m.InDest(i, k) {
            SliceBit(tags[m.src.index], m.src.byte, m.src.byte + m.src.size, m.src.bit + j - m.dest.bit);
          }
        }
      } else {
        WrittenBit(data, m.dest.byte, source, k);
        if 0 <= j < 8 * m.src.size {
          SliceBit(tags[m.src.index], m.src.byte, m.src.byte + m.src.size, j);
        }
      }
    }
  }

  // ---------------------------------------------------------------- the maps of a tag, in list order

  ghost predicate AllValid(list: seq<Map>, tags: Tags) {
    forall n :: 0 <= n < |list| ==> list[n].Valid(tags)
  }

  lemma ValidKept(list: seq<Map>, s: Tags, t: Tags)
    requires AllValid(list, s) && SameShape(s, t)
    ensures AllValid(list, t)
  {}

  /** The effect of `map_check` for the first `n` maps of a list. */
  ghost function Propagate(tags: Tags, list: seq<Map>, n: nat, offset: nat, length: nat): (r: Tags)
    requires AllValid(list, tags) && n <= |list|
    ensures SameShape(tags, r) && AllValid(list, r)
  {
    if n == 0 then tags
    else
      var r := Propagate(tags, list, n - 1, offset, length);
      ValidKept(list, tags, r);
      if list[n - 1].Overlaps(offset, length) then Mirror(r, list[n - 1]) else r
  }

  ghost predicate SrcBit(tags: Tags, m: Map, n: nat)
    requires m.Valid(tags) && n < m.Bits()
  {
    TagBit(tags, m.src.index, m.SrcFirst() + n)
  }

  ghost predicate DestBit(tags: Tags, m: Map, n: nat)
    requires m.Valid(tags) && n < m.Bits()
  {
    TagBit(tags, m.dest.index, m.DestFirst() + n)
  }

  /** The destination holds a copy of the source. */
  ghost predicate InSync(tags: Tags, m: Map)
    requires m.Valid(tags)
  {
    forall n :: 0 <= n < m.Bits() ==> DestBit(tags, m, n) == SrcBit(tags, m, n)
  }

  /** The destination of one map shares no bit with the destination, or the source, of another. */
  ghost predicate DestsApart(m: Map, o: Map) {
    || m.dest.index != o.dest.index
    || m.DestFirst() + m.Bits() <= o.DestFirst() || o.DestFirst() + o.Bits() <= m.DestFirst()
  }

  ghost predicate DestFromSrc(m: Map, o: Map) {
    m.dest.index != o.src.index || m.DestFirst() + m.Bits() <= o.SrcFirst() || o.SrcFirst() + o.Bits() <= m.DestFirst()
  }

  lemma MirrorSyncs(tags: Tags, m: Map)
    requires m.Valid(tags) && DestFromSrc(m, m)
    ensures m.Valid(Mirror(tags, m)) && InSync(Mirror(tags, m), m)
  {
    hide TagBit, Mirror;
    forall n | 0 <= n < m.Bits() ensures DestBit(Mirror(tags, m), m, n) == SrcBit(Mirror(tags, m), m, n) {
      MirrorBit(tags, m, m.dest.index, m.DestFirst() + n);
      MirrorBit(tags, m, m.src.index, m.SrcFirst() + n);
    }
  }

  lemma MirrorKeeps(tags: Tags, m: Map, o: Map)
    requires m.Valid(tags) && o.Valid(tags) && InSync(tags, o) && DestsApart(m, o) && DestFromSrc(m, o)
    ensures o.Valid(Mirror(tags, m)) && InSync(Mirror(tags, m), o)
  {
    hide TagBit, Mirror;
    forall n | 0 <= n < o.Bits() ensures DestBit(Mirror(tags, m), o, n) == SrcBit(Mirror(tags, m), o, n) {
      assert DestBit(tags, o, n) == SrcBit(tags, o, n);
      MirrorBit(tags, m, o.dest.index, o.DestFirst() + n);
      MirrorBit(tags, m, o.src.index, o.SrcFirst() + n);
    }
  }

  /** Every map keeps clear of `o`: its destination shares nothing with `o`, unless it is `o` itself. */
  ghost predicate Clear(list: seq<Map>, o: Map) {
    && DestFromSrc(o, o)
    && forall n :: 0 <= n < |list| ==> DestFromSrc(list[n], o) && (list[n] == o || DestsApart(list[n], o))
  }

  /** A map that was in step stays in step, and one that is hit comes into step. */
  lemma {:induction false} PropagateSyncs(tags: Tags, list: seq<Map>, n: nat, offset: nat, length: nat, o: Map)
    requires AllValid(list, tags) && n <= |list| && o.Valid(tags) && Clear(list, o)
    requires InSync(tags, o) || exists j :: 0 <= j < n && list[j] == o && o.Overlaps(offset, length)
    ensures o.Valid(Propagate(tags, list, n, offset, length)) && InSync(Propagate(tags, list, n, offset, length), o)
  {
    hide InSync, Mirror;
    if n > 0 {
      var m, r := list[n - 1], Propagate(tags, list, n - 1, offset, length);
      if m == o && m.Overlaps(offset, length) {
        MirrorSyncs(r, o);
      } else {
        PropagateSyncs(tags, list, n - 1, offset, length, o);
        if m.Overlaps(offset, length) { MirrorKeeps(r, m, o); }
      }
    }
  }

  /** Bits outside the destinations of the maps that are hit are left alone. */
  lemma {:induction false} PropagateOutside(tags: Tags, list: seq<Map>, n: nat, offset: nat, length: nat, i: nat,
                                            k: nat)
    requires AllValid(list, tags) && n <= |list| && i < |tags| && k < 8 * |tags[i]|
    requires forall j :: 0 <= j < n && list[j].Overlaps(offset, length) ==> !list[j].InDest(i, k)
    ensures TagBit(Propagate(tags, list, n, offset, length), i, k) == TagBit(tags, i, k)
  {
    hide TagBit, Mirror;
    if n > 0 {
      PropagateOutside(tags, list, n - 1, offset, length, i, k);
      MirrorBit(Propagate(tags, list, n - 1, offset, length), list[n - 1], i, k);
    }
  }

  // ---------------------------------------------------------------- runs

  /** A write, masked write or atomic operation on bytes of one tag. */
  datatype Step = Step(index: nat, offset: nat, length: nat)

  /** All maps of the server: each tag's list holds the maps that have it as their source, no list holds a
      map twice, and destinations share nothing with each other or with any source. */
  ghost predicate Separate(lists: seq<seq<Map>>) {
    && (forall i, n :: 0 <= i < |lists| && 0 <= n < |lists[i]| ==> lists[i][n].src.index == i)
    && (forall i, j, n :: 0 <= i < |lists| && 0 <= j < |lists| && 0 <= n < |lists[j]| ==> Clear(lists[i], lists[j][n]))
  }

  ghost predicate Consistent(lists: seq<seq<Map>>, tags: Tags) {
    |lists| == |tags| && forall i :: 0 <= i < |lists| ==> AllValid(lists[i], tags)
  }

  /** The step itself changes only bytes of its range, and no bit of a destination. */
  ghost predicate Changes(lists: seq<seq<Map>>, s: Tags, t: Tags, step: Step)
    requires Consistent(lists, s)
  {
    && SameShape(s, t) && step.index < |s|
    && (forall i :: 0 <= i < |s| && i != step.index ==> t[i] == s[i])
    && EventRuns.Agree(s[step.index], t[step.index], step.offset, step.length)
    && (forall i, n :: 0 <= i < |lists| && 0 <= n < |lists[i]| ==> Spares(s, t, lists[i][n]))
  }

  ghost predicate Spares(s: Tags, t: Tags, m: Map)
    requires m.Valid(s) && SameShape(s, t)
  {
    forall n :: 0 <= n < m.Bits() ==> DestBit(t, m, n) == DestBit(s, m, n)
  }

  /** One message: the change, and then the maps of the changed tag. */
  ghost predicate IsStep(lists: seq<seq<Map>>, s: Tags, mid: Tags, t: Tags, step: Step)
    requires Consistent(lists, s)
  {
    && Changes(lists, s, mid, step)
    && AllValid(lists[step.index], mid)
    && t == Propagate(mid, lists[step.index], |lists[step.index]|, step.offset, step.length)
  }

  /** What a message does to one map. */
  lemma StepSyncs(lists: seq<seq<Map>>, s: Tags, mid: Tags, t: Tags, step: Step, i: nat, n: nat)
    requires Separate(lists) && Consistent(lists, s) && IsStep(lists, s, mid, t, step) && i < |lists| && n < |lists[i]|
    requires InSync(s, lists[i][n]) || (i == step.index && lists[i][n].Overlaps(step.offset, step.length))
    ensures lists[i][n].Valid(t) && InSync(t, lists[i][n])
  {
    hide InSync, Propagate;
    var m, list := lists[i][n], lists[step.index];
    ValidKept(lists[i], s, mid);
    assert Clear(list, m);
    if i == step.index && m.Overlaps(step.offset, step.length) {
      assert list[n] == m;
    } else {
      SourceKept(lists, s, mid, step, i, n);
    }
    PropagateSyncs(mid, list, |list|, step.offset, step.length, m);
  }

  /** A change that does not hit a map leaves it in step. */
  lemma SourceKept(lists: seq<seq<Map>>, s: Tags, mid: Tags, step: Step, i: nat, n: nat)
    requires Separate(lists) && Consistent(lists, s) && Changes(lists, s, mid, step) && i < |lists| && n < |lists[i]|
    requires i != step.index || !lists[i][n].Overlaps(step.offset, step.length)
    requires InSync(s, lists[i][n])
    ensures lists[i][n].Valid(mid) && InSync(mid, lists[i][n])
  {
    var m := lists[i][n];
    hide TagBit;
    assert Spares(s, mid, m);
    assert m.src.index == i;
    forall b | 0 <= b < m.Bits() ensures DestBit(mid, m, b) == SrcBit(mid, m, b) {
      assert DestBit(s, m, b) == SrcBit(s, m, b);
      if i == step.index { UnhitSource(s, mid, m, step, b); }
    }
  }

  lemma UnhitSource(s: Tags, mid: Tags, m: Map, step: Step, b: nat)
    requires m.Valid(s) && SameShape(s, mid) && b < m.Bits() && m.src.index == step.index
    requires EventRuns.Agree(s[step.index], mid[step.index], step.offset, step.length)
    requires !m.Overlaps(step.offset, step.length)
    ensures SrcBit(mid, m, b) == SrcBit(s, m, b)
  {
    hide Bit;
    var k := m.SrcFirst() + b;
    assert m.src.byte <= k / 8 < m.src.byte + m.src.size;
  }

  /** A run of messages: `mids[i]` is the state between the change of step `i` and its maps. */
  ghost predicate IsRun(lists: seq<seq<Map>>, states: seq<Tags>, mids: seq<Tags>, steps: seq<Step>) {
    && |states| == |steps| + 1 == |mids| + 1 && Separate(lists)
    && (forall i :: 0 <= i < |states| ==> Consistent(lists, states[i]))
    && (forall i :: 0 <= i < |steps| ==> IsStep(lists, states[i], mids[i], states[i + 1], steps[i]))
  }

  /** Once a message has touched a map's source, its destination mirrors the source in every later state. */
  lemma {:induction false} AlwaysMirrored(lists: seq<seq<Map>>, states: seq<Tags>, mids: seq<Tags>, steps: seq<Step>,
                                          a: nat, b: nat, i: nat, n: nat)
    requires IsRun(lists, states, mids, steps) && a < b < |states| && i < |lists| && n < |lists[i]|
    requires steps[a].index == i && lists[i][n].Overlaps(steps[a].offset, steps[a].length)
    ensures InSync(states[b], lists[i][n])
    decreases b
  {
    hide InSync, IsStep;
    assert IsStep(lists, states[b - 1], mids[b - 1], states[b], steps[b - 1]);
    if b > a + 1 {
      AlwaysMirrored(lists, states, mids, steps, a, b - 1, i, n);
    }
    StepSyncs(lists, states[b - 1], mids[b - 1], states[b], steps[b - 1], i, n);
  }

  /** A message changes no bit outside its range that is not in a destination of a map it hits. */
  lemma OthersKept(lists: seq<seq<Map>>, states: seq<Tags>, mids: seq<Tags>, steps: seq<Step>, a: nat, i: nat, k: nat)
    requires IsRun(lists, states, mids, steps) && a < |steps| && i < |states[a]| && k < 8 * |states[a][i]|
    requires !(i == steps[a].index && steps[a].offset <= k / 8 < steps[a].offset + steps[a].length)
    requires forall n ::
      0 <= n < |lists[steps[a].index]| && lists[steps[a].index][n].Overlaps(steps[a].offset, steps[a].length) ==>
      !lists[steps[a].index][n].InDest(i, k)
    ensures SameShape(states[a], states[a + 1])
    ensures TagBit(states[a + 1], i, k) == TagBit(states[a], i, k)
  {
    var step := steps[a];
    assert IsStep(lists, states[a], mids[a], states[a + 1], step);
    var list := lists[step.index];
    PropagateOutside(mids[a], list, |list|, step.offset, step.length, i, k);
  }

  // ---------------------------------------------------------------- the server's objects

  /** A message that changes data of a tag. */
  datatype Change =
    | Write(offset: nat, bytes: seq<byte>)
    | MaskWrite(offset: nat, bytes: seq<byte>, mask: seq<byte>)
    | AtomicOp(what: Atomic.Operation, range: Atomic.Range, operand: seq<byte>)
  {
    function Offset(): nat { if AtomicOp? then range.byte else offset }

    function Length(): nat { if AtomicOp? then range.size else |bytes| }

    ghost predicate Fits(length: nat) {
      && Offset() + Length() <= length
      && (MaskWrite? ==> |mask| == |bytes|)
      && (AtomicOp? ==> range.Valid(length) && range.base !in {REAL, LREAL} &&
                        (what.Combine? ==> |operand| >= Atomic.OperandSize(range)))
    }

    /** What the change alone does to the tag. */
    ghost predicate Makes(before: seq<byte>, after: seq<byte>)
      requires Fits(|before|)
    {
      match this
      case Write(offset, bytes) => after == Written(before, offset, bytes)
      case MaskWrite(offset, bytes, mask) => after == MaskWritten(before, offset, bytes, mask)
      case AtomicOp(what, r, operand) =>
        match what
        case Invert => Atomic.Inverted(before, after, r.First(), r.Bits())
        case Combine(op) => Atomic.Computes(op, before, after, r, operand)
    }
  }

  class Server {
    const data: seq<array<byte>>
    const virtual: set<int>
    const readonly: set<int>
    var lists: seq<seq<Map>>
    var nextMap: seq<nat>

    ghost predicate Valid()
      reads this
    {
      && |lists| == |nextMap| == |data|
      && (forall i, j :: 0 <= i < j < |data| ==> data[i] != data[j])
      && (forall i, n :: 0 <= i < |lists| && 0 <= n < |lists[i]| ==> lists[i][n].id < nextMap[i])
      && (forall i, n :: 0 <= i < |lists| && 0 <= n < |lists[i]| ==> Permitted(lists[i][n]))
    }

    /** Virtual tags have no data to map, and clients do not write to read-only ones. */
    ghost predicate Permitted(m: Map) {
      m.src.index !in virtual && m.dest.index !in virtual && m.dest.index !in readonly
    }

    ghost function Buffers(): set<object> {
      set i | 0 <= i < |data| :: data[i]
    }

    ghost function Contents(): (tags: Tags)
      reads Buffers()
      ensures |tags| == |data|
    {
      seq(|data|, i requires 0 <= i < |data| reads Buffers() => data[i][..])
    }

    /** The handles that `map_add` refuses, in the order of its tests. */
    ghost function Refusal(src: Area, dest: Area): (err: int)
      ensures err == 0 ==> 0 <= src.index < |data| && 0 <= dest.index < |data|
    {
      if src.index < 0 || src.index >= |data| || dest.index < 0 || dest.index >= |data| then ERR_ARG
      else if src.index in virtual || dest.index in virtual then ERR_ILLEGAL
      else if dest.index in readonly then ERR_READONLY
      else if src.byte + src.size > data[src.index].Length || dest.byte + dest.size > data[dest.index].Length
              || src.size > dest.size then ERR_2BIG
      else 0
    }

    /** The bits of a BOOL map lie in the bytes of its handles, and its mask in a buffer of the source's size. */
    static ghost predicate MaskFits(src: Area, dest: Area) {
      src.IsBool() ==>
        src.bit < 8 && dest.bit < 8 && src.bit + src.count <= 8 * src.size && dest.bit + src.count <= 8 * src.size
    }

    /** The search for a duplicate. */
    static method Find(list: seq<Map>, src: Area, dest: Area) returns (k: nat)
      ensures k <= |list| && (k < |list| ==> list[k].src == src && list[k].dest == dest)
      ensures k == |list| ==> forall m :: m in list ==> !(m.src == src && m.dest == dest)
    {
      k := 0;
      while k < |list| && !(list[k].src == src && list[k].dest == dest)
        invariant k <= |list|
        invariant forall j :: 0 <= j < k ==> !(list[j].src == src && list[j].dest == dest)
      {
        k := k + 1;
      }
    }

    /** The tests at the start of `map_add`. */
    method CheckHandles(src: Area, dest: Area) returns (err: int)
      ensures err == Refusal(src, dest)
    {
      if src.index < 0 || src.index >= |data| {
        return ERR_ARG;
      }
      if dest.index < 0 || dest.index >= |data| {
        return ERR_ARG;
      }
      if src.index in virtual {
        return ERR_ILLEGAL;
      }
      if dest.index in virtual {
        return ERR_ILLEGAL;
      }
      if dest.index in readonly {
        return ERR_READONLY;
      }
      if src.byte + src.size > data[src.index].Length {
        return ERR_2BIG;
      }
      if dest.byte + dest.size > data[dest.index].Length {
        return ERR_2BIG;
      }
      if src.size > dest.size {
        return ERR_2BIG;
      }
      return 0;
    }

    /** `map_add`: a map between the two handles is in the list of the source's tag, unless they are refused. */
    method MapAdd(src: Area, dest: Area) returns (id: int)
      requires Valid() && MaskFits(src, dest) && Consistent(lists, Contents())
      modifies this`lists, this`nextMap
      ensures Valid() && Consistent(lists, Contents())
      ensures Refusal(src, dest) != 0 ==> id == Refusal(src, dest) && lists == old(lists)
      ensures Refusal(src, dest) == 0 ==>
        && (exists n :: 0 <= n < |lists[src.index]| &&
             lists[src.index][n].id == id && lists[src.index][n].src == src && lists[src.index][n].dest == dest)
        && (lists != old(lists) ==>
             && (forall m :: m in old(lists)[src.index] ==> m.id != id && !(m.src == src && m.dest == dest))
             && lists[src.index] != []
             && lists == old(lists)[src.index := [lists[src.index][0]] + old(lists)[src.index]])
    {
      hide IsMask;
      var err := CheckHandles(src, dest);
      if err != 0 {
        return err;
      }
      var list := lists[src.index];
      var k := Find(list, src, dest);
      if k < |list| {
        return list[k].id;
      }
      var mask := MaskFor(src, dest);
      var m := Map(nextMap[src.index], src, dest, mask);
      Prepend(m);
      assert lists[src.index][0] == m;
      id := m.id;
    }

    /** A BOOL map has a mask. */
    static method MaskFor(src: Area, dest: Area) returns (mask: Mask)
      requires MaskFits(src, dest)
      ensures if src.IsBool() then mask.Mask? && IsMask(mask.bytes, src.size, dest.bit, src.count) else mask == NoMask
    {
      mask := NoMask;
      if src.IsBool() {
        var buffer := BuildMask(src.size, dest.bit, src.count);
        mask := Mask(buffer[..]);
      }
    }

    /** The new map goes to the front of the list of its source. */
    method Prepend(m: Map)
      requires Valid() && Consistent(lists, Contents()) && m.Valid(Contents()) && Permitted(m)
      requires m.id == nextMap[m.src.index]
      modifies this`lists, this`nextMap
      ensures Valid() && Consistent(lists, Contents())
      ensures lists == old(lists)[m.src.index := [m] + old(lists)[m.src.index]]
    {
      var i := m.src.index;
      assert 0 <= i < |data|;
      ghost var tags := Contents();
      hide Map.Valid;
      nextMap := nextMap[i := nextMap[i] + 1];
      lists := lists[i := [m] + lists[i]];
      assert Contents() == tags;
    }

    /** `map_check` */
    method MapCheck(index: nat, offset: nat, length: nat)
      requires Valid() && index < |data| && AllValid(lists[index], Contents())
      modifies Buffers()
      ensures AllValid(lists[index], old(Contents()))
      ensures Contents() == Propagate(old(Contents()), lists[index], |lists[index]|, offset, length)
    {
      hide Mirror;
      ghost var before := Contents();
      var list := lists[index];
      for n := 0 to |list|
        invariant Contents() == Propagate(before, list, n, offset, length)
      {
        if list[n].Overlaps(offset, length) {
          Hit(list[n]);
        }
      }
    }

    /** One map that is hit. */
    method Hit(m: Map)
      requires Valid() && m.Valid(Contents())
      modifies Buffers()
      ensures m.Valid(old(Contents())) && Contents() == Mirror(old(Contents()), m)
    {
      hide MaskWritten, Written, Moved, BitAt;
      ghost var before := Contents();
      var source := data[m.src.index][m.src.byte..m.src.byte + m.src.size];
      assert source == before[m.src.index][m.src.byte..m.src.byte + m.src.size];
      if m.mask.Mask? {
        var moved := MoveBits(source, m.src.bit, m.dest.bit, m.src.count);
        MergeInto(data[m.dest.index], m.dest.byte, moved[..], m.mask.bytes);
      } else {
        CopyInto(data[m.dest.index], m.dest.byte, source);
      }
      assert Contents() == before[m.dest.index := Mirrored(before, m)];
    }

    /** The handlers of the three messages: the change, then the maps of the tag. */
    method Handle(index: nat, change: Change) returns (ghost mid: Tags)
      requires Valid() && Consistent(lists, Contents()) && index < |data| && change.Fits(data[index].Length)
      modifies Buffers()
      ensures |mid| == |data| && mid == old(Contents())[index := mid[index]] && SameShape(old(Contents()), mid)
      ensures change.Makes(old(Contents())[index], mid[index])
      ensures EventRuns.Agree(old(Contents())[index], mid[index], change.Offset(), change.Length())
      ensures AllValid(lists[index], mid)
      ensures Contents() == Propagate(mid, lists[index], |lists[index]|, change.Offset(), change.Length())
      ensures forall i :: 0 <= i < |data| && i != index && (i in readonly || i in virtual) ==>
        Contents()[i] == old(Contents())[i]
    {
      hide MaskWritten, Written, Atomic.Inverted, Atomic.Computes;
      ghost var before := Contents();
      Make(data[index], change);
      mid := Contents();
      assert mid == before[index := mid[index]];
      ValidKept(lists[index], before, mid);
      MapCheck(index, change.Offset(), change.Length());
      forall i | 0 <= i < |data| && i != index && (i in readonly || i in virtual)
        ensures Contents()[i] == before[i]
      {
        PropagateSpares(mid, lists[index], |lists[index]|, change.Offset(), change.Length(), i);
      }
    }
  }

  /** A tag that no map leads to is left alone. */
  lemma {:induction false} PropagateSpares(tags: Tags, list: seq<Map>, n: nat, offset: nat, length: nat, i: nat)
    requires AllValid(list, tags) && n <= |list| && i < |tags|
    requires forall k :: 0 <= k < |list| ==> list[k].dest.index != i
    ensures Propagate(tags, list, n, offset, length)[i] == tags[i]
  {
    hide Mirrored, AllValid;
    if n > 0 {
      PropagateSpares(tags, list, n - 1, offset, length, i);
    }
  }

  /** The change alone. */
  method Make(a: array<byte>, change: Change)
    requires change.Fits(a.Length)
    modifies a
    ensures change.Makes(old(a[..]), a[..])
    ensures EventRuns.Agree(old(a[..]), a[..], change.Offset(), change.Length())
  {
    hide Atomic.Inverted, Atomic.Computes, Merge;
    match change {
      case Write(offset, bytes) => CopyInto(a, offset, bytes);
      case MaskWrite(offset, bytes, mask) => MergeInto(a, offset, bytes, mask);
      case AtomicOp(what, r, operand) =>
        match what {
          case Invert => var err := Atomic.Not(a, r);
          case Combine(op) => var err := Atomic.Logic(op, a, r, operand);
        }
    }
  }

  // ---------------------------------------------------------------- runs of the objects

  /** A message to tag `index`. */
  datatype Job = Job(index: nat, change: Change) {
    function Touches(): Step { Step(index, change.Offset(), change.Length()) }
  }

  function Touched(jobs: seq<Job>): (steps: seq<Step>)
    ensures |steps| == |jobs| && forall i :: 0 <= i < |jobs| ==> steps[i] == jobs[i].Touches()
  {
    seq(|jobs|, i requires 0 <= i < |jobs| => jobs[i].Touches())
  }

  /** What one message does, whatever it writes to: the change of its tag, and then the maps of that tag. */
  ghost predicate Handled(lists: seq<seq<Map>>, s: Tags, mid: Tags, t: Tags, job: Job)
    requires Consistent(lists, s)
  {
    var step := job.Touches();
    && SameShape(s, mid) && step.index < |s| && mid == s[step.index := mid[step.index]]
    && job.change.Fits(|s[step.index]|) && job.change.Makes(s[step.index], mid[step.index])
    && EventRuns.Agree(s[step.index], mid[step.index], step.offset, step.length)
    && AllValid(lists[step.index], mid)
    && t == Propagate(mid, lists[step.index], |lists[step.index]|, step.offset, step.length)
  }

  /** The change writes to no bit of a destination. */
  ghost predicate SparesAll(lists: seq<seq<Map>>, s: Tags, mid: Tags)
    requires Consistent(lists, s) && SameShape(s, mid)
  {
    forall i, n :: 0 <= i < |lists| && 0 <= n < |lists[i]| ==> Spares(s, mid, lists[i][n])
  }

  lemma HandledIsStep(lists: seq<seq<Map>>, s: Tags, mid: Tags, t: Tags, job: Job)
    requires Consistent(lists, s) && Handled(lists, s, mid, t, job)
    ensures IsStep(lists, s, mid, t, job.Touches()) <==> SparesAll(lists, s, mid)
    ensures Consistent(lists, t) && SameShape(s, t)
  {
    hide Propagate, Spares, Change.Makes, Change.Fits, EventRuns.Agree;
    forall i | 0 <= i < |lists| ensures AllValid(lists[i], t) {
      ValidKept(lists[i], s, t);
    }
  }

  /** Any messages to the server: the states between and within them. */
  ghost predicate IsHistory(lists: seq<seq<Map>>, states: seq<Tags>, mids: seq<Tags>, jobs: seq<Job>) {
    && |states| == |jobs| + 1 == |mids| + 1
    && (forall i :: 0 <= i < |states| ==> Consistent(lists, states[i]))
    && (forall i :: 0 <= i < |jobs| ==> Handled(lists, states[i], mids[i], states[i + 1], jobs[i]))
  }

  /** Message `i` of a history writes to no destination itself. */
  ghost predicate SparesAt(lists: seq<seq<Map>>, states: seq<Tags>, mids: seq<Tags>, jobs: seq<Job>, i: nat)
    requires IsHistory(lists, states, mids, jobs) && i < |jobs|
  {
    assert Handled(lists, states[i], mids[i], states[i + 1], jobs[i]);
    SparesAll(lists, states[i], mids[i])
  }

  /** Where the maps are separate, a history is a run exactly when no message writes to a destination itself. */
  lemma HistoryIsRun(lists: seq<seq<Map>>, states: seq<Tags>, mids: seq<Tags>, jobs: seq<Job>)
    requires IsHistory(lists, states, mids, jobs) && Separate(lists)
    ensures IsRun(lists, states, mids, Touched(jobs)) <==>
      forall i :: 0 <= i < |jobs| ==> SparesAt(lists, states, mids, jobs, i)
  {
    hide IsStep, SparesAll, Separate, Propagate, Handled;
    var steps := Touched(jobs);
    forall i | 0 <= i < |jobs|
      ensures IsStep(lists, states[i], mids[i], states[i + 1], steps[i]) <==> SparesAt(lists, states, mids, jobs, i)
    {
      HandledIsStep(lists, states[i], mids[i], states[i + 1], jobs[i]);
    }
    if IsRun(lists, states, mids, steps) {
      forall i | 0 <= i < |jobs| ensures SparesAt(lists, states, mids, jobs, i) {
        assert IsStep(lists, states[i], mids[i], states[i + 1], steps[i]);
      }
    }
  }

  /** A message whose bytes are not those of any destination spares them all, as its handle alone can tell. */
  lemma OutsideSpares(lists: seq<seq<Map>>, s: Tags, mid: Tags, t: Tags, job: Job)
    requires Consistent(lists, s) && Handled(lists, s, mid, t, job)
    requires forall i, n :: 0 <= i < |lists| && 0 <= n < |lists[i]| ==> Beside(lists[i][n], job.Touches())
    ensures SparesAll(lists, s, mid)
  {
    hide Propagate, Change.Makes, Change.Fits, TagBit;
    forall i, n | 0 <= i < |lists| && 0 <= n < |lists[i]| ensures Spares(s, mid, lists[i][n]) {
      var m := lists[i][n];
      assert Beside(m, job.Touches());
      forall b | 0 <= b < m.Bits() ensures DestBit(mid, m, b) == DestBit(s, m, b) {
        BesideBit(s, mid, m, job.Touches(), b);
      }
    }
  }

  ghost predicate Beside(m: Map, step: Step) {
    || m.dest.index != step.index
    || 8 * (step.offset + step.length) <= m.DestFirst() || m.DestFirst() + m.Bits() <= 8 * step.offset
  }

  lemma BesideBit(s: Tags, mid: Tags, m: Map, step: Step, b: nat)
    requires m.Valid(s) && SameShape(s, mid) && b < m.Bits() && step.index < |s| && Beside(m, step)
    requires mid == s[step.index := mid[step.index]]
    requires EventRuns.Agree(s[step.index], mid[step.index], step.offset, step.length)
    ensures DestBit(mid, m, b) == DestBit(s, m, b)
  {
    hide Bit;
    var k := m.DestFirst() + b;
    assert m.dest.index == step.index ==> !(step.offset <= k / 8 < step.offset + step.length);
  }

  /** Any sequence of messages to the server is a history of its tags. */
  method Session(server: Server, jobs: seq<Job>) returns (ghost states: seq<Tags>, ghost mids: seq<Tags>)
    requires server.Valid() && Consistent(server.lists, server.Contents())
    requires forall i :: 0 <= i < |jobs| ==>
      jobs[i].index < |server.data| && jobs[i].change.Fits(server.data[jobs[i].index].Length)
    modifies server.Buffers()
    ensures server.Valid() && IsHistory(server.lists, states, mids, jobs)
    ensures states[0] == old(server.Contents()) && states[|jobs|] == server.Contents()
  {
    hide Handled, Change.Makes, Change.Fits, Propagate, AllValid;
    states, mids := [server.Contents()], [];
    ghost var lists := server.lists;
    for n := 0 to |jobs|
      invariant server.Valid() && server.lists == lists && |states| == n + 1 == |mids| + 1
      invariant states[0] == old(server.Contents()) && states[n] == server.Contents()
      invariant forall i :: 0 <= i <= n ==> Consistent(lists, states[i])
      invariant forall i :: 0 <= i < n ==> Handled(lists, states[i], mids[i], states[i + 1], jobs[i])
    {
      ghost var mid := HandleJob(server, jobs[n]);
      HandledIsStep(lists, states[n], mid, server.Contents(), jobs[n]);
      states, mids := states + [server.Contents()], mids + [mid];
    }
  }

  method HandleJob(server: Server, job: Job) returns (ghost mid: Tags)
    requires server.Valid() && Consistent(server.lists, server.Contents())
    requires job.index < |server.data| && job.change.Fits(server.data[job.index].Length)
    modifies server.Buffers()
    ensures Handled(server.lists, old(server.Contents()), mid, server.Contents(), job)
  {
    hide Change.Makes, Change.Fits, Propagate, EventRuns.Agree;
    mid := server.Handle(job.index, job.change);
  }
}
