/** Atomic operations on a range of a tag (src/server/atomic.c): NOT, and OR, AND and XOR with an
    operand that is shifted to the range's first bit and trimmed at both ends. */
module Atomic {
  import opened Common
  import opened Bits
  import opened Store
  import opened Types
  import opened Events
  import opened EventRuns

  datatype Op = Or | And | Xor

  /** The part of a tag that a handle addresses. */
  datatype Range = Range(byte: nat, bit: nat, count: nat, size: nat, base: Base) {
    /** A handle as `dax_tag_handle` fills it in, inside a tag of `length` bytes. */
    ghost predicate Valid(length: nat) {
      && byte + size <= length && size > 0
      && if base == BOOL then bit < 8 && count > 0 && size == (bit + count - 1) / 8 + 1 else bit == 0
    }

    /** The first addressed bit of the tag, and how many there are. */
    function First(): nat { 8 * byte + bit }

    function Bits(): nat { if base == BOOL then count else 8 * size }

    predicate Covers(k: int) { First() <= k < First() + Bits() }

    /** The operand has to be shifted or trimmed. */
    predicate Shifts() { base == BOOL && !(count % 8 == 0 && bit == 0) }

    /** The bits from which the first trimmed bit of the last byte is counted. */
    function Tail(): nat { (bit + count % 8) % 8 }
  }

  // ---------------------------------------------------------------- shifting bytes

  /** The low eight bits of `b << n`, one place at a time. */
  function Shl(b: byte, n: nat): byte {
    if n == 0 then b else Shl(b, n - 1) << 1
  }

  /** `b >> n` */
  function Shr(b: byte, n: nat): byte {
    if n == 0 then b else Shr(b, n - 1) >> 1
  }

  lemma OnePlace(b: byte, i: nat)
    requires i < 8
    ensures Bit(b << 1, i) == (i >= 1 && Bit(b, i - 1))
    ensures Bit(b >> 1, i) == (i + 1 < 8 && Bit(b, i + 1))
  {}

  lemma {:induction false} ShlBit(b: byte, n: nat, i: nat)
    requires i < 8
    ensures Bit(Shl(b, n), i) == (i >= n && Bit(b, i - n))
  {
    hide Bit;
    if n > 0 {
      OnePlace(Shl(b, n - 1), i);
      if i > 0 { ShlBit(b, n - 1, i - 1); }
    }
  }

  lemma {:induction false} ShrBit(b: byte, n: nat, i: nat)
    requires i < 8
    ensures Bit(Shr(b, n), i) == (i + n < 8 && Bit(b, i + n))
  {
    hide Bit;
    if n > 0 {
      OnePlace(Shr(b, n - 1), i);
      if i + 1 < 8 { ShrBit(b, n - 1, i + 1); }
    }
  }

  /** One byte of the shifted operand: the high bits of the byte below and the low bits of this one. */
  function Join(low: byte, high: byte, bit: nat): byte
    requires bit < 8
  {
    Shr(low, 8 - bit) | Shl(high, bit)
  }

  lemma JoinBit(low: byte, high: byte, bit: nat, i: nat)
    requires bit < 8 && i < 8
    ensures Bit(Join(low, high, bit), i) == if i >= bit then Bit(high, i - bit) else Bit(low, 8 + i - bit)
  {
    hide Bit;
    ShrBit(low, 8 - bit, i);
    ShlBit(high, bit, i);
    BitOps(Shr(low, 8 - bit), Shl(high, bit), i);
  }

  /** `src` moved up by `bit` places. */
  ghost predicate IsShifted(dest: seq<byte>, src: seq<byte>, bit: nat)
    requires |dest| <= |src|
  {
    forall k :: 0 <= k < 8 * |dest| ==> BitAt(dest, k) == (k >= bit && BitAt(src, k - bit))
  }

  /** `_left_shift` */
  method LeftShift(dest: array<byte>, src: seq<byte>, bit: nat)
    requires 0 < dest.Length <= |src| && bit < 8
    modifies dest
    ensures IsShifted(dest[..], src, bit)
  {
    hide Shl, Join, Bit;
    var n := dest.Length - 1;
    while n > 0
      invariant 0 <= n < dest.Length
      invariant forall j :: n < j < dest.Length ==> dest[j] == Join(src[j - 1], src[j], bit)
    {
      dest[n] := Join(src[n - 1], src[n], bit);
      n := n - 1;
    }
    dest[0] := Shl(src[0], bit);
    ghost var d := dest[..];
    forall k | 0 <= k < 8 * |d| ensures BitAt(d, k) == (k >= bit && BitAt(src, k - bit)) {
      ShiftedBit(d, src, bit, k);
    }
  }

  lemma ShiftedBit(dest: seq<byte>, src: seq<byte>, bit: nat, k: nat)
    requires 0 < |dest| <= |src| && bit < 8 && k < 8 * |dest|
    requires dest[0] == Shl(src[0], bit)
    requires forall j :: 0 < j < |dest| ==> dest[j] == Join(src[j - 1], src[j], bit)
    ensures BitAt(dest, k) == (k >= bit && BitAt(src, k - bit))
  {
    hide Shl, Join, Bit;
    var j, i := k / 8, k % 8;
    if j == 0 {
      ShlBit(src[0], bit, i);
    } else {
      JoinBit(src[j - 1], src[j], bit, i);
      if i >= bit {
        assert (k - bit) / 8 == j && (k - bit) % 8 == i - bit;
      } else {
        assert (k - bit) / 8 == j - 1 && (k - bit) % 8 == 8 + i - bit;
      }
    }
  }

  // ---------------------------------------------------------------- the operations

  /** The operation on one bit, and on the eight bits of a byte. */
  predicate Apply(op: Op, a: bool, b: bool) {
    match op
    case Or => a || b
    case And => a && b
    case Xor => a != b
  }

  function ApplyByte(op: Op, a: byte, b: byte): byte {
    match op
    case Or => a | b
    case And => a & b
    case Xor => a ^ b
  }

  /** Trimming: operand bits under the mask become ones that change nothing. */
  function Idle(op: Op, b: byte, mask: byte): byte {
    if op == And then b | mask else b & !mask
  }

  lemma ApplyBit(op: Op, a: byte, b: byte, i: nat)
    requires i < 8
    ensures Bit(ApplyByte(op, a, b), i) == Apply(op, Bit(a, i), Bit(b, i))
  {
    hide Bit;
    BitOps(a, b, i);
  }

  lemma IdleBit(op: Op, b: byte, mask: byte, i: nat)
    requires i < 8
    ensures Bit(Idle(op, b, mask), i) == if Bit(mask, i) then op == And else Bit(b, i)
  {
    hide Bit;
    BitOps(b, mask, i);
    BitOps(b, !mask, i);
    BitOps(mask, mask, i);
  }

  /** Bit `k` of the range's bytes is one that the trimmed operand can change. */
  predicate Acts(r: Range, k: int) {
    r.bit <= k < r.bit + r.count && (r.Tail() == 0 ==> k < 8 * (r.size - 1))
  }

  lemma TailMarks(r: Range, length: nat, k: nat)
    requires r.Valid(length) && r.base == BOOL && k < 8 * r.size
    ensures Acts(r, k) <==> k >= r.bit && !(k / 8 == r.size - 1 && k % 8 >= r.Tail())
  {
    var end := r.bit + r.count;
    ModSum(r.bit, r.count);
    LastByte(end, r.size - 1);
  }

  lemma ModSum(a: nat, b: nat)
    ensures (a + b % 8) % 8 == (a + b) % 8
  {
    assert a + b == a + b % 8 + 8 * (b / 8);
  }

  /** Where the bits before `end` stop within the last byte. */
  lemma LastByte(end: nat, last: nat)
    requires end > 0 && last == (end - 1) / 8
    ensures end % 8 == 0 ==> end == 8 * last + 8
    ensures end % 8 != 0 ==> end == 8 * last + end % 8
  {}

  /** The operand as it meets the range's bytes: shifted, then trimmed at both ends. */
  method Prepare(op: Op, r: Range, operand: seq<byte>, ghost length: nat) returns (temp: array<byte>)
    requires r.Valid(length) && r.Shifts() && |operand| >= r.size
    ensures fresh(temp) && temp.Length == r.size
    ensures forall k :: 0 <= k < 8 * r.size ==>
      BitAt(temp[..], k) == if Acts(r, k) then BitAt(operand, k - r.bit) else op == And
  {
    hide Bit, Shl, Shr, Idle;
    temp := new byte[r.size];
    LeftShift(temp, operand, r.bit);
    ghost var shifted := temp[..];
    var hmask := Shl(0xFF, r.Tail());
    var lmask := Shr(0xFF, 8 - r.bit);
    temp[r.size - 1] := Idle(op, temp[r.size - 1], hmask);
    temp[0] := Idle(op, temp[0], lmask);
    ghost var t := temp[..];
    forall k | 0 <= k < 8 * r.size
      ensures BitAt(t, k) == if Acts(r, k) then BitAt(operand, k - r.bit) else op == And
    {
      TrimmedBit(op, r, operand, length, shifted, t, k);
    }
  }

  lemma TrimmedBit(op: Op, r: Range, operand: seq<byte>, length: nat, shifted: seq<byte>, temp: seq<byte>, k: nat)
    requires r.Valid(length) && r.base == BOOL && |operand| >= r.size == |shifted| == |temp| && k < 8 * r.size
    requires IsShifted(shifted, operand, r.bit)
    requires temp == Trimmed(op, shifted, Shl(0xFF, r.Tail()), Shr(0xFF, 8 - r.bit))
    ensures BitAt(temp, k) == if Acts(r, k) then BitAt(operand, k - r.bit) else op == And
  {
    hide Bit, Shl, Shr, Idle, Acts;
    var j, i := k / 8, k % 8;
    var hmask, lmask := Shl(0xFF, r.Tail()), Shr(0xFF, 8 - r.bit);
    TailMarks(r, length, k);
    MaskShapes(r.Tail(), r.bit, i);
    var last := r.size - 1;
    IdleBit(op, shifted[last], hmask, i);
    IdleBit(op, shifted[0], lmask, i);
    IdleBit(op, Idle(op, shifted[0], hmask), lmask, i);
    assert BitAt(shifted, k) == (k >= r.bit && BitAt(operand, k - r.bit));
  }

  function Trimmed(op: Op, s: seq<byte>, hmask: byte, lmask: byte): (t: seq<byte>)
    requires |s| > 0
    ensures |t| == |s|
  {
    var u := s[|s| - 1 := Idle(op, s[|s| - 1], hmask)];
    u[0 := Idle(op, u[0], lmask)]
  }

  /** The high mask begins at its place and the low one ends below it. */
  lemma MaskShapes(tail: nat, bit: nat, i: nat)
    requires tail < 8 && bit < 8 && i < 8
    ensures Bit(Shl(0xFF, tail), i) == (i >= tail)
    ensures Bit(Shr(0xFF, 8 - bit), i) == (i < bit)
  {
    hide Bit;
    ShlBit(0xFF, tail, i);
    ShrBit(0xFF, 8 - bit, i);
    forall j | 0 <= j < 8 ensures Bit(0xFF, j) { ConstBits(j); }
  }

  // ---------------------------------------------------------------- what the code computes, and what is meant

  /** Bit `k` of the tag is combined with an operand bit, and with which one. */
  predicate ActsOn(r: Range, k: int) {
    if r.Shifts() then Acts(r, k - 8 * r.byte) else 8 * r.byte <= k < 8 * (r.byte + r.size)
  }

  function Meets(r: Range, k: int): int {
    if r.Shifts() then k - r.First() else k
  }

  /** How much of the operand is read: whole bytes are taken from the range's own offset. */
  function OperandSize(r: Range): nat {
    if r.Shifts() then r.size else r.byte + r.size
  }

  ghost predicate Computes(op: Op, before: seq<byte>, after: seq<byte>, r: Range, operand: seq<byte>)
    requires r.Valid(|before|) && |operand| >= OperandSize(r)
  {
    && |after| == |before|
    && forall k :: 0 <= k < 8 * |before| ==>
         BitAt(after, k) ==
           if ActsOn(r, k) then Apply(op, BitAt(before, k), BitAt(operand, Meets(r, k))) else BitAt(before, k)
  }

  /** Operand bit `n` meets the range's bit `n`, and nothing else changes. */
  ghost predicate Intended(op: Op, before: seq<byte>, after: seq<byte>, r: Range, operand: seq<byte>)
    requires r.Valid(|before|) && |operand| >= OperandSize(r)
  {
    && |after| == |before|
    && forall k :: 0 <= k < 8 * |before| ==>
         BitAt(after, k) ==
           if r.Covers(k) then Apply(op, BitAt(before, k), BitAt(operand, k - r.First())) else BitAt(before, k)
  }

  /** The ranges on which they agree. */
  predicate Right(r: Range) {
    if r.Shifts() then (r.bit + r.count) % 8 != 0 else r.byte == 0
  }

  /** `_atomic_or`, `_atomic_and` and `_atomic_xor` */
  method Logic(op: Op, data: array<byte>, r: Range, operand: seq<byte>) returns (err: int)
    requires r.Valid(data.Length) && |operand| >= OperandSize(r)
    modifies data
    ensures err == if r.base in {REAL, LREAL} then ERR_BADTYPE else 0
    ensures err == 0 ==> Computes(op, old(data[..]), data[..], r, operand)
    ensures err != 0 ==> data[..] == old(data[..])
    ensures Agree(old(data[..]), data[..], r.byte, r.size)
  {
    hide Computes;
    if r.base == REAL || r.base == LREAL {
      return ERR_BADTYPE;
    }
    if r.base == BOOL && !(r.count % 8 == 0 && r.bit == 0) {
      LogicShifted(op, data, r, operand);
    } else {
      LogicBytes(op, data, r, operand);
    }
    err := 0;
  }

  method LogicShifted(op: Op, data: array<byte>, r: Range, operand: seq<byte>)
    requires r.Valid(data.Length) && r.Shifts() && |operand| >= r.size
    modifies data
    ensures Computes(op, old(data[..]), data[..], r, operand)
    ensures Agree(old(data[..]), data[..], r.byte, r.size)
  {
    hide Computes, ApplyByte, BitAt, Acts;
    ghost var before := data[..];
    var temp := Prepare(op, r, operand, data.Length);
    ghost var t := temp[..];
    CombineInto(op, data, r, t, temp);
    CombinedShifted(op, before, data[..], r, operand, t);
  }

  method LogicBytes(op: Op, data: array<byte>, r: Range, operand: seq<byte>)
    requires r.Valid(data.Length) && !r.Shifts() && |operand| >= r.byte + r.size
    modifies data
    ensures Computes(op, old(data[..]), data[..], r, operand)
    ensures Agree(old(data[..]), data[..], r.byte, r.size)
  {
    hide Bit, ApplyByte, Apply;
    ghost var before := data[..];
    for n := 0 to r.size
      invariant forall j :: 0 <= j < data.Length ==>
        data[j] == if r.byte <= j < r.byte + n then ApplyByte(op, before[j], operand[j]) else before[j]
    {
      data[r.byte + n] := ApplyByte(op, data[r.byte + n], operand[r.byte + n]);
    }
    ghost var after := data[..];
    forall k | 0 <= k < 8 * |before|
      ensures BitAt(after, k) ==
        if ActsOn(r, k) then Apply(op, BitAt(before, k), BitAt(operand, k)) else BitAt(before, k)
    {
      if ActsOn(r, k) { ApplyBit(op, before[k / 8], operand[k / 8], k % 8); }
    }
  }

  /** The loop that combines the prepared operand with the tag. */
  method CombineInto(op: Op, data: array<byte>, r: Range, ghost t: seq<byte>, temp: array<byte>)
    requires r.byte + r.size <= data.Length && temp.Length == r.size && t == temp[..] && temp != data
    modifies data
    ensures forall j :: 0 <= j < data.Length ==>
      data[j] == if r.byte <= j < r.byte + r.size then ApplyByte(op, old(data[j]), t[j - r.byte]) else old(data[j])
  {
    hide ApplyByte;
    for n := 0 to r.size
      invariant forall j :: 0 <= j < data.Length ==>
        data[j] == if r.byte <= j < r.byte + n then ApplyByte(op, old(data[j]), t[j - r.byte]) else old(data[j])
    {
      data[r.byte + n] := ApplyByte(op, data[r.byte + n], temp[n]);
    }
  }

  lemma CombinedShifted(op: Op, before: seq<byte>, after: seq<byte>, r: Range, operand: seq<byte>, temp: seq<byte>)
    requires r.Valid(|before|) && r.Shifts() && |operand| >= r.size == |temp| && |after| == |before|
    requires forall j :: 0 <= j < |before| ==>
      after[j] == if r.byte <= j < r.byte + r.size then ApplyByte(op, before[j], temp[j - r.byte]) else before[j]
    requires forall k :: 0 <= k < 8 * r.size ==>
      BitAt(temp, k) == if Acts(r, k) then BitAt(operand, k - r.bit) else op == And
    ensures Computes(op, before, after, r, operand)
  {
    hide BitAt, ApplyByte, Apply;
    forall k | 0 <= k < 8 * |before|
      ensures BitAt(after, k) ==
        if Acts(r, k - 8 * r.byte) then Apply(op, BitAt(before, k), BitAt(operand, k - r.First())) else BitAt(before, k)
    {
      ShiftedCase(op, before, after, r, operand, temp, k);
    }
  }

  lemma ShiftedCase(op: Op, before: seq<byte>, after: seq<byte>, r: Range, operand: seq<byte>, temp: seq<byte>, k: nat)
    requires r.Valid(|before|) && r.Shifts() && |operand| >= r.size == |temp| && |after| == |before| && k < 8 * |before|
    requires forall j :: 0 <= j < |before| ==>
      after[j] == if r.byte <= j < r.byte + r.size then ApplyByte(op, before[j], temp[j - r.byte]) else before[j]
    requires forall k :: 0 <= k < 8 * r.size ==>
      BitAt(temp, k) == if Acts(r, k) then BitAt(operand, k - r.bit) else op == And
    ensures BitAt(after, k) ==
      if Acts(r, k - 8 * r.byte) then Apply(op, BitAt(before, k), BitAt(operand, k - r.First())) else BitAt(before, k)
  {
    hide Bit, ApplyByte;
    var j, i := k / 8, k % 8;
    if r.byte <= j < r.byte + r.size {
      var m := k - 8 * r.byte;
      assert m / 8 == j - r.byte && m % 8 == i;
      ApplyBit(op, before[j], temp[j - r.byte], i);
      assert BitAt(temp, m) == if Acts(r, m) then BitAt(operand, m - r.bit) else op == And;
    }
  }

  /** The operation does what is meant on all contents and operands exactly on the right ranges:
      a shifted range that ends within its last byte, or whole bytes at the start of the tag. */
  lemma Exact(op: Op, r: Range, length: nat)
    requires r.Valid(length)
    ensures (forall before, after, operand ::
               |before| == length && |operand| >= OperandSize(r) && Computes(op, before, after, r, operand) ==>
                 Intended(op, before, after, r, operand)) <==> Right(r)
  {
    hide Bit;
    if Right(r) {
      forall before, after, operand |
        |before| == length && |operand| >= OperandSize(r) && Computes(op, before, after, r, operand)
        ensures Intended(op, before, after, r, operand)
      {
        RightRange(op, before, after, r, operand);
      }
    } else {
      var before, operand := WrongCase(op, r, length);
    }
  }

  lemma RightRange(op: Op, before: seq<byte>, after: seq<byte>, r: Range, operand: seq<byte>)
    requires r.Valid(|before|) && |operand| >= OperandSize(r) && Right(r)
    requires Computes(op, before, after, r, operand)
    ensures Intended(op, before, after, r, operand)
  {
    hide BitAt, Apply;
    if r.Shifts() { ModSum(r.bit, r.count); }
  }

  lemma IdleBuffer(op: Op, n: nat)
    ensures var s := Copies<byte>(n, if op == And then 0xFF else 0);
      forall k :: 0 <= k < 8 * n ==> BitAt(s, k) == (op == And)
  {
    hide Bit;
    forall i | 0 <= i < 8 ensures !Bit(0, i) && Bit(0xFF, i) { ConstBits(i); }
  }

  lemma IdleButOne(op: Op, n: nat, p: nat)
    requires p < 8 * n
    ensures var s := FlippedBit(Copies<byte>(n, if op == And then 0xFF else 0), p);
      forall k :: 0 <= k < 8 * n ==> BitAt(s, k) == ((op == And) != (k == p))
  {
    hide Bit, BitAt, FlippedBit;
    var plain := Copies<byte>(n, if op == And then 0xFF else 0);
    IdleBuffer(op, n);
    forall k | 0 <= k < 8 * n ensures BitAt(FlippedBit(plain, p), k) == ((op == And) != (k == p)) {
      OneBit(plain, p, k);
    }
  }

  /** On any other range some operand is ignored where it should act. */
  lemma WrongCase(op: Op, r: Range, length: nat) returns (before: seq<byte>, operand: seq<byte>)
    requires r.Valid(length) && !Right(r)
    ensures |before| == length && |operand| >= OperandSize(r)
    ensures Computes(op, before, before, r, operand) && !Intended(op, before, before, r, operand)
  {
    hide BitAt, FlippedBit;
    var idle := if op == And then 0xFF else 0;
    before := Copies<byte>(length, idle);
    var plain := Copies<byte>(OperandSize(r), idle);
    var p := if r.Shifts() then r.count - 1 else 0;
    operand := FlippedBit(plain, p);
    if r.Shifts() { ModSum(r.bit, r.count); LastByte(r.bit + r.count, r.size - 1); }
    IdleBuffer(op, length);
    IdleButOne(op, OperandSize(r), p);
    var k := r.First() + p;
    assert r.Covers(k) && !Apply(op, op == And, op == And) == Apply(op, op == And, op != And);
    assert BitAt(before, k) != Apply(op, BitAt(before, k), BitAt(operand, k - r.First()));
  }

  // ---------------------------------------------------------------- NOT

  /** The `n` bits from `first` are inverted and no others. */
  ghost predicate Inverted(before: seq<byte>, after: seq<byte>, first: nat, n: nat) {
    |after| == |before| &&
    forall k :: 0 <= k < 8 * |before| ==> BitAt(after, k) == (BitAt(before, k) != (first <= k < first + n))
  }

  /** `_atomic_not` */
  method Not(data: array<byte>, r: Range) returns (err: int)
    requires r.Valid(data.Length)
    modifies data
    ensures err == if r.base in {REAL, LREAL} then ERR_BADTYPE else 0
    ensures err == 0 ==> Inverted(old(data[..]), data[..], r.First(), r.Bits())
    ensures err != 0 ==> data[..] == old(data[..])
    ensures Agree(old(data[..]), data[..], r.byte, r.size)
  {
    hide Inverted, Flip;
    if r.base == REAL || r.base == LREAL {
      return ERR_BADTYPE;
    }
    if r.base == BOOL {
      NotBits(data, r);
    } else {
      NotBytes(data, r);
    }
    err := 0;
  }

  method NotBits(data: array<byte>, r: Range)
    requires r.Valid(data.Length) && r.base == BOOL
    modifies data
    ensures Inverted(old(data[..]), data[..], r.First(), r.count)
    ensures Agree(old(data[..]), data[..], r.byte, r.size)
  {
    hide BitAt;
    ghost var before := data[..];
    var byte, bit := r.byte, r.bit;
    for n := 0 to r.count
      invariant 8 * byte + bit == r.First() + n && bit < 8
      invariant Inverted(before, data[..], r.First(), n)
      invariant Agree(before, data[..], r.byte, r.size)
    {
      FlipNext(data, byte, bit, r.First() + n, before, r);
      bit := bit + 1;
      if bit == 8 {
        byte := byte + 1;
        bit := 0;
      }
    }
  }

  method NotBytes(data: array<byte>, r: Range)
    requires r.Valid(data.Length) && r.base != BOOL
    modifies data
    ensures Inverted(old(data[..]), data[..], r.First(), 8 * r.size)
    ensures Agree(old(data[..]), data[..], r.byte, r.size)
  {
    hide Bit, Complement;
    ghost var before := data[..];
    for n := 0 to r.size
      invariant forall j :: 0 <= j < data.Length ==>
        data[j] == if r.byte <= j < r.byte + n then Complement(before[j]) else before[j]
    {
      data[r.byte + n] := Complement(data[r.byte + n]);
    }
    ghost var after := data[..];
    forall k | 0 <= k < 8 * |before|
      ensures BitAt(after, k) == (BitAt(before, k) != (r.First() <= k < r.First() + 8 * r.size))
    {
      ComplementBit(before[k / 8], k % 8);
    }
  }

  function Complement(b: byte): byte { !b }

  lemma ComplementBit(b: byte, i: nat)
    requires i < 8
    ensures Bit(Complement(b), i) == !Bit(b, i)
  {
    hide Bit;
    BitOps(b, b, i);
  }

  /** One turn of the loop: the next bit is inverted. */
  method FlipNext(data: array<byte>, byte: nat, bit: nat, ghost p: nat, ghost before: seq<byte>, ghost r: Range)
    requires bit < 8 && p == 8 * byte + bit && r.byte <= byte < r.byte + r.size && p < 8 * data.Length
    requires Agree(before, data[..], r.byte, r.size)
    modifies data
    ensures forall k :: 0 <= k < 8 * data.Length ==> BitAt(data[..], k) == (BitAt(old(data[..]), k) != (k == p))
    ensures Agree(before, data[..], r.byte, r.size)
  {
    hide Bit, Flip;
    ghost var was := data[..];
    data[byte] := Flip(data[byte], bit);
    assert data[..] == FlippedBit(was, p);
    forall k | 0 <= k < 8 * data.Length ensures BitAt(data[..], k) == (BitAt(was, k) != (k == p)) {
      OneBit(was, p, k);
    }
  }

  // ---------------------------------------------------------------- the server's step

  datatype Operation = Invert | Combine(op: Op)

  /** `atomic_op` on a tag of a base type: the operation, then the tag's events as after a write of the
      range's bytes. */
  method Perform(tag: Tag, what: Operation, r: Range, operand: seq<byte>) returns (err: int, sent: seq<bool>)
    requires tag.Valid() && tag.Ready(r.byte) && r.Valid(tag.data.Length)
    requires what.Combine? ==> |operand| >= OperandSize(r)
    modifies tag.data, tag.Buffers()
    ensures err == if r.base in {REAL, LREAL} then ERR_BADTYPE else 0
    ensures err == 0 && what.Invert? ==> Inverted(old(tag.data[..]), tag.data[..], r.First(), r.Bits())
    ensures err == 0 && what.Combine? ==> Computes(what.op, old(tag.data[..]), tag.data[..], r, operand)
    ensures err != 0 ==> tag.data[..] == old(tag.data[..]) && sent == []
    ensures Agree(old(tag.data[..]), tag.data[..], r.byte, r.size)
    ensures err == 0 ==> |sent| == |tag.events| && forall i :: 0 <= i < |tag.events| ==>
      Reacts(tag.events[i].watch, old(tag.events[i].test[..]), tag.data[..], r.byte, r.size, tag.events[i].test[..],
             sent[i])
  {
    hide Reacts, Applicable, Computes, Inverted;
    match what {
      case Invert => err := Not(tag.data, r);
      case Combine(op) => err := Logic(op, tag.data, r, operand);
    }
    sent := [];
    if err == 0 {
      sent := tag.EventCheck(r.byte, r.size);
    }
  }
}
