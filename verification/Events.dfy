/** The event engine (src/server/events.c).  An event watches part of a tag and keeps private state that
    every write to the tag must bring up to date: a copy of the data, one latch per item, or the values
    last reported. */
module Events {
  import opened Bits
  import opened Types

  datatype Kind = Write | Change | SetBit | ResetBit | Equal | Greater | Less | Deadband

  /** What an event watches (`_dax_event`).  `base` is the element type; a compound type is watched as BYTEs. */
  datatype Watch = Watch(kind: Kind, byte: nat, bit: nat, count: nat, size: nat, base: Base, operand: seq<byte>) {

    function Width(): nat { BaseBits(base) / 8 }

    predicate IsBool() { base == BOOL }

    /** Events that `event_add` accepts on a tag of `length` bytes. */
    ghost predicate Valid(length: nat) {
      && size > 0 && byte + size <= length
      && (IsBool() ==> bit < 8 && count > 0 && bit + count <= 8 * size)
      && match kind
         case Write | Change => true
         case SetBit | ResetBit => IsBool()
         case _ => Numeric() && size == Width() * count && |operand| >= Width()
    }

    /** The private buffer is large enough for what the handlers touch. */
    ghost predicate Room(testSize: nat) {
      match kind
      case Write => true
      case Change => if IsBool() then bit + count <= 8 * testSize else testSize == size
      case SetBit | ResetBit => bit + count <= 8 * testSize
      case Deadband => testSize == size
      case _ => count <= 8 * testSize
    }

    /** Integer elements; the deadband and comparison of reals are not modelled. */
    ghost predicate Numeric() {
      base !in {BOOL, REAL, LREAL} && count > 0
    }

    /** The test of `event_check`: the written bytes and the watched ones intersect. */
    predicate Overlaps(offset: nat, length: nat) {
      offset <= byte + size - 1 && offset + length - 1 >= byte
    }
  }

  // ---------------------------------------------------------------- watched bits

  /** Bit `m` of a watched BOOL range, in the tag and in the private buffer. */
  predicate DataBit(w: Watch, data: seq<byte>, m: nat)
    requires w.byte + w.size <= |data| && w.bit + m < 8 * w.size
  {
    BitAt(data, 8 * w.byte + w.bit + m)
  }

  predicate TestBit(w: Watch, test: seq<byte>, m: nat)
    requires w.bit + m < 8 * |test|
  {
    BitAt(test, w.bit + m)
  }

  /** The watched bits of the copy are those of the tag. */
  ghost predicate SameBits(w: Watch, test: seq<byte>, data: seq<byte>)
    requires w.byte + w.size <= |data| && w.bit + w.count <= 8 * w.size && w.bit + w.count <= 8 * |test|
  {
    forall m :: 0 <= m < w.count ==> TestBit(w, test, m) == DataBit(w, data, m)
  }

  /** `_event_change` on a BOOL range: a byte with a changed bit is copied whole. */
  method ChangeBits(w: Watch, test: array<byte>, data: array<byte>) returns (hit: bool)
    requires w.IsBool() && w.kind in {Change, SetBit, ResetBit} && w.Valid(data.Length) && w.Room(test.Length)
    requires test != data
    modifies test
    ensures SameBits(w, test[..], data[..])
    ensures hit <==> !SameBits(w, old(test[..]), data[..])
  {
    hide Bit, TestBit, DataBit;
    hit := false;
    var bit, i := w.bit, 0;
    ghost var was, now := test[..], data[..];
    for n := 0 to w.count
      invariant bit < 8 && 8 * i + bit == w.bit + n
      invariant data[..] == now
      invariant forall m :: 0 <= m < n ==> TestBit(w, test[..], m) == DataBit(w, now, m)
      invariant hit <==> exists m :: 0 <= m < n && TestBit(w, was, m) != DataBit(w, now, m)
      invariant forall m :: n <= m < w.count ==>
        TestBit(w, test[..], m) == TestBit(w, was, m) || (hit && TestBit(w, test[..], m) == DataBit(w, now, m))
    {
      Here(w, test[..], now, n, i, bit);
      if Bit(test[i], bit) != Bit(data[w.byte + i], bit) {
        ghost var before := test[..];
        test[i] := data[w.byte + i];
        CopyByte(w, before, test[..], now, i);
        hit := true;
      }
      bit := bit + 1;
      if bit == 8 {
        bit := 0;
        i := i + 1;
      }
    }
  }

  /** The bit and byte counters of the loops select watched bit `m`. */
  lemma Here(w: Watch, test: seq<byte>, data: seq<byte>, m: nat, i: nat, bit: nat)
    requires w.byte + w.size <= |data| && w.bit + m < 8 * w.size && w.bit + m < 8 * |test|
    requires bit < 8 && 8 * i + bit == w.bit + m
    ensures i < |test| && w.byte + i < |data|
    ensures TestBit(w, test, m) == Bit(test[i], bit) && DataBit(w, data, m) == Bit(data[w.byte + i], bit)
  {
    hide Bit;
  }

  lemma CopyByte(w: Watch, before: seq<byte>, after: seq<byte>, data: seq<byte>, i: nat)
    requires w.byte + w.size <= |data| && w.bit + w.count <= 8 * w.size && w.bit + w.count <= 8 * |before|
    requires i < |before| && i < w.size && after == before[i := data[w.byte + i]]
    ensures forall m :: 0 <= m < w.count ==>
      TestBit(w, after, m) == if (w.bit + m) / 8 == i then DataBit(w, data, m) else TestBit(w, before, m)
  {
    hide Bit;
  }

  function Max(a: int, b: int): int { if a > b then a else b }
  function Min(a: int, b: int): int { if a < b then a else b }

  /** `_event_change` on anything else: the overlapping bytes are compared and copied. */
  method ChangeBytes(w: Watch, test: array<byte>, data: array<byte>, offset: nat, length: nat) returns (hit: bool)
    requires w.Valid(data.Length) && test.Length == w.size && test != data && w.Overlaps(offset, length)
    modifies test
    ensures forall k :: 0 <= k < w.size ==>
      test[k] == if offset <= w.byte + k < offset + length then data[w.byte + k] else old(test[k])
    ensures hit <==>
      exists k :: 0 <= k < w.size && offset <= w.byte + k < offset + length && old(test[k]) != data[w.byte + k]
  {
    hit := false;
    var start := Max(0, offset - w.byte);
    var len := Min(w.byte + w.size, offset + length) - Max(offset, w.byte);
    for n := 0 to len
      invariant forall k :: 0 <= k < w.size ==>
        test[k] == if start <= k < start + n then data[w.byte + k] else old(test[k])
      invariant hit <==> exists k :: start <= k < start + n && old(test[k]) != data[w.byte + k]
    {
      if test[start + n] != data[Max(offset, w.byte) + n] {
        hit := true;
        test[start + n] := data[Max(offset, w.byte) + n];
      }
    }
  }

  /** The latches of SET and RESET: bit `m` is latched when the watched bit is `want`. */
  ghost predicate Latched(w: Watch, test: seq<byte>, data: seq<byte>, want: bool)
    requires w.byte + w.size <= |data| && w.bit + w.count <= 8 * w.size && w.bit + w.count <= 8 * |test|
  {
    forall m :: 0 <= m < w.count ==> TestBit(w, test, m) == (DataBit(w, data, m) == want)
  }

  /** `_event_set` (`want` is true) and `_event_reset` (`want` is false) */
  method EdgeBits(w: Watch, test: array<byte>, data: array<byte>, want: bool) returns (hit: bool)
    requires w.IsBool() && w.kind in {Change, SetBit, ResetBit} && w.Valid(data.Length) && w.Room(test.Length)
    requires test != data
    modifies test
    ensures Latched(w, test[..], data[..], want)
    ensures hit <==> exists m :: 0 <= m < w.count && DataBit(w, data[..], m) == want && !TestBit(w, old(test[..]), m)
  {
    hide Bit, TestBit, DataBit, Set, Clear;
    hit := false;
    var bit, i := w.bit, 0;
    ghost var was, now := test[..], data[..];
    for n := 0 to w.count
      invariant bit < 8 && 8 * i + bit == w.bit + n
      invariant data[..] == now
      invariant forall m :: 0 <= m < n ==> TestBit(w, test[..], m) == (DataBit(w, now, m) == want)
      invariant forall m :: n <= m < w.count ==> TestBit(w, test[..], m) == TestBit(w, was, m)
      invariant hit <==> exists m :: 0 <= m < n && DataBit(w, now, m) == want && !TestBit(w, was, m)
    {
      Here(w, test[..], now, n, i, bit);
      ghost var before := test[..];
      if Bit(data[w.byte + i], bit) == want {
        if !Bit(test[i], bit) {
          hit := true;
          test[i] := Set(test[i], bit);
          LatchBit(w, before, n, i, bit);
        }
      } else {
        test[i] := Clear(test[i], bit);
        LatchBit(w, before, n, i, bit);
      }
      bit := bit + 1;
      if bit == 8 {
        bit := 0;
        i := i + 1;
      }
    }
  }

  lemma LatchBit(w: Watch, test: seq<byte>, m: nat, i: nat, bit: nat)
    requires w.bit + w.count <= 8 * |test| && m < w.count && bit < 8 && 8 * i + bit == w.bit + m
    ensures forall k :: 0 <= k < w.count ==>
      && TestBit(w, test[i := Set(test[i], bit)], k) == (k == m || TestBit(w, test, k))
      && TestBit(w, test[i := Clear(test[i], bit)], k) == (k != m && TestBit(w, test, k))
  {
    hide Bit, Set, Clear;
    forall k | 0 <= k < w.count
      ensures TestBit(w, test[i := Set(test[i], bit)], k) == (k == m || TestBit(w, test, k))
      ensures TestBit(w, test[i := Clear(test[i], bit)], k) == (k != m && TestBit(w, test, k))
    {
      OneBit(test, w.bit + m, w.bit + k);
    }
  }

  // ---------------------------------------------------------------- watched elements

  function LittleEndian(s: seq<byte>): nat {
    if s == [] then 0 else (s[0] as nat) + 256 * LittleEndian(s[1..])
  }

  function Power256(n: nat): nat {
    if n == 0 then 1 else 256 * Power256(n - 1)
  }

  /** The value of an integer element; `_generic_compare` reads a TIME as a 32-bit value. */
  function Number(b: Base, s: seq<byte>): int
    requires b !in {BOOL, REAL, LREAL} && |s| == BaseBits(b) / 8
  {
    match b
    case SINT | CHAR | INT | DINT | LINT =>
      var v := LittleEndian(s);
      if 2 * v >= Power256(|s|) then v - Power256(|s|) else v
    case TIME => LittleEndian(s[..4])
    case _ => LittleEndian(s)
  }

  /** The values by their bytes, the lowest first; the upper half of a signed type stands for the negative numbers. */
  lemma NumberOne(b: Base, s: seq<byte>)
    requires b in {BYTE, SINT, CHAR} && |s| == 1
    ensures b == BYTE ==> Number(b, s) == s[0] as int
    ensures b != BYTE ==> Number(b, s) == if s[0] as int < 0x80 then s[0] as int else s[0] as int - 0x100
  {
    assert LittleEndian(s[1..]) == 0;
  }

  lemma NumberTwo(b: Base, s: seq<byte>)
    requires b in {WORD, UINT, INT} && |s| == 2
    ensures var v := s[0] as int + 0x100 * (s[1] as int);
      Number(b, s) == if b == INT && s[1] as int >= 0x80 then v - 0x1_0000 else v
  {
    Powers();
    TwoBytes(s);
  }

  /** Four bytes as a number, and its top bit. */
  function Quad(s: seq<byte>, k: nat): (v: nat)
    requires k + 4 <= |s|
    ensures v < 0x1_0000_0000 && (v >= 0x8000_0000 <==> s[k + 3] as int >= 0x80)
  {
    s[k] as int + 0x100 * (s[k + 1] as int) + 0x1_0000 * (s[k + 2] as int) + 0x100_0000 * (s[k + 3] as int)
  }

  lemma NumberFour(b: Base, s: seq<byte>)
    requires b in {DWORD, UDINT, DINT, TIME} && |s| == if b == TIME then 8 else 4
    ensures Number(b, s) == if b == DINT && s[3] as int >= 0x80 then Quad(s, 0) - 0x1_0000_0000 else Quad(s, 0)
  {
    Powers();
    FourBytes(s[..4]);
    assert |s| == 4 ==> s[..4] == s;
    assert Quad(s[..4], 0) == Quad(s, 0);
    hide LittleEndian, Power256, Quad;
  }

  lemma NumberEight(b: Base, s: seq<byte>)
    requires b in {LWORD, ULINT, LINT} && |s| == 8
    ensures var v := Quad(s, 0) + 0x1_0000_0000 * Quad(s, 4);
      Number(b, s) == if b == LINT && s[7] as int >= 0x80 then v - 0x1_0000_0000_0000_0000 else v
  {
    Powers();
    EightBytes(s);
    hide LittleEndian, Power256, Quad;
  }

  lemma TwoBytes(s: seq<byte>)
    requires |s| == 2
    ensures LittleEndian(s) == s[0] as nat + 0x100 * (s[1] as nat)
  {
    assert LittleEndian(s[1..]) == s[1] as nat + 256 * LittleEndian(s[1..][1..]);
  }

  lemma FourBytes(s: seq<byte>)
    requires |s| == 4
    ensures LittleEndian(s) == Quad(s, 0)
  {
    var t := s[1..][1..];
    TwoBytes(t);
    assert LittleEndian(s) == s[0] as nat + 256 * (s[1] as nat + 256 * LittleEndian(t));
  }

  lemma EightBytes(s: seq<byte>)
    requires |s| == 8
    ensures LittleEndian(s) == Quad(s, 0) + 0x1_0000_0000 * Quad(s, 4)
  {
    var t, u := s[1..][1..], s[4..];
    assert LittleEndian(s) == s[0] as nat + 256 * (s[1] as nat + 256 * LittleEndian(t));
    assert LittleEndian(t) == t[0] as nat + 256 * (t[1] as nat + 256 * LittleEndian(t[1..][1..]));
    assert t[1..][1..] == u;
    FourBytes(u);
    assert Quad(u, 0) == Quad(s, 4);
  }

  /** The first byte of element `e`, relative to the start of the watched range. */
  function ElementAt(w: Watch, e: nat): nat {
    w.Width() * e
  }

  function Element(w: Watch, s: seq<byte>, start: nat, e: nat): seq<byte>
    requires start + ElementAt(w, e) + w.Width() <= |s|
  {
    s[start + ElementAt(w, e)..start + ElementAt(w, e) + w.Width()]
  }

  lemma ElementOrder(w: Watch, x: nat, y: nat)
    requires x < y
    ensures ElementAt(w, x) + w.Width() <= ElementAt(w, y)
  {
    assert w.Width() * y == w.Width() * x + w.Width() * (y - x);
    assert w.Width() * (y - x) >= w.Width();
  }

  lemma ElementsFit(w: Watch, length: nat)
    requires w.Valid(length) && w.kind in {Equal, Greater, Less, Deadband}
    ensures w.Width() > 0 && w.size == ElementAt(w, w.count) && ElementAt(w, 0) == 0
    ensures forall e :: 0 <= e < w.count ==> ElementAt(w, e) + w.Width() <= w.size
  {
    forall e | 0 <= e < w.count ensures ElementAt(w, e) + w.Width() <= w.size {
      ElementOrder(w, e, w.count);
    }
  }

  /** Element `e` meets the written range. */
  predicate Touched(w: Watch, e: nat, offset: nat, length: nat) {
    w.byte + ElementAt(w, e) < offset + length && offset < w.byte + ElementAt(w, e) + w.Width()
  }

  /** The write starts before the watched range or on an element of it. */
  predicate Aligned(w: Watch, offset: nat)
    requires w.Width() > 0
  {
    offset <= w.byte || (offset - w.byte) % w.Width() == 0
  }

  lemma AlignedIs(w: Watch, offset: nat)
    requires w.Width() > 0
    ensures Aligned(w, offset) <==> offset <= w.byte || exists e: nat :: offset == w.byte + ElementAt(w, e)
  {
    if Aligned(w, offset) && offset > w.byte {
      assert offset == w.byte + ElementAt(w, (offset - w.byte) / w.Width());
    }
    forall e: nat | offset == w.byte + ElementAt(w, e) && offset > w.byte ensures Aligned(w, offset) {
      WholeElements(w.base, offset - w.byte, e);
    }
  }

  lemma WholeElements(b: Base, d: nat, n: nat)
    requires BaseBits(b) >= 8 && d == BaseBits(b) / 8 * n
    ensures d % (BaseBits(b) / 8) == 0
  {
    var width := BaseBits(b) / 8;
    assert width == 1 || width == 2 || width == 4 || width == 8;
    assert (width == 2 ==> d == 2 * n) && (width == 4 ==> d == 4 * n) && (width == 8 ==> d == 8 * n);
  }

  /** The element that the handlers start with. */
  function FirstElement(w: Watch, offset: nat): nat
    requires w.Width() > 0
  {
    if offset <= w.byte then 0 else (offset - w.byte) / w.Width()
  }

  lemma StartsThere(w: Watch, offset: nat)
    requires w.Width() > 0 && Aligned(w, offset)
    ensures w.byte + ElementAt(w, FirstElement(w, offset)) == Max(offset, w.byte)
  {
    if offset > w.byte {
      assert offset - w.byte == w.Width() * ((offset - w.byte) / w.Width()) + (offset - w.byte) % w.Width();
    }
  }

  /** The elements visited are those from the first up to the end of the overlap. */
  lemma VisitedAreTouched(w: Watch, offset: nat, length: nat, e: nat, x: nat)
    requires w.Width() > 0 && Aligned(w, offset) && w.Overlaps(offset, length)
    requires e >= FirstElement(w, offset)
    requires e > FirstElement(w, offset) ==> w.byte + ElementAt(w, e - 1) < offset + length
    ensures FirstElement(w, offset) <= x < e ==> Touched(w, x, offset, length)
    ensures x < FirstElement(w, offset) ==> !Touched(w, x, offset, length)
    ensures w.byte + ElementAt(w, e) >= offset + length && x >= e ==> !Touched(w, x, offset, length)
  {
    var f := FirstElement(w, offset);
    StartsThere(w, offset);
    hide ElementAt, FirstElement;
    if x < f {
      ElementOrder(w, x, f);
    } else if x < e {
      if x > f { ElementOrder(w, f, x); }
      if x < e - 1 { ElementOrder(w, x, e - 1); }
    } else if x > e {
      ElementOrder(w, e, x);
    }
  }

  /** `_generic_compare` */
  function Sign(a: int, b: int): int {
    if a < b then -1 else if a > b then 1 else 0
  }

  /** The element satisfies the event's condition. */
  predicate Meets(w: Watch, element: seq<byte>)
    requires w.base !in {BOOL, REAL, LREAL} && |element| == w.Width() <= |w.operand|
  {
    var c := Sign(Number(w.base, w.operand[..w.Width()]), Number(w.base, element));
    match w.kind
    case Equal => c == 0
    case Greater => c == -1
    case Less => c == 1
    case _ => false
  }

  ghost predicate IsCompare(w: Watch) {
    w.kind in {Equal, Greater, Less}
  }

  /** Element `e` of the tag is equal to, above or below the event's operand, as numbers. */
  ghost predicate Holds(w: Watch, data: seq<byte>, e: nat)
    requires IsCompare(w) && w.Valid(|data|) && e < w.count
  {
    ElementsFit(w, |data|);
    var value := Number(w.base, Element(w, data, w.byte, e));
    var operand := Number(w.base, w.operand[..w.Width()]);
    match w.kind
    case Equal => value == operand
    case Greater => value > operand
    case _ => value < operand
  }

  /** `_event_compare`: one latch per element */
  method CompareElements(w: Watch, test: array<byte>, data: array<byte>, offset: nat, length: nat) returns (hit: bool)
    requires IsCompare(w) && w.Valid(data.Length) && w.Room(test.Length) && test != data
    requires Aligned(w, offset) && w.Overlaps(offset, length)
    modifies test
    ensures forall e :: 0 <= e < w.count ==>
      BitAt(test[..], e) == if Touched(w, e, offset, length) then Holds(w, data[..], e) else BitAt(old(test[..]), e)
    ensures hit <==>
      exists e :: 0 <= e < w.count && Touched(w, e, offset, length) && Holds(w, data[..], e) && !BitAt(old(test[..]), e)
  {
    hide Bit, BitAt, Holds, Set, Clear, Touched, ElementAt, FirstElement, Meets;
    hit := false;
    ElementsFit(w, data.Length);
    StartsThere(w, offset);
    var inc := w.Width();
    var first := FirstElement(w, offset);
    var e := first;
    var start := Max(offset, w.byte);
    var len := Min(w.byte + w.size, offset + length) - start;
    var n := 0;
    ghost var was, now := test[..], data[..];
    while n < len
      invariant n >= 0 && e >= first && w.byte + ElementAt(w, e) == start + n
      invariant e > first ==> w.byte + ElementAt(w, e - 1) < start + len
      invariant data[..] == now
      invariant forall x :: 0 <= x < w.count ==>
        BitAt(test[..], x) == if first <= x < e then Holds(w, now, x) else BitAt(was, x)
      invariant hit <==> exists x :: first <= x < e && x < w.count && Holds(w, now, x) && !BitAt(was, x)
      decreases len - n
    {
      InCount(w, e);
      ElementOrder(w, e, e + 1);
      HoldsHere(w, now, e, start + n);
      ghost var before := test[..];
      LatchAt(before, e, w.count);
      if Meets(w, data[start + n..start + n + inc]) {
        if !Bit(test[e / 8], e % 8) {
          test[e / 8] := Set(test[e / 8], e % 8);
          hit := true;
        }
      } else {
        test[e / 8] := Clear(test[e / 8], e % 8);
      }
      NextElement(w, e);
      n := n + inc;
      e := e + 1;
    }
    forall x | 0 <= x < w.count ensures (first <= x < e) == Touched(w, x, offset, length) {
      VisitedAreTouched(w, offset, length, e, x);
      BeyondCount(w, e, x);
    }
  }

  /** An element that starts inside the watched range is one of its elements. */
  lemma InCount(w: Watch, e: nat)
    requires w.Width() > 0 && ElementAt(w, e) < ElementAt(w, w.count)
    ensures e < w.count
  {
    hide ElementAt;
    if w.count < e {
      ElementOrder(w, w.count, e);
    }
  }

  lemma BeyondCount(w: Watch, e: nat, x: nat)
    requires w.Width() > 0 && x < w.count
    ensures ElementAt(w, e) >= ElementAt(w, w.count) ==> x < e
  {
    hide ElementAt;
    if e <= x {
      ElementOrder(w, x, w.count);
      if e < x { ElementOrder(w, e, x); }
    }
  }

  lemma NextElement(w: Watch, e: nat)
    ensures ElementAt(w, e + 1) == ElementAt(w, e) + w.Width()
  {}

  lemma HoldsHere(w: Watch, data: seq<byte>, e: nat, at: nat)
    requires IsCompare(w) && w.Valid(|data|) && e < w.count && at == w.byte + ElementAt(w, e)
    ensures at + w.Width() <= |data| && |w.operand| >= w.Width() && w.base !in {BOOL, REAL, LREAL}
    ensures Meets(w, data[at..at + w.Width()]) == Holds(w, data, e)
  {
    hide Number;
    ElementsFit(w, |data|);
  }

  lemma LatchAt(test: seq<byte>, e: nat, count: nat)
    requires e < count <= 8 * |test|
    ensures BitAt(test, e) == Bit(test[e / 8], e % 8)
    ensures forall x :: 0 <= x < count ==>
      && BitAt(test[e / 8 := Set(test[e / 8], e % 8)], x) == (x == e || BitAt(test, x))
      && BitAt(test[e / 8 := Clear(test[e / 8], e % 8)], x) == (x != e && BitAt(test, x))
  {
    hide Bit, Set, Clear;
    forall x | 0 <= x < count
      ensures BitAt(test[e / 8 := Set(test[e / 8], e % 8)], x) == (x == e || BitAt(test, x))
      ensures BitAt(test[e / 8 := Clear(test[e / 8], e % 8)], x) == (x != e && BitAt(test, x))
    {
      OneBit(test, e, x);
    }
  }

  // ---------------------------------------------------------------- deadband

  /** The types on which a deadband is modelled. */
  predicate Subtracts(b: Base) {
    b !in {BOOL, DINT, LINT, REAL, LREAL}
  }

  /** A difference kept in a signed integer that has `n` values. */
  function Wrapped(v: int, n: nat): int
    requires n > 0
  {
    if 2 * (v % n) >= n then v % n - n else v % n
  }

  function Abs(v: int): nat {
    if v < 0 then -v else v
  }

  /** What `_generic_deadband` takes for the distance between two values: the difference is kept in
      an integer of its own width, and that of two 32-bit values is taken before it is widened. */
  function Distance(b: Base, x: int, y: int): nat
    requires Subtracts(b)
  {
    match b
    case SINT | CHAR => Abs(Wrapped(x - y, 0x100))
    case INT => Abs(Wrapped(x - y, 0x1_0000))
    case DWORD | UDINT | TIME => (x - y) % 0x1_0000_0000
    case LWORD | ULINT => Abs(Wrapped(x - y, 0x1_0000_0000_0000_0000))
    case _ => Abs(x - y)
  }

  /** The values of a type, as the comparison reads them. */
  predicate InRange(b: Base, x: int) {
    match b
    case BYTE => 0 <= x < 0x100
    case SINT | CHAR => -0x80 <= x < 0x80
    case WORD | UINT => 0 <= x < 0x1_0000
    case INT => -0x8000 <= x < 0x8000
    case DWORD | UDINT | TIME => 0 <= x < 0x1_0000_0000
    case LWORD | ULINT => 0 <= x < 0x1_0000_0000_0000_0000
    case _ => false
  }

  lemma {:induction false} LittleEndianRange(s: seq<byte>)
    ensures LittleEndian(s) < Power256(|s|)
  {
    if s != [] { LittleEndianRange(s[1..]); }
  }

  lemma Powers()
    ensures Power256(1) == 0x100 && Power256(2) == 0x1_0000
    ensures Power256(4) == 0x1_0000_0000 && Power256(8) == 0x1_0000_0000_0000_0000
  {
    assert Power256(3) == 256 * Power256(2);
    assert Power256(5) == 256 * Power256(4);
    assert Power256(7) == 256 * (256 * Power256(5));
  }

  lemma NumberInRange(b: Base, s: seq<byte>)
    requires Subtracts(b) && |s| == BaseBits(b) / 8
    ensures InRange(b, Number(b, s))
  {
    Powers();
    LittleEndianRange(s);
    if b == TIME { LittleEndianRange(s[..4]); }
  }

  ghost predicate SeesDistance(b: Base, db: int, x: int, y: int)
    requires Subtracts(b)
  {
    Distance(b, x, y) >= db <==> Abs(x - y) >= db
  }

  /** A deadband event measures every distance rightly exactly when the type is an unsigned one of at
      most 16 bits or the deadband is at most 1. */
  lemma DeadbandExact(b: Base, db: int)
    requires Subtracts(b) && InRange(b, db)
    ensures (forall x, y :: InRange(b, x) && InRange(b, y) ==> SeesDistance(b, db, x, y)) <==>
            b in {BYTE, WORD, UINT} || db <= 1
  {
    forall x, y | InRange(b, x) && InRange(b, y) && (b in {BYTE, WORD, UINT} || db <= 1)
      ensures SeesDistance(b, db, x, y)
    {
      NoNearMiss(b, x, y);
    }
    hide Distance;
    if b !in {BYTE, WORD, UINT} && db > 1 {
      WrongDistance(b);
      match b
      case SINT | CHAR => assert !SeesDistance(b, db, 0x7F, -0x80);
      case INT => assert !SeesDistance(b, db, 0x7FFF, -0x8000);
      case DWORD | UDINT | TIME => assert !SeesDistance(b, db, 0, 1);
      case LWORD | ULINT => assert !SeesDistance(b, db, 0xFFFF_FFFF_FFFF_FFFF, 0);
    }
  }

  /** The distance is only taken for 0 between equal values. */
  lemma NoNearMiss(b: Base, x: int, y: int)
    requires Subtracts(b) && InRange(b, x) && InRange(b, y)
    ensures Distance(b, x, y) == 0 <==> x == y
    ensures b in {BYTE, WORD, UINT} ==> Distance(b, x, y) == Abs(x - y)
  {
    hide Wrapped;
    var v := x - y;
    match b
    case BYTE | WORD | UINT =>
    case SINT | CHAR => WrappedZero(v, 0x100);
    case INT => WrappedZero(v, 0x1_0000);
    case DWORD | UDINT | TIME => WrappedZero(v, 0x1_0000_0000);
    case LWORD | ULINT => WrappedZero(v, 0x1_0000_0000_0000_0000);
  }

  lemma WrappedZero(v: int, n: int)
    requires 0 < n && -n < v < n
    ensures Wrapped(v, n) == 0 <==> v == 0
    ensures v % n == 0 <==> v == 0
  {
    var q := v / n;
    assert v == n * q + v % n;
    Beyond(q, n);
  }

  lemma Beyond(q: int, n: int)
    requires 0 < n
    ensures q >= 1 ==> n * q >= n
    ensures q <= -1 ==> n * q <= -n
  {}

  /** The extreme values of a signed or 64-bit type look one apart; 0 and 1 look far apart in 32 bits. */
  lemma WrongDistance(b: Base)
    requires Subtracts(b)
    ensures b in {SINT, CHAR} ==> Distance(b, 0x7F, -0x80) == 1
    ensures b == INT ==> Distance(b, 0x7FFF, -0x8000) == 1
    ensures b in {DWORD, UDINT, TIME} ==> Distance(b, 0, 1) == 0xFFFF_FFFF
    ensures b in {LWORD, ULINT} ==> Distance(b, 0xFFFF_FFFF_FFFF_FFFF, 0) == 1
  {}

  /** `_generic_deadband` */
  predicate Exceeds(w: Watch, a: seq<byte>, b: seq<byte>)
    requires Subtracts(w.base) && |a| == |b| == w.Width() <= |w.operand|
  {
    Distance(w.base, Number(w.base, a), Number(w.base, b)) >= Number(w.base, w.operand[..w.Width()])
  }

  ghost predicate IsDeadband(w: Watch) {
    w.kind == Deadband && Subtracts(w.base)
  }

  ghost function Current(w: Watch, data: seq<byte>, e: nat): (s: seq<byte>)
    requires IsDeadband(w) && w.Valid(|data|) && e < w.count
    ensures |s| == w.Width() <= |w.operand|
  {
    ElementsFit(w, |data|);
    Element(w, data, w.byte, e)
  }

  /** The value of element `e` that was last reported. */
  ghost function Reported(w: Watch, test: seq<byte>, length: nat, e: nat): (s: seq<byte>)
    requires IsDeadband(w) && w.Valid(length) && |test| == w.size && e < w.count
    ensures |s| == w.Width() <= |w.operand|
  {
    ElementsFit(w, length);
    Element(w, test, 0, e)
  }

  /** `_event_deadband` */
  method DeadbandElements(w: Watch, test: array<byte>, data: array<byte>, offset: nat, length: nat) returns (hit: bool)
    requires IsDeadband(w) && w.Valid(data.Length) && w.Room(test.Length) && test != data
    requires Aligned(w, offset) && w.Overlaps(offset, length)
    modifies test
    ensures forall e :: 0 <= e < w.count ==>
      var was := Reported(w, old(test[..]), data.Length, e); var now := Current(w, data[..], e);
      Reported(w, test[..], data.Length, e) ==
        if Touched(w, e, offset, length) && Exceeds(w, was, now) then now else was
    ensures hit <==> exists e :: 0 <= e < w.count && Touched(w, e, offset, length) &&
                                  Exceeds(w, Reported(w, old(test[..]), data.Length, e), Current(w, data[..], e))
  {
    hide Touched, ElementAt, FirstElement, Exceeds, Reported, Current;
    hit := false;
    ElementsFit(w, data.Length);
    StartsThere(w, offset);
    var inc := w.Width();
    var first := FirstElement(w, offset);
    ghost var e := first;
    var start := Max(offset, w.byte);
    var from := Max(0, offset - w.byte);
    var len := Min(w.byte + w.size, offset + length) - start;
    var n := 0;
    ghost var was, now, size := test[..], data[..], data.Length;
    while n < len
      invariant n >= 0 && e >= first && w.byte + ElementAt(w, e) == start + n && ElementAt(w, e) == from + n
      invariant e > first ==> w.byte + ElementAt(w, e - 1) < start + len
      invariant data[..] == now
      invariant forall x :: 0 <= x < w.count ==>
        Reported(w, test[..], size, x) ==
          if first <= x < e && Exceeds(w, Reported(w, was, size, x), Current(w, now, x)) then Current(w, now, x)
          else Reported(w, was, size, x)
      invariant hit <==>
        exists x :: first <= x < e && x < w.count && Exceeds(w, Reported(w, was, size, x), Current(w, now, x))
      decreases len - n
    {
      InCount(w, e);
      ElementOrder(w, e, e + 1);
      var exceeds := DeadbandElement(w, test, data, from + n, start + n, e);
      hit := hit || exceeds;
      NextElement(w, e);
      n := n + inc;
      e := e + 1;
    }
    forall x | 0 <= x < w.count ensures (first <= x < e) == Touched(w, x, offset, length) {
      VisitedAreTouched(w, offset, length, e, x);
      BeyondCount(w, e, x);
    }
  }

  /** One turn of the loop: an element beyond the deadband is reported. */
  method DeadbandElement(w: Watch, test: array<byte>, data: array<byte>, from: nat, start: nat, ghost e: nat)
    returns (hit: bool)
    requires IsDeadband(w) && w.Valid(data.Length) && w.Room(test.Length) && test != data && e < w.count
    requires from == ElementAt(w, e) && start == w.byte + ElementAt(w, e)
    modifies test
    ensures hit == Exceeds(w, Reported(w, old(test[..]), data.Length, e), Current(w, data[..], e))
    ensures forall x :: 0 <= x < w.count ==>
      Reported(w, test[..], data.Length, x) ==
        if x == e && hit then Current(w, data[..], x) else Reported(w, old(test[..]), data.Length, x)
  {
    hide ElementAt, Exceeds, Reported, Current;
    DeadbandHere(w, test[..], data[..], e, from, start);
    var inc := w.Width();
    ghost var was, now := test[..], data[..];
    assert test[from..from + inc] == was[from..from + inc] && data[start..start + inc] == now[start..start + inc];
    hit := Exceeds(w, test[from..from + inc], data[start..start + inc]);
    if hit {
      forall k | 0 <= k < inc {
        test[from + k] := data[start + k];
      }
      assert data[..] == now;
      CopyElement(w, was, test[..], now, e);
    }
  }

  lemma DeadbandHere(w: Watch, test: seq<byte>, data: seq<byte>, e: nat, t: nat, d: nat)
    requires IsDeadband(w) && w.Valid(|data|) && |test| == w.size && e < w.count
    requires t == ElementAt(w, e) && d == w.byte + ElementAt(w, e)
    ensures t + w.Width() <= |test| && d + w.Width() <= |data| && |w.operand| >= w.Width()
    ensures test[t..t + w.Width()] == Reported(w, test, |data|, e)
    ensures data[d..d + w.Width()] == Current(w, data, e)
  {
    ElementsFit(w, |data|);
  }

  lemma CopyElement(w: Watch, before: seq<byte>, after: seq<byte>, data: seq<byte>, e: nat)
    requires IsDeadband(w) && w.Valid(|data|) && |before| == |after| == w.size && e < w.count
    requires forall k :: 0 <= k < w.size ==>
      after[k] == if ElementAt(w, e) <= k < ElementAt(w, e) + w.Width() then data[w.byte + k] else before[k]
    ensures forall x :: 0 <= x < w.count ==>
      Reported(w, after, |data|, x) == if x == e then Current(w, data, x) else Reported(w, before, |data|, x)
  {
    hide Reported, Current;
    forall x | 0 <= x < w.count
      ensures Reported(w, after, |data|, x) == if x == e then Current(w, data, x) else Reported(w, before, |data|, x)
    {
      if x == e {
        CopiedHere(w, after, data, e);
      } else {
        KeptThere(w, before, after, |data|, e, x);
      }
    }
  }

  lemma CopiedHere(w: Watch, after: seq<byte>, data: seq<byte>, e: nat)
    requires IsDeadband(w) && w.Valid(|data|) && |after| == w.size && e < w.count
    requires forall k :: 0 <= k < w.size && ElementAt(w, e) <= k < ElementAt(w, e) + w.Width() ==>
      after[k] == data[w.byte + k]
    ensures Reported(w, after, |data|, e) == Current(w, data, e)
  {
    hide ElementAt;
    ElementsFit(w, |data|);
    var a, b := Reported(w, after, |data|, e), Current(w, data, e);
    forall k | 0 <= k < w.Width() ensures a[k] == b[k] {
      assert a[k] == after[ElementAt(w, e) + k] && b[k] == data[w.byte + (ElementAt(w, e) + k)];
    }
  }

  lemma KeptThere(w: Watch, before: seq<byte>, after: seq<byte>, length: nat, e: nat, x: nat)
    requires IsDeadband(w) && w.Valid(length) && |before| == |after| == w.size && e < w.count && x < w.count && x != e
    requires forall k :: 0 <= k < w.size && !(ElementAt(w, e) <= k < ElementAt(w, e) + w.Width()) ==>
      after[k] == before[k]
    ensures Reported(w, after, length, x) == Reported(w, before, length, x)
  {
    hide ElementAt;
    ElementsFit(w, length);
    if x < e { ElementOrder(w, x, e); } else { ElementOrder(w, e, x); }
    var a, b := Reported(w, after, length, x), Reported(w, before, length, x);
    forall k | 0 <= k < w.Width() ensures a[k] == b[k] {
      assert a[k] == after[ElementAt(w, x) + k] && b[k] == before[ElementAt(w, x) + k];
    }
  }

  // ---------------------------------------------------------------- one event, one write

  ghost predicate HasLatches(w: Watch) {
    w.kind in {SetBit, ResetBit, Equal, Greater, Less}
  }

  /** Item `m` of a latching event satisfies its condition. */
  ghost predicate Condition(w: Watch, data: seq<byte>, m: nat)
    requires HasLatches(w) && w.Valid(|data|) && m < w.count
  {
    if w.IsBool() then DataBit(w, data, m) == (w.kind == SetBit) else Holds(w, data, m)
  }

  ghost predicate Latch(w: Watch, test: seq<byte>, m: nat)
    requires HasLatches(w) && w.Room(|test|) && m < w.count
  {
    if w.kind in {SetBit, ResetBit} then TestBit(w, test, m) else BitAt(test, m)
  }

  /** The item is looked at after a write: all bits of a BOOL event, the touched elements of others. */
  ghost predicate LooksAt(w: Watch, m: nat, offset: nat, length: nat) {
    w.Overlaps(offset, length) && (w.IsBool() || Touched(w, m, offset, length))
  }

  /** Events whose handlers go through the elements need writes that start on an element. */
  ghost predicate Applicable(w: Watch, length: nat, testSize: nat, offset: nat) {
    && w.Valid(length) && w.Room(testSize)
    && (w.kind == Deadband ==> IsDeadband(w))
    && (w.kind in {Equal, Greater, Less, Deadband} ==> w.Width() > 0 && Aligned(w, offset))
  }

  /** How an event's private state and its notification follow from a write that left `data`. */
  ghost predicate Reacts(w: Watch, was: seq<byte>, data: seq<byte>, offset: nat, length: nat, now: seq<byte>, hit: bool)
    requires Applicable(w, |data|, |was|, offset)
  {
    && |now| == |was|
    && if !w.Overlaps(offset, length) then now == was && !hit
       else match w.kind
         case Write => now == was && hit
         case Change =>
           if w.IsBool() then SameBits(w, now, data) && (hit <==> !SameBits(w, was, data))
           else
             && (forall k :: 0 <= k < w.size ==>
                  now[k] == if offset <= w.byte + k < offset + length then data[w.byte + k] else was[k])
             && (hit <==>
                  exists k :: 0 <= k < w.size && offset <= w.byte + k < offset + length && was[k] != data[w.byte + k])
         case Deadband =>
           && (forall e :: 0 <= e < w.count ==>
                var a := Reported(w, was, |data|, e); var b := Current(w, data, e);
                Reported(w, now, |data|, e) == if Touched(w, e, offset, length) && Exceeds(w, a, b) then b else a)
           && (hit <==> exists e :: 0 <= e < w.count && Touched(w, e, offset, length) &&
                                    Exceeds(w, Reported(w, was, |data|, e), Current(w, data, e)))
         case _ =>
           && (forall m :: 0 <= m < w.count ==>
                Latch(w, now, m) == if LooksAt(w, m, offset, length) then Condition(w, data, m) else Latch(w, was, m))
           && (hit <==> exists m :: 0 <= m < w.count && LooksAt(w, m, offset, length) &&
                                    Condition(w, data, m) && !Latch(w, was, m))
  }

  /** `_event_hit` behind the range test of `event_check` */
  method EventHit(w: Watch, test: array<byte>, data: array<byte>, offset: nat, length: nat) returns (hit: bool)
    requires Applicable(w, data.Length, test.Length, offset) && test != data
    modifies test
    ensures Reacts(w, old(test[..]), data[..], offset, length, test[..], hit)
  {
    hide Bit, BitAt, TestBit, DataBit, Holds, Touched, Exceeds, Reported, Current, ElementAt;
    if !w.Overlaps(offset, length) {
      return false;
    }
    ghost var was, now := test[..], data[..];
    match w.kind
    case Write =>
      hit := true;
    case Change =>
      if w.IsBool() {
        hit := ChangeBits(w, test, data);
      } else {
        hit := ChangeBytes(w, test, data, offset, length);
        assert hit <==>
          exists k :: 0 <= k < w.size && offset <= w.byte + k < offset + length && was[k] != now[w.byte + k];
      }
    case SetBit =>
      hit := EdgeBits(w, test, data, true);
      EdgeReacts(w, was, test[..], now, offset, length, hit);
    case ResetBit =>
      hit := EdgeBits(w, test, data, false);
      EdgeReacts(w, was, test[..], now, offset, length, hit);
    case Deadband =>
      hit := DeadbandElements(w, test, data, offset, length);
    case _ =>
      hit := CompareElements(w, test, data, offset, length);
      CompareReacts(w, was, test[..], now, offset, length, hit);
  }

  lemma EdgeReacts(w: Watch, was: seq<byte>, test: seq<byte>, data: seq<byte>, offset: nat, length: nat, hit: bool)
    requires w.kind in {SetBit, ResetBit} && w.Valid(|data|) && w.Room(|was|) && |test| == |was|
    requires w.Overlaps(offset, length)
    requires Latched(w, test, data, w.kind == SetBit)
    requires hit <==> exists m :: 0 <= m < w.count && DataBit(w, data, m) == (w.kind == SetBit) && !TestBit(w, was, m)
    ensures Reacts(w, was, data, offset, length, test, hit)
  {
    hide TestBit, DataBit;
    forall m | 0 <= m < w.count
      ensures Condition(w, data, m) == (DataBit(w, data, m) == (w.kind == SetBit))
      ensures Latch(w, was, m) == TestBit(w, was, m) && LooksAt(w, m, offset, length)
    {}
  }

  lemma CompareReacts(w: Watch, was: seq<byte>, test: seq<byte>, data: seq<byte>, offset: nat, length: nat, hit: bool)
    requires IsCompare(w) && Applicable(w, |data|, |was|, offset) && |test| == |was| && w.Overlaps(offset, length)
    requires forall e :: 0 <= e < w.count ==>
      BitAt(test, e) == if Touched(w, e, offset, length) then Holds(w, data, e) else BitAt(was, e)
    requires hit <==>
      exists e :: 0 <= e < w.count && Touched(w, e, offset, length) && Holds(w, data, e) && !BitAt(was, e)
    ensures Reacts(w, was, data, offset, length, test, hit)
  {
    hide BitAt, Touched, Holds;
    forall m | 0 <= m < w.count
      ensures Condition(w, data, m) == Holds(w, data, m)
      ensures Latch(w, was, m) == BitAt(was, m) && LooksAt(w, m, offset, length) == Touched(w, m, offset, length)
    {}
  }
}
