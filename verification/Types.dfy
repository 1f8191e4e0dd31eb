/** Data types of the tag server and their memory layout.

    A compound data type (CDT) is a list of members; its layout is computed independently by the
    server (`type_size`), by the client (`dax_get_typesize`) and by the client's member iterator
    (`dax_cdt_iter`).  All three are proved here against one recursive definition. */
module Types {
  import opened Common

  datatype Base =
    | BOOL | BYTE | SINT | CHAR | WORD | INT | UINT | DWORD | DINT | UDINT
    | TIME | REAL | LWORD | LINT | ULINT | LREAL

  datatype TagType = Basic(base: Base) | Custom(index: nat)

  datatype Member = Member(name: string, typ: TagType, count: int) {
    predicate IsBool() { typ == Basic(BOOL) }
  }

  datatype Cdt = Cdt(name: string, members: seq<Member>)

  type Registry = seq<Cdt>

  /** The TYPESIZE macro: the width of a base type in bits. */
  function BaseBits(b: Base): (n: nat)
    ensures n == 1 || (n >= 8 && n % 8 == 0)
  {
    match b
    case BOOL => 1
    case BYTE | SINT | CHAR => 8
    case WORD | INT | UINT => 16
    case DWORD | DINT | UDINT | REAL => 32
    case TIME | LWORD | LINT | ULINT | LREAL => 64
  }

  /** The codes of the base types. */
  function TypeCode(b: Base): nat {
    match b
    case BOOL => 0x10
    case BYTE => 0x03 case SINT => 0x13 case CHAR => 0x23
    case WORD => 0x04 case INT => 0x14 case UINT => 0x24
    case DWORD => 0x05 case DINT => 0x15 case UDINT => 0x25 case REAL => 0x35
    case LWORD => 0x06 case LINT => 0x16 case ULINT => 0x26 case TIME => 0x36 case LREAL => 0x46
  }

  function ShiftedOne(n: nat): nat {
    if n == 0 then 1 else 2 * ShiftedOne(n - 1)
  }

  /** The last four bits of a code give the width. */
  lemma CodesGiveWidths(b: Base)
    ensures BaseBits(b) == ShiftedOne(TypeCode(b) % 16)
  {
    Shifts();
    hide ShiftedOne;
  }

  lemma Shifts()
    ensures ShiftedOne(0) == 1 && ShiftedOne(3) == 8 && ShiftedOne(4) == 16
    ensures ShiftedOne(5) == 32 && ShiftedOne(6) == 64
  {
    assert ShiftedOne(4) == 2 * ShiftedOne(3) && ShiftedOne(6) == 2 * ShiftedOne(5);
  }

  predicate ValidType(reg: Registry, t: TagType) {
    t.Custom? ==> t.index < |reg|
  }

  /** Members name only types that were created before the type they belong to. */
  ghost predicate Backward(reg: Registry) {
    forall i, k :: 0 <= i < |reg| && 0 <= k < |reg[i].members| && reg[i].members[k].typ.Custom? ==>
      reg[i].members[k].typ.index < i
  }

  /** Types have members and members have elements. */
  ghost predicate Solid(reg: Registry) {
    forall i :: 0 <= i < |reg| ==>
      reg[i].members != [] && forall k :: 0 <= k < |reg[i].members| ==> reg[i].members[k].count > 0
  }

  ghost predicate Sound(reg: Registry) {
    Backward(reg) && Solid(reg)
  }

  // ---------------------------------------------------------------- the layout

  function Align(bits: nat): (a: nat)
    ensures a % 8 == 0 && bits <= a < bits + 8
  {
    (bits + 7) / 8 * 8
  }

  /** The bits occupied by one element, seen from an enclosing type. */
  ghost function ElementBits(reg: Registry, t: TagType): (n: nat)
    requires Sound(reg) && ValidType(reg, t)
    ensures n > 0 && (t != Basic(BOOL) ==> n % 8 == 0)
    decreases if t.Custom? then t.index + 1 else 0, if t.Custom? then |reg[t.index].members| + 1 else 0, 0
  {
    match t
    case Basic(b) => BaseBits(b)
    case Custom(j) => Align(Cursor(reg, j, |reg[j].members|))
  }

  /** The bits occupied by `n` elements in a row. */
  ghost function ArrayBits(reg: Registry, t: TagType, n: nat): (bits: nat)
    requires Sound(reg) && ValidType(reg, t)
    ensures n > 0 ==> bits > 0
    decreases if t.Custom? then t.index + 1 else 0, if t.Custom? then |reg[t.index].members| + 1 else 0, 1
  {
    if n == 0 then 0 else Product(ElementBits(reg, t), n); ElementBits(reg, t) * n
  }

  /** `tag_get_size` */
  ghost function TagBytes(reg: Registry, typ: TagType, count: nat): nat
    requires Sound(reg) && ValidType(reg, typ)
  {
    if typ == Basic(BOOL) then count / 8 + 1 else ArrayBits(reg, typ, count) / 8
  }

  lemma ArraySize(reg: Registry, t: TagType, size: nat, n: nat)
    requires Sound(reg) && ValidType(reg, t) && 8 * size == ElementBits(reg, t)
    ensures 8 * (size * n) == ArrayBits(reg, t, n) && size * n >= 0
  {
    Scale(size, n);
  }

  lemma BoolArray(reg: Registry, n: nat)
    requires Sound(reg)
    ensures ArrayBits(reg, Basic(BOOL), n) == n
  {}

  ghost function MemberBits(reg: Registry, i: nat, k: nat): (n: nat)
    requires Sound(reg) && i < |reg| && k < |reg[i].members|
    ensures n > 0
    decreases i + 1, k, 0
  {
    ArrayBits(reg, reg[i].members[k].typ, reg[i].members[k].count)
  }

  /** The first bit of member `k` of type `i`: BOOLs follow on, everything else starts a byte. */
  ghost function Start(reg: Registry, i: nat, k: nat): nat
    requires Sound(reg) && i < |reg| && k < |reg[i].members|
    decreases i + 1, k, 1
  {
    if reg[i].members[k].IsBool() then Cursor(reg, i, k) else Align(Cursor(reg, i, k))
  }

  /** The bit just past the first `k` members of type `i`. */
  ghost function Cursor(reg: Registry, i: nat, k: nat): (p: nat)
    requires Sound(reg) && i < |reg| && k <= |reg[i].members|
    ensures k > 0 ==> p > 0
    decreases i + 1, k, 0
  {
    if k == 0 then 0 else Start(reg, i, k - 1) + MemberBits(reg, i, k - 1)
  }

  lemma Product(a: nat, b: nat)
    requires a > 0 && b > 0
    ensures a * b > 0
  {}

  /** One step of the bit cursor, as the loops of the source take it. */
  lemma NextCursor(reg: Registry, i: nat, k: nat)
    requires Sound(reg) && i < |reg| && k < |reg[i].members|
    ensures var m := reg[i].members[k];
      Cursor(reg, i, k + 1) ==
        if m.IsBool() then Cursor(reg, i, k) + m.count
        else Align(Cursor(reg, i, k)) + ElementBits(reg, m.typ) * m.count
  {
    var m := reg[i].members[k];
    assert Cursor(reg, i, k + 1) == Start(reg, i, k) + MemberBits(reg, i, k);
    if m.IsBool() {
      assert ElementBits(reg, m.typ) == 1;
    }
  }

  /** From the start of one member to the start of the next. */
  lemma NextStart(reg: Registry, i: nat, k: nat)
    requires Sound(reg) && i < |reg| && k + 1 < |reg[i].members|
    ensures var end := Start(reg, i, k) + MemberBits(reg, i, k);
      Start(reg, i, k + 1) ==
        if reg[i].members[k + 1].IsBool() || end % 8 == 0 then end else end - end % 8 + 8
    ensures if reg[i].members[k].IsBool() then MemberBits(reg, i, k) == reg[i].members[k].count
            else Start(reg, i, k) % 8 == 0 && MemberBits(reg, i, k) % 8 == 0
  {
    var m := reg[i].members[k];
    assert Cursor(reg, i, k + 1) == Start(reg, i, k) + MemberBits(reg, i, k);
    RoundUp(Cursor(reg, i, k + 1));
    if m.IsBool() {
      assert ElementBits(reg, m.typ) == 1;
    } else {
      WholeBytes(ElementBits(reg, m.typ), m.count);
    }
  }

  lemma WholeBytes(a: nat, n: nat)
    requires a % 8 == 0
    ensures (a * n) % 8 == 0
  {
    assert a * n == 8 * (a / 8 * n);
  }

  lemma RoundUp(p: nat)
    ensures Align(p) == if p % 8 == 0 then p else p - p % 8 + 8
  {}

  lemma Scale(a: int, n: int)
    ensures (a * n) * 8 == (8 * a) * n
  {}

  // ---------------------------------------------------------------- server and client sizes

  /** The server's `type_size`, in bytes.  A BOOL has size zero here. */
  method TypeSize(reg: Registry, t: TagType) returns (size: int)
    requires Sound(reg)
    ensures !ValidType(reg, t) ==> size == ERR_NOTFOUND
    ensures ValidType(reg, t) ==> 8 * size == (if t == Basic(BOOL) then 0 else ElementBits(reg, t))
    decreases if t.Custom? then t.index + 1 else 0
  {
    if t.Custom? && t.index >= |reg| {
      return ERR_NOTFOUND;
    }
    hide Sound, Cursor, Align;
    match t
    case Basic(b) =>
      size := BaseBits(b) / 8;
    case Custom(i) =>
      var members := reg[i].members;
      var pos: nat := 0;
      for k := 0 to |members|
        invariant pos == Cursor(reg, i, k)
      {
        var m := members[k];
        NextCursor(reg, i, k);
        RoundUp(pos);
        if m.IsBool() {
          pos := pos + m.count;
        } else {
          if pos % 8 != 0 {
            pos := pos - pos % 8 + 7; // pos |= 0x07
            pos := pos + 1;
          }
          match m.typ
          case Custom(j) =>
            var inner := TypeSize(reg, m.typ);
            Scale(inner, m.count);
            pos := pos + (inner * m.count) * 8;
          case Basic(b) =>
            pos := pos + BaseBits(b) * m.count;
        }
      }
      RoundUp(pos);
      size := if pos != 0 then (pos - 1) / 8 + 1 else 0;
  }

  /** The size of an element, in bytes, for a client that has all the types; one for a BOOL.  The client's own loop
      is `ClientSizes.CachedSize`. */
  method ElementSize(reg: Registry, t: TagType) returns (size: int)
    requires Sound(reg) && ValidType(reg, t)
    ensures 8 * size == (if t == Basic(BOOL) then 8 else ElementBits(reg, t))
  {
    if t == Basic(BOOL) {
      return 1;
    }
    size := TypeSize(reg, t);
  }

  // ---------------------------------------------------------------- the member iterator

  datatype IterItem = IterItem(name: string, typ: TagType, count: int, byte: nat, bit: nat)

  /** An iterator entry that tells where member `k` of type `i` is. */
  ghost predicate Describes(reg: Registry, i: nat, k: nat, item: IterItem)
    requires Sound(reg) && i < |reg| && k < |reg[i].members|
  {
    && Member(item.name, item.typ, item.count) == reg[i].members[k]
    && item.bit < 8
    && 8 * item.byte + item.bit == Start(reg, i, k)
  }

  /** `dax_cdt_iter` over one type: what is handed to the callback, in order. */
  method CdtIter(reg: Registry, i: nat) returns (items: seq<IterItem>)
    requires Sound(reg) && i < |reg|
    ensures |items| == |reg[i].members|
    ensures forall k :: 0 <= k < |items| ==> Describes(reg, i, k, items[k])
  {
    hide Sound, Describes, Start, Cursor, ElementBits, MemberBits;
    items := [];
    var members := reg[i].members;
    var byte: nat, bit: nat := 0, 0;
    FirstStart(reg, i);
    for k := 0 to |members|
      invariant |items| == k && bit < 8
      invariant k < |members| ==> 8 * byte + bit == Start(reg, i, k)
      invariant forall n :: 0 <= n < k ==> Describes(reg, i, n, items[n])
    {
      var m := members[k];
      items := items + [IterItem(m.name, m.typ, m.count, byte, bit)];
      Describe(reg, i, k, byte, bit);
      if k + 1 < |members| {
        byte, bit := IterNext(reg, i, k, byte, bit);
      }
    }
  }

  /** From the start of one member to the start of the next. */
  method IterNext(reg: Registry, i: nat, k: nat, byte0: nat, bit0: nat) returns (byte: nat, bit: nat)
    requires Sound(reg) && i < |reg| && k + 1 < |reg[i].members| && bit0 < 8 && 8 * byte0 + bit0 == Start(reg, i, k)
    ensures bit < 8 && 8 * byte + bit == Start(reg, i, k + 1)
  {
    var m := reg[i].members[k];
    hide Cursor, ElementBits, MemberBits, Align;
    NextStart(reg, i, k);
    var size := ElementSize(reg, m.typ);
    if !m.IsBool() {
      ElementBytes(reg, i, k, size);
    }
    byte, bit := IterAdvance(byte0, bit0, m, reg[i].members[k + 1].IsBool(), size);
  }

  /** The iterator's counters from one member to the next. */
  method IterAdvance(byte0: nat, bit0: nat, m: Member, nextIsBool: bool, size: int) returns (byte: nat, bit: nat)
    requires bit0 < 8 && m.count > 0
    requires !m.IsBool() ==> bit0 == 0 && size * m.count > 0
    ensures bit < 8
    ensures var end := 8 * byte0 + bit0 + (if m.IsBool() then m.count else 8 * (size * m.count));
      8 * byte + bit == if nextIsBool || end % 8 == 0 then end else end - end % 8 + 8
  {
    byte, bit := byte0, bit0;
    if m.IsBool() {
      BoolStep(byte, bit, m.count);
      bit := bit + m.count % 8;
      byte := byte + m.count / 8;
      if bit > 7 {
        bit := bit % 8;
        byte := byte + 1;
      }
      if !nextIsBool && bit != 0 {
        bit := 0;
        byte := byte + 1;
      }
    } else {
      bit := 0;
      byte := byte + size * m.count;
    }
  }

  /** The byte and bit counters after `n` more bits, with the carry between them. */
  lemma BoolStep(byte: nat, bit: nat, n: nat)
    requires bit < 8
    ensures var b := bit + n % 8;
      && b < 16
      && (b > 7 ==> b % 8 == b - 8)
      && 8 * (byte + n / 8) + b == 8 * byte + bit + n
      && (8 * byte + bit + n) % 8 == b % 8
  {}

  lemma Describe(reg: Registry, i: nat, k: nat, byte: nat, bit: nat)
    requires Sound(reg) && i < |reg| && k < |reg[i].members|
    requires bit < 8 && 8 * byte + bit == Start(reg, i, k)
    ensures reg[i].members[k].count > 0 && ValidType(reg, reg[i].members[k].typ)
    ensures var m := reg[i].members[k]; Describes(reg, i, k, IterItem(m.name, m.typ, m.count, byte, bit))
  {}

  lemma ElementBytes(reg: Registry, i: nat, k: nat, size: int)
    requires Sound(reg) && i < |reg| && k < |reg[i].members| && ValidType(reg, reg[i].members[k].typ)
    requires 8 * size == ElementBits(reg, reg[i].members[k].typ)
    ensures size * reg[i].members[k].count > 0
    ensures 8 * (size * reg[i].members[k].count) == MemberBits(reg, i, k)
  {
    var n := reg[i].members[k].count;
    Product(size, n);
    Scale(size, n);
  }

  lemma FirstStart(reg: Registry, i: nat)
    requires Sound(reg) && i < |reg|
    ensures Start(reg, i, 0) == 0
  {}

  // ---------------------------------------------------------------- what every layout satisfies

  /** Members lie in order without overlap, in bounds, and on byte boundaries unless BOOL. */
  lemma {:induction false} Disjoint(reg: Registry, i: nat, j: nat, k: nat)
    requires Sound(reg) && i < |reg| && j < k <= |reg[i].members|
    ensures Start(reg, i, j) + MemberBits(reg, i, j) <= Cursor(reg, i, k) <= ElementBits(reg, Custom(i))
    ensures k < |reg[i].members| ==> Start(reg, i, j) + MemberBits(reg, i, j) <= Start(reg, i, k)
    ensures !reg[i].members[j].IsBool() ==> Start(reg, i, j) % 8 == 0 && MemberBits(reg, i, j) % 8 == 0
  {
    var n := |reg[i].members|;
    assert Cursor(reg, i, j + 1) == Start(reg, i, j) + MemberBits(reg, i, j);
    CursorMonotone(reg, i, j + 1, k);
    CursorMonotone(reg, i, k, n);
    if !reg[i].members[j].IsBool() {
      WholeBytes(ElementBits(reg, reg[i].members[j].typ), reg[i].members[j].count);
    }
  }

  lemma {:induction false} CursorMonotone(reg: Registry, i: nat, j: nat, k: nat)
    requires Sound(reg) && i < |reg| && j <= k <= |reg[i].members|
    ensures Cursor(reg, i, j) <= Cursor(reg, i, k)
    decreases k
  {
    if j < k {
      CursorMonotone(reg, i, j, k - 1);
      assert Cursor(reg, i, k) == Start(reg, i, k - 1) + MemberBits(reg, i, k - 1);
    }
  }

  /** Creating more types changes no existing layout. */
  lemma {:induction false} Stable(reg: Registry, more: Registry, t: TagType)
    requires Sound(reg) && Sound(reg + more) && ValidType(reg, t)
    ensures ElementBits(reg + more, t) == ElementBits(reg, t)
    decreases if t.Custom? then t.index + 1 else 0, if t.Custom? then |reg[t.index].members| + 1 else 0
  {
    if t.Custom? {
      StableCursor(reg, more, t.index, |reg[t.index].members|);
    }
  }

  lemma {:induction false} StableCursor(reg: Registry, more: Registry, i: nat, k: nat)
    requires Sound(reg) && Sound(reg + more) && i < |reg| && k <= |reg[i].members|
    ensures Cursor(reg + more, i, k) == Cursor(reg, i, k)
    decreases i + 1, k
  {
    if k > 0 {
      StableCursor(reg, more, i, k - 1);
      Stable(reg, more, reg[i].members[k - 1].typ);
      assert MemberBits(reg + more, i, k - 1) == MemberBits(reg, i, k - 1);
    }
  }
}
