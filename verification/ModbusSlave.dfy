/** The Modbus slave (src/modules/modbus/modbus.c, src/modules/modbus/database.c): how a request is turned
    into its response in place, and what it does to the node's holding registers and coils. */
module ModbusSlave {
  import opened Bits
  import opened Store
  import Transfer

  const MB_ERR_OVERFLOW := -16
  const ME_WRONG_FUNCTION: byte := 1
  const ME_BAD_ADDRESS: byte := 2

  // ---------------------------------------------------------------- words on the wire

  /** The `k` low digits of a number as a byte. */
  function Binary(n: nat, k: nat): byte {
    if k == 0 then 0
    else if n % 2 == 0 then Binary(n / 2, k - 1) << 1
    else (Binary(n / 2, k - 1) << 1) | 1
  }

  /** A number kept in one byte, and the number that a byte holds. */
  function ToByte(n: nat): byte { Binary(n % 256, 8) }

  function FromByte(b: byte): (n: nat)
    ensures n < 256
  {
    b as nat
  }

  function Power2(k: nat): nat {
    if k == 0 then 1 else 2 * Power2(k - 1)
  }

  lemma {:induction false} BinaryValue(n: nat, k: nat)
    requires k <= 8 && n < Power2(k)
    ensures FromByte(Binary(n, k)) == n
  {
    hide FromByte;
    if k == 0 {
      Nothing();
    } else {
      BinaryValue(n / 2, k - 1);
      Power2Below(k - 1);
      Appended(Binary(n / 2, k - 1));
    }
  }

  lemma Nothing()
    ensures FromByte(0) == 0
  {}

  lemma {:induction false} Power2Below(k: nat)
    requires k <= 7
    ensures Power2(k) <= 128
    decreases 7 - k
  {
    if k < 7 { Power2Below(k + 1); } else { Power2Of7(); }
  }

  lemma Power2Of7()
    ensures Power2(7) == 128
  {
    assert Power2(3) == 2 * Power2(2) && Power2(5) == 2 * Power2(4);
  }

  /** A digit behind those of a small number. */
  lemma Appended(b: byte)
    requires FromByte(b) < 128
    ensures FromByte(b << 1) == 2 * FromByte(b) && FromByte((b << 1) | 1) == 2 * FromByte(b) + 1
  {
    Smaller(b);
    Twice(b);
    TwiceAndOne(b);
  }

  lemma Smaller(b: byte)
    requires FromByte(b) < 128
    ensures b < 128
  {}

  lemma Twice(b: byte)
    requires b < 128
    ensures FromByte(b << 1) == 2 * FromByte(b)
  {}

  lemma TwiceAndOne(b: byte)
    requires b < 128
    ensures FromByte((b << 1) | 1) == 2 * FromByte(b) + 1
  {}

  lemma ByteRound(n: nat)
    ensures FromByte(ToByte(n)) == n % 256
  {
    hide FromByte;
    Power2Of7();
    assert Power2(8) == 2 * Power2(7);
    BinaryValue(n % 256, 8);
  }

  /** The two bytes of a 16-bit number, high byte first. */
  function High(n: nat): byte { ToByte(n / 256) }

  function Low(n: nat): byte { ToByte(n) }

  function Word(high: byte, low: byte): (n: nat)
    ensures n < 0x1_0000
  {
    256 * FromByte(high) + FromByte(low)
  }

  lemma WordOfBytes(n: nat)
    requires n < 0x1_0000
    ensures Word(High(n), Low(n)) == n
  {
    hide ToByte, FromByte;
    ByteRound(n / 256);
    ByteRound(n);
  }

  /** Registers with the bytes of each exchanged (`COPYWORD` on a little-endian machine). */
  function Swab(s: seq<byte>): (r: seq<byte>)
    ensures |r| == |s|
  {
    seq(|s|, i requires 0 <= i < |s| => s[if i % 2 == 1 then i - 1 else if i + 1 < |s| then i + 1 else i])
  }

  lemma SwabTwice(s: seq<byte>)
    ensures Swab(Swab(s)) == s
  {}

  // ---------------------------------------------------------------- the node's registers

  /** The bytes of a node's two tags and how many registers and coils they hold. */
  datatype Bank = Bank(hold: seq<byte>, holdSize: nat, coil: seq<byte>, coilSize: nat) {
    ghost predicate Valid() {
      |hold| == 2 * holdSize && |coil| == coilSize / 8 + 1
    }
  }

  /** The handles that the slave builds for its own tags. */
  function HoldHandle(index: nat, count: nat): Transfer.Handle {
    Transfer.Handle(2 * index, 0, count, 2 * count, false, 2)
  }

  function CoilHandle(index: nat, count: nat): Transfer.Handle
    requires count > 0
  {
    Transfer.Handle(index / 8, index % 8, count, (index % 8 + count - 1) / 8 + 1, true, 1)
  }

  lemma CoilHandleIs(index: nat, count: nat)
    requires 0 < count
    ensures var h := CoilHandle(index, count);
      && h.Valid() && h.isBool && h.bit < 8 && h.First() == h.Target() == index
      && 0 < h.size && h.count == count <= 8 * h.size
      && (!h.Masked() ==> count == 8 * h.size)
      && (count <= 2400 ==> h.size <= 301)
      && forall n :: index + count <= n ==> h.byte + h.size <= n / 8 + 1
  {
    var h := CoilHandle(index, count);
    assert index == 8 * (index / 8) + index % 8;
    forall n | index + count <= n ensures h.byte + h.size <= n / 8 + 1 {
      assert 8 * (h.byte + h.size - 1) <= index + count - 1;
    }
  }

  /** A node of a port. */
  class Node {
    const hold: Transfer.Server
    const holdSize: nat
    const coil: Transfer.Server
    const coilSize: nat

    constructor (hold: Transfer.Server, holdSize: nat, coil: Transfer.Server, coilSize: nat)
      ensures this.hold == hold && this.holdSize == holdSize && this.coil == coil && this.coilSize == coilSize
    {
      this.hold, this.holdSize, this.coil, this.coilSize := hold, holdSize, coil, coilSize;
    }

    ghost predicate Valid() {
      hold.data != coil.data && hold.data.Length == 2 * holdSize && coil.data.Length == coilSize / 8 + 1
    }

    ghost function Image(): (b: Bank)
      requires Valid()
      reads hold.data, coil.data
      ensures b.Valid()
    {
      Bank(hold.data[..], holdSize, coil.data[..], coilSize)
    }

    /** `slave_write_database` for coils */
    method WriteCoils(index: nat, count: nat, data: seq<byte>)
      requires Valid() && 0 < count <= 2048 && index + count <= coilSize && |data| == 256
      modifies coil.data
      ensures Image().hold == old(Image().hold)
      ensures CoilsWritten(old(Image()), Image(), index, count, data)
    {
      hide Transfer.Accepted, Transfer.Replaced;
      CoilHandleIs(index, count);
      var h := CoilHandle(index, count);
      hide CoilHandle;
      var src := if h.Masked() then data else data[..h.size];
      var err := Transfer.TagWrite(coil, h, src);
      if err == 0 {
        ReplacedFrom(old(coil.data[..]), coil.data[..], index, count, src, data);
      }
    }

    /** `slave_read_database` for coils: the tag is read before the range is looked at, into 300 bytes */
    method ReadCoils(index: nat, count: nat) returns (out: seq<byte>)
      requires Valid() && 0 < count && (index + count <= 8 * (coilSize / 8 + 1) ==> count <= 2400)
      ensures index + count <= coilSize ==> SameBits(out, 0, Image().coil, index, count)
    {
      CoilHandleIs(index, count);
      var h := CoilHandle(index, count);
      hide CoilHandle, Transfer.Handle.Valid, Transfer.ReadOf;
      var err;
      err, out := Transfer.TagRead(coil, h, 0);
      if index + count <= coilSize {
        CoilsSeen(coil.data[..], h, 0, out);
      }
    }

    /** `slave_write_database` for holding registers */
    method WriteHold(index: nat, count: nat, data: seq<byte>)
      requires Valid() && 0 < count <= 128 && index + count <= holdSize && |data| == 256
      modifies hold.data
      ensures Image().coil == old(Image().coil)
      ensures Image().hold == Written(old(Image()).hold, 2 * index, data[..2 * count])
    {
      hide Written;
      var err := Transfer.TagWrite(hold, HoldHandle(index, count), data[..2 * count]);
    }

    /** `slave_read_database` for holding registers */
    method ReadHold(index: nat, count: nat) returns (out: seq<byte>)
      requires Valid() && 0 < count && (index + count <= holdSize ==> count <= 150)
      ensures index + count <= holdSize ==> out == Image().hold[2 * index..2 * (index + count)]
    {
      var err;
      err, out := Transfer.TagRead(hold, HoldHandle(index, count), 0);
    }
  }

  lemma CoilsSeen(data: seq<byte>, h: Transfer.Handle, beyond: byte, out: seq<byte>)
    requires h.Valid() && h.isBool && h.bit < 8 && 0 < h.count <= 8 * h.size && Transfer.ReadOf(data, h, beyond, out)
    ensures SameBits(out, 0, data, h.First(), h.count)
  {
    hide BitAt, Transfer.Seen, Transfer.Handle.Valid;
    forall k | 0 <= k < h.count
      ensures h.First() + k < 8 * |data| && OneOf(out, 0, k) == OneOf(data, h.First(), k)
    {
      Transfer.SeenInside(data, h, beyond, k);
    }
    assert h.First() + (h.count - 1) < 8 * |data| by {
      Transfer.SeenInside(data, h, beyond, h.count - 1);
    }
  }

  /** `count` bits of `s` from `i` are those of `t` from `j`. */
  ghost predicate SameBits(s: seq<byte>, i: nat, t: seq<byte>, j: nat, count: nat) {
    i + count <= 8 * |s| && j + count <= 8 * |t| && forall k :: 0 <= k < count ==> OneOf(s, i, k) == OneOf(t, j, k)
  }

  ghost predicate OneOf(s: seq<byte>, i: nat, k: nat)
    requires i + k < 8 * |s|
  {
    BitAt(s, i + k)
  }

  /** The coils take the bits of `data`, or a write that the tag server refuses is lost. */
  ghost predicate CoilsWritten(b: Bank, c: Bank, index: nat, count: nat, data: seq<byte>)
    requires count > 0
  {
    if Transfer.Accepted(CoilHandle(index, count), |b.coil|) then Transfer.Replaced(b.coil, c.coil, index, count, data)
    else c.coil == b.coil
  }

  lemma ReplacedFrom(before: seq<byte>, after: seq<byte>, first: nat, count: nat, src: seq<byte>, data: seq<byte>)
    requires Transfer.Replaced(before, after, first, count, src) && src <= data
    ensures Transfer.Replaced(before, after, first, count, data)
  {
    hide Bit;
  }

  // ---------------------------------------------------------------- requests and responses

  /** The fields of a request: node, function code, first register or coil, and how many. */
  function Index(p: seq<byte>): nat
    requires |p| >= 6
  {
    Word(p[2], p[3])
  }

  function Count(p: seq<byte>): nat
    requires |p| >= 6
  {
    Word(p[4], p[5])
  }

  /** A request whose data fit the buffers that the slave works in. */
  ghost predicate Fits(b: Bank, p: seq<byte>) {
    && |p| >= 6
    && p[1] !in {2, 4, 5, 6, 8}
    && (p[1] in {1, 3, 15, 16} ==> Count(p) > 0)
    && (p[1] == 1 && Index(p) + Count(p) <= 8 * (b.coilSize / 8 + 1) ==> Count(p) <= 2400)
    && (p[1] == 3 && Index(p) + Count(p) <= b.holdSize ==> Count(p) <= 150)
    && (p[1] == 15 && Index(p) + Count(p) <= b.coilSize ==> Count(p) <= 2048 && 8 + (Count(p) - 1) / 8 <= |p|)
    && (p[1] == 16 && Index(p) + Count(p) <= b.holdSize ==> Count(p) <= 128 && 7 + 2 * Count(p) <= |p|)
  }

  /** The function code of an exception response: 128 more than that of the request, which is to be below 128. */
  ghost predicate Flags(b: byte, flagged: byte) {
    FromByte(flagged) == if FromByte(b) < 128 then FromByte(b) + 128 else FromByte(b)
  }

  /** An exception response (section 7 of MODBUS Application Protocol V1.1b3): the node, the function code plus 128,
      and the exception code. */
  ghost predicate IsException(p: seq<byte>, q: seq<byte>, r: int, code: byte) {
    && r == 3 && 3 <= |p| == |q|
    && q[0] == p[0] && Flags(p[1], q[1]) && q[2] == code && q[3..] == p[3..]
  }

  lemma HighBit(b: byte)
    ensures Flags(b, b | 0x80)
  {}

  /** The response to Read Coils: the bits of the coils follow a byte count. */
  ghost predicate CoilsRead(b: Bank, p: seq<byte>, q: seq<byte>, r: int)
    requires |p| >= 6 && Count(p) > 0
  {
    var n := (Count(p) - 1) / 8 + 1;
    if n > |p| - 3 then r == MB_ERR_OVERFLOW && q == p
    else if Index(p) + Count(p) > b.coilSize then IsException(p, q, r, ME_BAD_ADDRESS)
    else
      && r == n + 3 && Reply(p, q, n)
      && SameBits(q[3..], 0, b.coil, Index(p), Count(p))
  }

  /** The response to Read Holding Registers: the registers, high bytes first, follow a byte count. */
  ghost predicate HoldRead(b: Bank, p: seq<byte>, q: seq<byte>, r: int)
    requires |p| >= 6 && b.Valid()
  {
    var n := 2 * Count(p);
    if n > |p| - 3 then r == MB_ERR_OVERFLOW && q == p
    else if Index(p) + Count(p) > b.holdSize then IsException(p, q, r, ME_BAD_ADDRESS)
    else
      && r == n + 3 && Reply(p, q, n)
      && q[3..3 + n] == Swab(b.hold[2 * Index(p)..2 * Index(p) + n])
  }

  ghost predicate CoilsChanged(b: Bank, p: seq<byte>, c: Bank, q: seq<byte>, r: int)
    requires |p| >= 7 && Count(p) > 0
  {
    if Index(p) + Count(p) > b.coilSize then c == b && IsException(p, q, r, ME_BAD_ADDRESS)
    else r == 6 && q == p && c == b.(coil := c.coil) && CoilsWritten(b, c, Index(p), Count(p), p[7..])
  }

  ghost predicate HoldChanged(b: Bank, p: seq<byte>, c: Bank, q: seq<byte>, r: int)
    requires |p| >= 7 && b.Valid()
  {
    if Index(p) + Count(p) > b.holdSize then c == b && IsException(p, q, r, ME_BAD_ADDRESS)
    else
      && r == 6 && q == p && 7 + 2 * Count(p) <= |p|
      && c == b.(hold := Written(b.hold, 2 * Index(p), Swab(p[7..7 + 2 * Count(p)])))
  }

  /** How a request `p` turns the bank `b` into `c`, the buffer into `q`, and what is returned. */
  ghost predicate Serves(b: Bank, p: seq<byte>, c: Bank, q: seq<byte>, r: int)
    requires b.Valid() && |p| >= 7 && Fits(b, p)
  {
    if p[1] == 1 && b.coilSize > 0 then c == b && CoilsRead(b, p, q, r)
    else if p[1] == 3 && b.holdSize > 0 then c == b && HoldRead(b, p, q, r)
    else if p[1] == 15 && b.coilSize > 0 then CoilsChanged(b, p, c, q, r)
    else if p[1] == 16 && b.holdSize > 0 then HoldChanged(b, p, c, q, r)
    else c == b && IsException(p, q, r, ME_WRONG_FUNCTION)
  }

  /** How many registers or coils of the kind that a request is about the node has; none of an unknown kind. */
  ghost function Available(b: Bank, p: seq<byte>): nat
    requires |p| >= 2
  {
    if p[1] in {1, 15} then b.coilSize else if p[1] in {3, 16} then b.holdSize else 0
  }

  /** The response to a read would not fit the buffer. */
  ghost predicate TooLong(p: seq<byte>)
    requires |p| >= 6
  {
    (p[1] == 1 && Count(p) > 8 * (|p| - 3)) || (p[1] == 3 && 2 * Count(p) > |p| - 3)
  }

  /** A request for something that the node does not have is answered with an exception and changes nothing. */
  lemma RefusedReply(b: Bank, p: seq<byte>, c: Bank, q: seq<byte>, r: int)
    requires b.Valid() && |p| >= 7 && Fits(b, p) && Serves(b, p, c, q, r)
    requires Available(b, p) == 0 || (Index(p) + Count(p) > Available(b, p) && !TooLong(p))
    ensures c == b && r == 3 && |q| == |p| && q[0] == p[0]
    ensures FromByte(p[1]) < 128 ==> FromByte(q[1]) == FromByte(p[1]) + 128
    ensures q[2] == if Available(b, p) == 0 then ME_WRONG_FUNCTION else ME_BAD_ADDRESS
  {
    hide Word, FromByte, Swab, SameBits, CoilsWritten, Written, Reply;
  }

  // ---------------------------------------------------------------- the slave

  /** `_create_exception` */
  method CreateException(buff: array<byte>, base: nat, code: byte) returns (r: int)
    requires base + 3 <= buff.Length
    modifies buff
    ensures buff[..base] == old(buff[..base]) && IsException(old(buff[base..]), buff[base..], r, code)
  {
    hide Flags;
    HighBit(buff[base + 1]);
    ghost var p := buff[base..];
    buff[base + 1] := buff[base + 1] | 0x80;
    buff[base + 2] := code;
    r := 3;
    assert buff[base..] == p[1 := p[1] | 0x80][2 := code];
  }

  /** `_read_bits_response` */
  method ReadBits(node: Node, buff: array<byte>, base: nat) returns (r: int)
    requires node.Valid() && base + 7 <= buff.Length && Fits(node.Image(), buff[base..]) && buff[base + 1] == 1
    requires buff != node.hold.data && buff != node.coil.data
    modifies buff
    ensures buff[..base] == old(buff[..base]) && CoilsRead(node.Image(), old(buff[base..]), buff[base..], r)
  {
    hide Bit, Word, FromByte, SameBits, Reply;
    var index := Word(buff[base + 2], buff[base + 3]);
    var count := Word(buff[base + 4], buff[base + 5]);
    var reg := node.ReadCoils(index, count);
    var n := (count - 1) / 8 + 1;
    if n > buff.Length - base - 3 {
      return MB_ERR_OVERFLOW;
    }
    if index + count > node.coilSize {
      r := CreateException(buff, base, ME_BAD_ADDRESS);
      return;
    }
    BitsBound(reg, 0, node.Image().coil, index, count);
    assert (count + 7) / 8 == n;
    ReplyBits(buff, base, reg, count);
    Through(buff[base..][3..], reg, node.Image().coil, index, count);
    r := n + 3;
  }

  /** The reply of `n` bytes of data: a byte count, and nothing else but the data. */
  ghost predicate Reply(p: seq<byte>, q: seq<byte>, n: nat) {
    && 3 + n <= |p| == |q|
    && q[..2] == p[..2] && FromByte(q[2]) == n % 256 && q[3 + n..] == p[3 + n..]
  }

  method ReplyBits(buff: array<byte>, base: nat, reg: seq<byte>, count: nat)
    requires count <= 8 * |reg| && base + 3 + (count + 7) / 8 <= buff.Length
    modifies buff
    ensures buff[..base] == old(buff[..base]) && Reply(old(buff[base..]), buff[base..], (count + 7) / 8)
    ensures SameBits(buff[base..][3..], 0, reg, 0, count)
  {
    hide SameBits, ToByte, FromByte;
    var n := (count + 7) / 8;
    ghost var p := buff[base..];
    buff[base + 2] := ToByte(n);
    ByteRound(n);
    CopyBits(buff, base + 3, reg, count);
    ghost var q := buff[base..];
    assert q[3..] == buff[base + 3..];
    Frame(p, q, n);
  }

  method ReplyWords(buff: array<byte>, base: nat, reg: seq<byte>, count: nat)
    requires |reg| == 2 * count && base + 3 + 2 * count <= buff.Length
    modifies buff
    ensures buff[..base] == old(buff[..base]) && Reply(old(buff[base..]), buff[base..], 2 * count)
    ensures buff[base..][3..3 + 2 * count] == Swab(reg)
  {
    hide Swab, ToByte, FromByte;
    ghost var p := buff[base..];
    buff[base + 2] := ToByte(2 * count);
    ByteRound(2 * count);
    CopyWords(buff, base + 3, reg, count);
    ghost var q := buff[base..];
    assert q[3..3 + 2 * count] == buff[base + 3..base + 3 + 2 * count];
    Frame(p, q, 2 * count);
  }

  /** The parts of the buffer that a reply with `n` bytes of data leaves alone. */
  lemma Frame(p: seq<byte>, q: seq<byte>, n: nat)
    requires |q| == |p| && 3 + n <= |p|
    requires forall i :: 0 <= i < |p| && i != 2 && !(3 <= i < 3 + n) ==> q[i] == p[i]
    ensures q[..2] == p[..2] && q[3 + n..] == p[3 + n..]
  {}

  lemma BitsBound(s: seq<byte>, i: nat, t: seq<byte>, j: nat, count: nat)
    requires SameBits(s, i, t, j, count)
    ensures i + count <= 8 * |s| && j + count <= 8 * |t|
  {}

  lemma Through(s: seq<byte>, t: seq<byte>, u: seq<byte>, j: nat, count: nat)
    requires SameBits(s, 0, t, 0, count) && SameBits(t, 0, u, j, count)
    ensures SameBits(s, 0, u, j, count)
  {
    hide OneOf;
  }

  /** The loop of `_read_bits_response`; `reg` is a buffer of little-endian words. */
  method CopyBits(buff: array<byte>, start: nat, reg: seq<byte>, count: nat)
    requires count <= 8 * |reg| && 8 * start + count <= 8 * buff.Length
    modifies buff
    ensures buff[..start] == old(buff[..start])
    ensures forall i :: start + (count + 7) / 8 <= i < buff.Length ==> buff[i] == old(buff[i])
    ensures SameBits(buff[start..], 0, reg, 0, count)
  {
    hide Bit;
    var bit, word, buffbit, buffbyte := 0, 0, 0, start;
    for n := 0 to count
      invariant 16 * word + bit == n && bit < 16
      invariant 8 * (buffbyte - start) + buffbit == n && buffbit < 8 && buffbyte >= start
      invariant buff[..start] == old(buff[..start])
      invariant forall i :: start + (n + 7) / 8 <= i < buff.Length ==> buff[i] == old(buff[i])
      invariant SameBits(buff[start..], 0, reg, 0, n)
    {
      AssignBit(buff, buffbyte, buffbit, BitAt(reg, 16 * word + bit), start, n);
      buffbit := buffbit + 1;
      if buffbit == 8 {
        buffbit := 0;
        buffbyte := buffbyte + 1;
      }
      bit := bit + 1;
      if bit == 16 {
        bit := 0;
        word := word + 1;
      }
    }
  }

  /** One bit is set or cleared. */
  method AssignBit(a: array<byte>, byte: nat, bit: nat, value: bool, ghost start: nat, ghost n: nat)
    requires start <= byte < a.Length && bit < 8 && n == 8 * (byte - start) + bit
    modifies a
    ensures forall i :: 0 <= i < a.Length && i != byte ==> a[i] == old(a[i])
    ensures forall k :: 0 <= k < 8 * (a.Length - start) ==>
      BitAt(a[start..], k) == if k == n then value else BitAt(old(a[start..]), k)
  {
    hide Bit, Bits.Set, Bits.Clear;
    ghost var was := a[start..];
    if value {
      a[byte] := Bits.Set(a[byte], bit);
      assert a[start..] == WithBit(was, n);
    } else {
      a[byte] := Bits.Clear(a[byte], bit);
      assert a[start..] == WithoutBit(was, n);
    }
    forall k | 0 <= k < 8 * (a.Length - start) ensures BitAt(a[start..], k) == if k == n then value else BitAt(was, k) {
      OneBit(was, n, k);
    }
  }

  /** `_read_words_response` */
  method ReadWords(node: Node, buff: array<byte>, base: nat) returns (r: int)
    requires node.Valid() && base + 7 <= buff.Length && Fits(node.Image(), buff[base..]) && buff[base + 1] == 3
    requires buff != node.hold.data && buff != node.coil.data
    modifies buff
    ensures buff[..base] == old(buff[..base]) && HoldRead(node.Image(), old(buff[base..]), buff[base..], r)
  {
    hide Word, FromByte, Swab, Reply;
    var index := Word(buff[base + 2], buff[base + 3]);
    var count := Word(buff[base + 4], buff[base + 5]);
    var reg := node.ReadHold(index, count);
    if 2 * count > buff.Length - base - 3 {
      return MB_ERR_OVERFLOW;
    }
    if index + count > node.holdSize {
      r := CreateException(buff, base, ME_BAD_ADDRESS);
      return;
    }
    assert 2 * (index + count) == 2 * index + 2 * count;
    ReplyWords(buff, base, reg, count);
    r := 2 * count + 3;
  }

  /** The loop of `_read_words_response`. */
  method CopyWords(buff: array<byte>, start: nat, reg: seq<byte>, count: nat)
    requires |reg| == 2 * count && start + 2 * count <= buff.Length
    modifies buff
    ensures buff[start..start + 2 * count] == Swab(reg)
    ensures forall i :: 0 <= i < buff.Length && !(start <= i < start + 2 * count) ==> buff[i] == old(buff[i])
  {
    hide Swab;
    for n := 0 to count
      invariant forall i :: 0 <= i < buff.Length ==>
        buff[i] == if start <= i < start + 2 * n then Swab(reg)[i - start] else old(buff[i])
    {
      SwabAt(reg, n);
      buff[start + 2 * n], buff[start + 2 * n + 1] := reg[2 * n + 1], reg[2 * n];
    }
  }

  /** Write Multiple Coils */
  method WriteBits(node: Node, buff: array<byte>, base: nat) returns (r: int)
    requires node.Valid() && base + 7 <= buff.Length && Fits(node.Image(), buff[base..]) && buff[base + 1] == 15
    requires buff != node.hold.data && buff != node.coil.data
    modifies buff, node.coil.data
    ensures buff[..base] == old(buff[..base])
    ensures CoilsChanged(old(node.Image()), old(buff[base..]), node.Image(), buff[base..], r)
  {
    hide Bit, Word, Transfer.Accepted, Transfer.Replaced;
    var index := Word(buff[base + 2], buff[base + 3]);
    var count := Word(buff[base + 4], buff[base + 5]);
    if index + count > node.coilSize {
      r := CreateException(buff, base, ME_BAD_ADDRESS);
      return;
    }
    ghost var p := buff[base..];
    var data := GatherBits(buff, base + 7, count);
    node.WriteCoils(index, count, data);
    assert buff[base + 7..] == p[7..];
    WrittenFrom(old(node.Image()), node.Image(), index, count, data, p[7..]);
    r := 6;
  }

  /** The loop that collects the coils in `data`, whose other bits are left as they were allocated. */
  method GatherBits(buff: array<byte>, start: nat, count: nat) returns (data: seq<byte>)
    requires 0 < count <= 2048 && start + (count - 1) / 8 < buff.Length
    ensures |data| == 256 && SameBits(data, 0, buff[start..], 0, count)
  {
    hide Bit;
    var a := new byte[256];
    var word, bit := 0, 0;
    ghost var src := buff[start..];
    for n := 0 to count
      invariant 16 * word + bit == n && bit < 16
      invariant SameBits(a[..], 0, src, 0, n)
    {
      BitIn(buff, start, n, count);
      AssignBit(a, (16 * word + bit) / 8, (16 * word + bit) % 8, Bit(buff[start + n / 8], n % 8), 0, n);
      assert a[0..] == a[..];
      bit := bit + 1;
      if bit == 16 {
        bit := 0;
        word := word + 1;
      }
    }
    data := a[..];
  }

  lemma BitIn(buff: array<byte>, start: nat, n: nat, count: nat)
    requires n < count && start + (count - 1) / 8 < buff.Length
    ensures n < 8 * |buff[start..]| && start + n / 8 < buff.Length
    ensures BitAt(buff[start..], n) == Bit(buff[start + n / 8], n % 8)
  {}

  lemma WrittenFrom(b: Bank, c: Bank, index: nat, count: nat, data: seq<byte>, payload: seq<byte>)
    requires count > 0 && CoilsWritten(b, c, index, count, data) && SameBits(data, 0, payload, 0, count)
    ensures CoilsWritten(b, c, index, count, payload)
  {
    hide BitAt, Transfer.Accepted;
    assert forall k :: 0 <= k < count ==> OneOf(data, 0, k) == OneOf(payload, 0, k);
    assert forall k :: 0 <= k < count ==> OneOf(data, 0, k) == BitAt(data, k);
  }

  /** Write Multiple Registers */
  method WriteWords(node: Node, buff: array<byte>, base: nat) returns (r: int)
    requires node.Valid() && base + 7 <= buff.Length && Fits(node.Image(), buff[base..]) && buff[base + 1] == 16
    requires buff != node.hold.data && buff != node.coil.data
    modifies buff, node.hold.data
    ensures buff[..base] == old(buff[..base])
    ensures HoldChanged(old(node.Image()), old(buff[base..]), node.Image(), buff[base..], r)
  {
    hide Word, Written;
    var index := Word(buff[base + 2], buff[base + 3]);
    var count := Word(buff[base + 4], buff[base + 5]);
    if index + count > node.holdSize {
      r := CreateException(buff, base, ME_BAD_ADDRESS);
      return;
    }
    var data := GatherWords(buff, base + 7, count);
    ghost var p := buff[base..];
    assert p[7..7 + 2 * count] == buff[base + 7..base + 7 + 2 * count];
    node.WriteHold(index, count, data);
    r := 6;
  }

  lemma SwabAt(s: seq<byte>, n: nat)
    requires 2 * n + 1 < |s| && |s| % 2 == 0
    ensures Swab(s)[2 * n] == s[2 * n + 1] && Swab(s)[2 * n + 1] == s[2 * n]
  {}

  method GatherWords(buff: array<byte>, start: nat, count: nat) returns (data: seq<byte>)
    requires count <= 128 && start + 2 * count <= buff.Length
    ensures |data| == 256 && data[..2 * count] == Swab(buff[start..start + 2 * count])
  {
    hide Swab;
    var a := new byte[256];
    ghost var src := buff[start..start + 2 * count];
    for n := 0 to count
      invariant forall i :: 0 <= i < 2 * n ==> a[i] == Swab(src)[i]
    {
      SwabAt(src, n);
      assert src[2 * n] == buff[start + 2 * n] && src[2 * n + 1] == buff[start + (2 * n + 1)];
      a[2 * n], a[2 * n + 1] := buff[start + 2 * n + 1], buff[start + 2 * n];
    }
    data := a[..];
  }

  /** `create_response` without callbacks, for the node that was found. */
  method CreateResponse(node: Node, buff: array<byte>, base: nat) returns (r: int)
    requires node.Valid() && base + 7 <= buff.Length && Fits(node.Image(), buff[base..])
    requires buff != node.hold.data && buff != node.coil.data
    modifies buff, node.hold.data, node.coil.data
    ensures buff[..base] == old(buff[..base])
    ensures Serves(old(node.Image()), old(buff[base..]), node.Image(), buff[base..], r)
  {
    hide Fits, CoilsRead, HoldRead, CoilsChanged, HoldChanged, IsException;
    var code := buff[base + 1];
    if code == 1 && node.coilSize > 0 {
      r := ReadBits(node, buff, base);
    } else if code == 3 && node.holdSize > 0 {
      r := ReadWords(node, buff, base);
    } else if code == 15 && node.coilSize > 0 {
      r := WriteBits(node, buff, base);
    } else if code == 16 && node.holdSize > 0 {
      r := WriteWords(node, buff, base);
    } else {
      r := CreateException(buff, base, ME_WRONG_FUNCTION);
    }
  }
}
