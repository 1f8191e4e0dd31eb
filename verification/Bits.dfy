/** Bytes, single bits and bit ranges of byte buffers.

    Bit `k` of a buffer is bit `k % 8` of byte `k / 8`, least significant bit first; this is the
    numbering used by BOOL tags, write masks, map masks and Modbus coils alike. */
module Bits {

  type byte = bv8

  /** The C expression `0x01 << i`. */
  function Mask(i: nat): (m: byte)
    requires i < 8
    ensures OneHot(m)
  {
    match i
    case 0 => 0x01 case 1 => 0x02 case 2 => 0x04 case 3 => 0x08
    case 4 => 0x10 case 5 => 0x20 case 6 => 0x40 case 7 => 0x80
  }

  predicate Test(b: byte, mask: byte) {
    b & mask != 0
  }

  predicate OneHot(m: byte) {
    m == 0x01 || m == 0x02 || m == 0x04 || m == 0x08 || m == 0x10 || m == 0x20 || m == 0x40 || m == 0x80
  }

  /** The test `b & (0x01 << i)`. */
  predicate Bit(b: byte, i: nat)
    requires i < 8
  {
    Test(b, Mask(i))
  }

  predicate BitAt(s: seq<byte>, k: nat)
    requires k < 8 * |s|
  {
    Bit(s[k / 8], k % 8)
  }

  lemma BitOps(a: byte, b: byte, i: nat)
    requires i < 8
    ensures Bit(a | b, i) == (Bit(a, i) || Bit(b, i))
    ensures Bit(a & b, i) == (Bit(a, i) && Bit(b, i))
    ensures Bit(a ^ b, i) == (Bit(a, i) != Bit(b, i))
    ensures Bit(!a, i) == !Bit(a, i)
  {
    hide Bit;
    OrBit(a, b, i);
    AndBit(a, b, i);
    XorBit(a, b, i);
    NotBit(a, i);
  }

  lemma OrBit(a: byte, b: byte, i: nat)
    requires i < 8
    ensures Bit(a | b, i) == (Bit(a, i) || Bit(b, i))
  {
    hide Test, OneHot, Mask;
    TestOr(a, b, Mask(i));
  }

  lemma AndBit(a: byte, b: byte, i: nat)
    requires i < 8
    ensures Bit(a & b, i) == (Bit(a, i) && Bit(b, i))
  {
    hide Test, OneHot, Mask;
    TestAnd(a, b, Mask(i));
  }

  lemma XorBit(a: byte, b: byte, i: nat)
    requires i < 8
    ensures Bit(a ^ b, i) == (Bit(a, i) != Bit(b, i))
  {
    hide Test, OneHot, Mask;
    TestXor(a, b, Mask(i));
  }

  lemma NotBit(a: byte, i: nat)
    requires i < 8
    ensures Bit(!a, i) == !Bit(a, i)
  {
    hide Test, OneHot, Mask;
    TestNot(a, Mask(i));
  }

  lemma TestOr(a: byte, b: byte, m: byte)
    ensures Test(a | b, m) == (Test(a, m) || Test(b, m))
  {}

  lemma TestAnd(a: byte, b: byte, m: byte)
    requires OneHot(m)
    ensures Test(a & b, m) == (Test(a, m) && Test(b, m))
  {}

  lemma TestXor(a: byte, b: byte, m: byte)
    requires OneHot(m)
    ensures Test(a ^ b, m) == (Test(a, m) != Test(b, m))
  {}

  lemma TestNot(a: byte, m: byte)
    requires OneHot(m)
    ensures Test(!a, m) == !Test(a, m)
  {}

  lemma ConstBits(i: nat)
    requires i < 8
    ensures !Bit(0, i) && Bit(0xFF, i)
  {}

  /** A byte is determined by its eight bits. */
  lemma ByteExt(a: byte, b: byte)
    requires forall i :: 0 <= i < 8 ==> Bit(a, i) == Bit(b, i)
    ensures a == b
  {
    if a ^ b != 0 {
      var i := SetBit(a ^ b);
      BitOps(a, b, i);
      assert false;
    }
  }

  /** A non-zero byte has a bit that is set. */
  lemma SetBit(a: byte) returns (i: nat)
    requires a != 0
    ensures i < 8 && Bit(a, i)
  {
    if a & 0x01 != 0 { i := 0; } else if a & 0x02 != 0 { i := 1; }
    else if a & 0x04 != 0 { i := 2; } else if a & 0x08 != 0 { i := 3; }
    else if a & 0x10 != 0 { i := 4; } else if a & 0x20 != 0 { i := 5; }
    else if a & 0x40 != 0 { i := 6; } else { i := 7; }
  }

  lemma ZeroByte(a: byte)
    requires forall i :: 0 <= i < 8 ==> !Bit(a, i)
    ensures a == 0
  {
    if a != 0 {
      var i := SetBit(a);
      assert false;
    }
  }

  /** A buffer is determined by its length and its bits. */
  lemma BufferExt(s: seq<byte>, t: seq<byte>)
    requires |s| == |t|
    requires forall k :: 0 <= k < 8 * |s| ==> BitAt(s, k) == BitAt(t, k)
    ensures s == t
  {
    forall n | 0 <= n < |s| ensures s[n] == t[n] {
      forall i | 0 <= i < 8 ensures Bit(s[n], i) == Bit(t[n], i) {
        assert BitAt(s, 8 * n + i) == BitAt(t, 8 * n + i);
      }
      ByteExt(s[n], t[n]);
    }
  }

  // ---------------------------------------------------------------- changing single bits

  /** `b |= (1 << i)` */
  function Set(b: byte, i: nat): byte
    requires i < 8
  {
    b | Mask(i)
  }

  /** `b &= ~(1 << i)` */
  function Clear(b: byte, i: nat): byte
    requires i < 8
  {
    b & !Mask(i)
  }

  /** `b ^= (1 << i)` */
  function Flip(b: byte, i: nat): byte
    requires i < 8
  {
    b ^ Mask(i)
  }

  lemma OneBitOfByte(b: byte, i: nat, j: nat)
    requires i < 8 && j < 8
    ensures Bit(Set(b, i), j) == (i == j || Bit(b, j))
    ensures Bit(Clear(b, i), j) == (i != j && Bit(b, j))
    ensures Bit(Flip(b, i), j) == (Bit(b, j) != (i == j))
  {
    hide Bit, Set, Clear, Flip;
    SetOne(b, i, j);
    ClearOne(b, i, j);
    FlipOne(b, i, j);
  }

  lemma SetOne(b: byte, i: nat, j: nat)
    requires i < 8 && j < 8
    ensures Bit(Set(b, i), j) == (i == j || Bit(b, j))
  {
    hide Bit, Mask, OneHot;
    MaskBits(i, j);
    OrBit(b, Mask(i), j);
  }

  lemma ClearOne(b: byte, i: nat, j: nat)
    requires i < 8 && j < 8
    ensures Bit(Clear(b, i), j) == (i != j && Bit(b, j))
  {
    hide Bit, Mask, OneHot;
    MaskBits(i, j);
    AndBit(b, !Mask(i), j);
    NotBit(Mask(i), j);
  }

  lemma FlipOne(b: byte, i: nat, j: nat)
    requires i < 8 && j < 8
    ensures Bit(Flip(b, i), j) == (Bit(b, j) != (i == j))
  {
    hide Bit, Mask, OneHot;
    MaskBits(i, j);
    XorBit(b, Mask(i), j);
  }

  lemma MaskBits(i: nat, j: nat)
    requires i < 8 && j < 8
    ensures Bit(Mask(i), j) == (i == j)
  {}

  function WithBit(s: seq<byte>, i: nat): (r: seq<byte>)
    requires i < 8 * |s|
    ensures |r| == |s|
  {
    s[i / 8 := Set(s[i / 8], i % 8)]
  }

  function WithoutBit(s: seq<byte>, i: nat): (r: seq<byte>)
    requires i < 8 * |s|
    ensures |r| == |s|
  {
    s[i / 8 := Clear(s[i / 8], i % 8)]
  }

  function FlippedBit(s: seq<byte>, i: nat): (r: seq<byte>)
    requires i < 8 * |s|
    ensures |r| == |s|
  {
    s[i / 8 := Flip(s[i / 8], i % 8)]
  }

  /** Each of the three changes one bit and no other. */
  lemma OneBit(s: seq<byte>, i: nat, k: nat)
    requires i < 8 * |s| && k < 8 * |s|
    ensures BitAt(WithBit(s, i), k) == (k == i || BitAt(s, k))
    ensures BitAt(WithoutBit(s, i), k) == (k != i && BitAt(s, k))
    ensures BitAt(FlippedBit(s, i), k) == (BitAt(s, k) != (k == i))
  {
    hide Bit, Set, Clear, Flip;
    if k / 8 == i / 8 {
      OneBitOfByte(s[i / 8], i % 8, k % 8);
    }
  }

  lemma ZeroBuffer(s: seq<byte>, k: nat)
    requires k < 8 * |s| && s[k / 8] == 0
    ensures !BitAt(s, k)
  {
    ConstBits(k % 8);
  }

  /** Bit `k` of a slice. */
  lemma SliceBit(s: seq<byte>, a: nat, b: nat, k: nat)
    requires a <= b <= |s| && k < 8 * (b - a)
    ensures BitAt(s[a..b], k) == BitAt(s, 8 * a + k)
  {}

  // ---------------------------------------------------------------- merging under a mask

  /** `(new & mask) | (old & ~mask)` */
  function Merge(was: byte, now: byte, mask: byte): byte {
    (now & mask) | (was & !mask)
  }

  lemma MergeBit(was: byte, now: byte, mask: byte, i: nat)
    requires i < 8
    ensures Bit(Merge(was, now, mask), i) == if Bit(mask, i) then Bit(now, i) else Bit(was, i)
  {
    hide Test, Mask, OneHot, Merge;
    MergeTest(was, now, mask, Mask(i));
  }

  lemma MergeTest(was: byte, now: byte, mask: byte, m: byte)
    requires OneHot(m)
    ensures Test(Merge(was, now, mask), m) == if Test(mask, m) then Test(now, m) else Test(was, m)
  {
    hide OneHot;
    Selects(mask, m);
    if mask & m == 0 {
      MergeOld(was, now, mask, m);
    } else {
      MergeNew(was, now, mask, m);
    }
  }

  lemma Selects(mask: byte, m: byte)
    requires OneHot(m)
    ensures mask & m == 0 || mask & m == m
  {}

  lemma MergeOld(was: byte, now: byte, mask: byte, m: byte)
    requires mask & m == 0
    ensures ((now & mask) | (was & !mask)) & m == was & m
  {}

  lemma MergeNew(was: byte, now: byte, mask: byte, m: byte)
    requires mask & m == m
    ensures ((now & mask) | (was & !mask)) & m == now & m
  {}
}
