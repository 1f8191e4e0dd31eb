/** The Modbus RTU checksum (src/modules/modbus/mbutil.c) against the bit-by-bit algorithm of
    section 6.2.2 of MODBUS over Serial Line V1.02, and what the check detects. */
module Crc16 {
  import opened Bits

  // ---------------------------------------------------------------- the reference algorithm

  /** Shift right one place; when a one falls out, exclusive-or with 0xA001. */
  function Shift(c: bv16): bv16 {
    if c & 1 == 1 then (c >> 1) ^ 0xA001 else c >> 1
  }

  function Shift8(c: bv16): bv16 {
    Shift(Shift(Shift(Shift(Shift(Shift(Shift(Shift(c))))))))
  }

  /** One message byte: exclusive-or into the low half of the register, then eight shifts. */
  function Feed(c: bv16, b: byte): bv16 {
    Shift8(Mix(c, b))
  }

  function Mix(c: bv16, b: byte): bv16 {
    c ^ (b as bv16)
  }

  function Register(c: bv16, msg: seq<byte>): bv16 {
    if msg == [] then c else Feed(Register(c, msg[..|msg| - 1]), msg[|msg| - 1])
  }

  function Reference(msg: seq<byte>): bv16 {
    Register(0xFFFF, msg)
  }

  // ---------------------------------------------------------------- the table-driven code

  /** The table entry selected by the low four bits of `n`. */
  function Entry(n: byte, v0: byte, v1: byte, v2: byte, v3: byte, v4: byte, v5: byte, v6: byte, v7: byte,
                 v8: byte, v9: byte, vA: byte, vB: byte, vC: byte, vD: byte, vE: byte, vF: byte): byte
  {
    if n & 8 == 0
    then if n & 4 == 0 then Entry4(n, v0, v1, v2, v3) else Entry4(n, v4, v5, v6, v7)
    else if n & 4 == 0 then Entry4(n, v8, v9, vA, vB) else Entry4(n, vC, vD, vE, vF)
  }

  /** The row selected by a number below sixteen. */
  function Choose<T>(n: byte, v0: T, v1: T, v2: T, v3: T, v4: T, v5: T, v6: T, v7: T,
                     v8: T, v9: T, vA: T, vB: T, vC: T, vD: T, vE: T, vF: T): T
  {
    if n == 0x0 then v0 else if n == 0x1 then v1 else if n == 0x2 then v2 else if n == 0x3 then v3
    else if n == 0x4 then v4 else if n == 0x5 then v5 else if n == 0x6 then v6 else if n == 0x7 then v7
    else if n == 0x8 then v8 else if n == 0x9 then v9 else if n == 0xA then vA else if n == 0xB then vB
    else if n == 0xC then vC else if n == 0xD then vD else if n == 0xE then vE else vF
  }

  function Entry4(n: byte, v0: byte, v1: byte, v2: byte, v3: byte): byte {
    if n & 2 == 0 then (if n & 1 == 0 then v0 else v1) else (if n & 1 == 0 then v2 else v3)
  }

  function CrcHi(index: byte): byte {
    Entry(index >> 4,
      Entry(index, 0x00, 0xC1, 0x81, 0x40, 0x01, 0xC0, 0x80, 0x41, 0x01, 0xC0, 0x80, 0x41, 0x00, 0xC1, 0x81, 0x40),
      Entry(index, 0x01, 0xC0, 0x80, 0x41, 0x00, 0xC1, 0x81, 0x40, 0x00, 0xC1, 0x81, 0x40, 0x01, 0xC0, 0x80, 0x41),
      Entry(index, 0x01, 0xC0, 0x80, 0x41, 0x00, 0xC1, 0x81, 0x40, 0x00, 0xC1, 0x81, 0x40, 0x01, 0xC0, 0x80, 0x41),
      Entry(index, 0x00, 0xC1, 0x81, 0x40, 0x01, 0xC0, 0x80, 0x41, 0x01, 0xC0, 0x80, 0x41, 0x00, 0xC1, 0x81, 0x40),
      Entry(index, 0x01, 0xC0, 0x80, 0x41, 0x00, 0xC1, 0x81, 0x40, 0x00, 0xC1, 0x81, 0x40, 0x01, 0xC0, 0x80, 0x41),
      Entry(index, 0x00, 0xC1, 0x81, 0x40, 0x01, 0xC0, 0x80, 0x41, 0x01, 0xC0, 0x80, 0x41, 0x00, 0xC1, 0x81, 0x40),
      Entry(index, 0x00, 0xC1, 0x81, 0x40, 0x01, 0xC0, 0x80, 0x41, 0x01, 0xC0, 0x80, 0x41, 0x00, 0xC1, 0x81, 0x40),
      Entry(index, 0x01, 0xC0, 0x80, 0x41, 0x00, 0xC1, 0x81, 0x40, 0x00, 0xC1, 0x81, 0x40, 0x01, 0xC0, 0x80, 0x41),
      Entry(index, 0x01, 0xC0, 0x80, 0x41, 0x00, 0xC1, 0x81, 0x40, 0x00, 0xC1, 0x81, 0x40, 0x01, 0xC0, 0x80, 0x41),
      Entry(index, 0x00, 0xC1, 0x81, 0x40, 0x01, 0xC0, 0x80, 0x41, 0x01, 0xC0, 0x80, 0x41, 0x00, 0xC1, 0x81, 0x40),
      Entry(index, 0x00, 0xC1, 0x81, 0x40, 0x01, 0xC0, 0x80, 0x41, 0x01, 0xC0, 0x80, 0x41, 0x00, 0xC1, 0x81, 0x40),
      Entry(index, 0x01, 0xC0, 0x80, 0x41, 0x00, 0xC1, 0x81, 0x40, 0x00, 0xC1, 0x81, 0x40, 0x01, 0xC0, 0x80, 0x41),
      Entry(index, 0x00, 0xC1, 0x81, 0x40, 0x01, 0xC0, 0x80, 0x41, 0x01, 0xC0, 0x80, 0x41, 0x00, 0xC1, 0x81, 0x40),
      Entry(index, 0x01, 0xC0, 0x80, 0x41, 0x00, 0xC1, 0x81, 0x40, 0x00, 0xC1, 0x81, 0x40, 0x01, 0xC0, 0x80, 0x41),
      Entry(index, 0x01, 0xC0, 0x80, 0x41, 0x00, 0xC1, 0x81, 0x40, 0x00, 0xC1, 0x81, 0x40, 0x01, 0xC0, 0x80, 0x41),
      Entry(index, 0x00, 0xC1, 0x81, 0x40, 0x01, 0xC0, 0x80, 0x41, 0x01, 0xC0, 0x80, 0x41, 0x00, 0xC1, 0x81, 0x40))
  }

  /** The second table, sixteen entries to a row. */
  function CrcLo(index: byte): byte {
    Choose(index >> 4, Lo0(index), Lo1(index), Lo2(index), Lo3(index), Lo4(index), Lo5(index), Lo6(index), Lo7(index),
      Lo8(index), Lo9(index), LoA(index), LoB(index), LoC(index), LoD(index), LoE(index), LoF(index))
  }

  function Lo0(n: byte): byte {
    Entry(n, 0x00, 0xC0, 0xC1, 0x01, 0xC3, 0x03, 0x02, 0xC2, 0xC6, 0x06, 0x07, 0xC7, 0x05, 0xC5, 0xC4, 0x04)
  }

  function Lo1(n: byte): byte {
    Entry(n, 0xCC, 0x0C, 0x0D, 0xCD, 0x0F, 0xCF, 0xCE, 0x0E, 0x0A, 0xCA, 0xCB, 0x0B, 0xC9, 0x09, 0x08, 0xC8)
  }

  function Lo2(n: byte): byte {
    Entry(n, 0xD8, 0x18, 0x19, 0xD9, 0x1B, 0xDB, 0xDA, 0x1A, 0x1E, 0xDE, 0xDF, 0x1F, 0xDD, 0x1D, 0x1C, 0xDC)
  }

  function Lo3(n: byte): byte {
    Entry(n, 0x14, 0xD4, 0xD5, 0x15, 0xD7, 0x17, 0x16, 0xD6, 0xD2, 0x12, 0x13, 0xD3, 0x11, 0xD1, 0xD0, 0x10)
  }

  function Lo4(n: byte): byte {
    Entry(n, 0xF0, 0x30, 0x31, 0xF1, 0x33, 0xF3, 0xF2, 0x32, 0x36, 0xF6, 0xF7, 0x37, 0xF5, 0x35, 0x34, 0xF4)
  }

  function Lo5(n: byte): byte {
    Entry(n, 0x3C, 0xFC, 0xFD, 0x3D, 0xFF, 0x3F, 0x3E, 0xFE, 0xFA, 0x3A, 0x3B, 0xFB, 0x39, 0xF9, 0xF8, 0x38)
  }

  function Lo6(n: byte): byte {
    Entry(n, 0x28, 0xE8, 0xE9, 0x29, 0xEB, 0x2B, 0x2A, 0xEA, 0xEE, 0x2E, 0x2F, 0xEF, 0x2D, 0xED, 0xEC, 0x2C)
  }

  function Lo7(n: byte): byte {
    Entry(n, 0xE4, 0x24, 0x25, 0xE5, 0x27, 0xE7, 0xE6, 0x26, 0x22, 0xE2, 0xE3, 0x23, 0xE1, 0x21, 0x20, 0xE0)
  }

  function Lo8(n: byte): byte {
    Entry(n, 0xA0, 0x60, 0x61, 0xA1, 0x63, 0xA3, 0xA2, 0x62, 0x66, 0xA6, 0xA7, 0x67, 0xA5, 0x65, 0x64, 0xA4)
  }

  function Lo9(n: byte): byte {
    Entry(n, 0x6C, 0xAC, 0xAD, 0x6D, 0xAF, 0x6F, 0x6E, 0xAE, 0xAA, 0x6A, 0x6B, 0xAB, 0x69, 0xA9, 0xA8, 0x68)
  }

  function LoA(n: byte): byte {
    Entry(n, 0x78, 0xB8, 0xB9, 0x79, 0xBB, 0x7B, 0x7A, 0xBA, 0xBE, 0x7E, 0x7F, 0xBF, 0x7D, 0xBD, 0xBC, 0x7C)
  }

  function LoB(n: byte): byte {
    Entry(n, 0xB4, 0x74, 0x75, 0xB5, 0x77, 0xB7, 0xB6, 0x76, 0x72, 0xB2, 0xB3, 0x73, 0xB1, 0x71, 0x70, 0xB0)
  }

  function LoC(n: byte): byte {
    Entry(n, 0x50, 0x90, 0x91, 0x51, 0x93, 0x53, 0x52, 0x92, 0x96, 0x56, 0x57, 0x97, 0x55, 0x95, 0x94, 0x54)
  }

  function LoD(n: byte): byte {
    Entry(n, 0x9C, 0x5C, 0x5D, 0x9D, 0x5F, 0x9F, 0x9E, 0x5E, 0x5A, 0x9A, 0x9B, 0x5B, 0x99, 0x59, 0x58, 0x98)
  }

  function LoE(n: byte): byte {
    Entry(n, 0x88, 0x48, 0x49, 0x89, 0x4B, 0x8B, 0x8A, 0x4A, 0x4E, 0x8E, 0x8F, 0x4F, 0x8D, 0x4D, 0x4C, 0x8C)
  }

  function LoF(n: byte): byte {
    Entry(n, 0x44, 0x84, 0x85, 0x45, 0x87, 0x47, 0x46, 0x86, 0x82, 0x42, 0x43, 0x83, 0x41, 0x81, 0x80, 0x40)
  }

  function Word(hi: byte, lo: byte): bv16 {
    ((hi as bv16) << 8) | (lo as bv16)
  }

  /** `crc16`: the checksum in the order it is sent, the register's low byte in the high half. */
  method Checksum(msg: seq<byte>) returns (crc: bv16)
    ensures crc == Swap(Reference(msg))
  {
    hide Shift8, Feed, CrcHi, CrcLo, Word, Swap;
    StartWord();
    var crcHi: byte, crcLo: byte := 0xFF, 0xFF;
    for k := 0 to |msg|
      invariant Word(crcLo, crcHi) == Reference(msg[..k])
    {
      var index := crcHi ^ msg[k];
      assert msg[..k + 1][..k] == msg[..k];
      TableStep(crcHi, crcLo, msg[k]);
      crcHi := crcLo ^ CrcHi(index);
      crcLo := CrcLo(index);
    }
    assert msg[..|msg|] == msg;
    crc := Word(crcHi, crcLo);
    SwapWord(crcHi, crcLo);
  }

  function Swap(c: bv16): bv16 {
    (c << 8) | (c >> 8)
  }

  /** `crc16check`: true exactly when the last two bytes hold the checksum of the rest, that is,
      when the reference register is zero after the whole frame. */
  method Check(frame: seq<byte>) returns (ok: bool)
    ensures ok == Accepts(frame)
    ensures ok <==> |frame| >= 2 && Reference(frame) == 0
  {
    var n := |frame|;
    if n < 2 {
      return false;
    }
    var local := Checksum(frame[..n - 2]);
    var remote := Word(frame[n - 2], frame[n - 1]);
    AcceptsIffZero(frame);
    return local == remote;
  }

  predicate Accepts(frame: seq<byte>) {
    |frame| >= 2 && Word(frame[|frame| - 2], frame[|frame| - 1]) == Swap(Reference(frame[..|frame| - 2]))
  }

  /** What a sender transmits: the message and its checksum, high half first. */
  function Seal(msg: seq<byte>): (frame: seq<byte>)
    ensures |frame| == |msg| + 2 && frame[..|msg|] == msg
  {
    var c := Reference(msg);
    msg + [(c & 0xFF) as byte, (c >> 8) as byte]
  }

  // ---------------------------------------------------------------- table against reference

  function TableEntry(i: byte): bv16 {
    Shift8(i as bv16)
  }

  lemma TableHi(i: byte)
    ensures TableEntry(i) & 0xFF == CrcHi(i) as bv16
  {}

  lemma TableLo(i: byte)
    ensures TableEntry(i) >> 8 == CrcLo(i) as bv16
  {
    hide TableEntry, CrcLo;
    EntryClosed(i);
    TableLoClosed(i);
  }

  /** A closed form of an entry: the byte shifted up, corrected when it has an odd number of ones. */
  function Closed(i: byte): bv16 {
    var w := i as bv16;
    var p := w ^ (w >> 4);
    var q := p ^ (p >> 2);
    (w << 6) ^ (w << 7) ^ (if (q ^ (q >> 1)) & 1 == 1 then 0xC001 else 0)
  }

  lemma EntryClosed(i: byte)
    ensures TableEntry(i) == Closed(i)
  {}

  lemma TableLoClosed(i: byte)
    ensures Closed(i) >> 8 == CrcLo(i) as bv16
  {
    hide Closed, Lo0, Lo1, Lo2, Lo3, Lo4, Lo5, Lo6, Lo7, Lo8, Lo9, LoA, LoB, LoC, LoD, LoE, LoF;
    LastRow(i);
    if i >> 4 == 0x0 { Row0(i); }
    else if i >> 4 == 0x1 { Row1(i); }
    else if i >> 4 == 0x2 { Row2(i); }
    else if i >> 4 == 0x3 { Row3(i); }
    else if i >> 4 == 0x4 { Row4(i); }
    else if i >> 4 == 0x5 { Row5(i); }
    else if i >> 4 == 0x6 { Row6(i); }
    else if i >> 4 == 0x7 { Row7(i); }
    else if i >> 4 == 0x8 { Row8(i); }
    else if i >> 4 == 0x9 { Row9(i); }
    else if i >> 4 == 0xA { RowA(i); }
    else if i >> 4 == 0xB { RowB(i); }
    else if i >> 4 == 0xC { RowC(i); }
    else if i >> 4 == 0xD { RowD(i); }
    else if i >> 4 == 0xE { RowE(i); }
    else { RowF(i); }
  }

  lemma LastRow(i: byte)
    ensures i >> 4 <= 0xF
  {}

  lemma Row0(i: byte)
    requires i >> 4 == 0x0
    ensures Closed(i) >> 8 == Lo0(i) as bv16
  {}

  lemma Row1(i: byte)
    requires i >> 4 == 0x1
    ensures Closed(i) >> 8 == Lo1(i) as bv16
  {}

  lemma Row2(i: byte)
    requires i >> 4 == 0x2
    ensures Closed(i) >> 8 == Lo2(i) as bv16
  {}

  lemma Row3(i: byte)
    requires i >> 4 == 0x3
    ensures Closed(i) >> 8 == Lo3(i) as bv16
  {}

  lemma Row4(i: byte)
    requires i >> 4 == 0x4
    ensures Closed(i) >> 8 == Lo4(i) as bv16
  {}

  lemma Row5(i: byte)
    requires i >> 4 == 0x5
    ensures Closed(i) >> 8 == Lo5(i) as bv16
  {}

  lemma Row6(i: byte)
    requires i >> 4 == 0x6
    ensures Closed(i) >> 8 == Lo6(i) as bv16
  {}

  lemma Row7(i: byte)
    requires i >> 4 == 0x7
    ensures Closed(i) >> 8 == Lo7(i) as bv16
  {}

  lemma Row8(i: byte)
    requires i >> 4 == 0x8
    ensures Closed(i) >> 8 == Lo8(i) as bv16
  {}

  lemma Row9(i: byte)
    requires i >> 4 == 0x9
    ensures Closed(i) >> 8 == Lo9(i) as bv16
  {}

  lemma RowA(i: byte)
    requires i >> 4 == 0xA
    ensures Closed(i) >> 8 == LoA(i) as bv16
  {}

  lemma RowB(i: byte)
    requires i >> 4 == 0xB
    ensures Closed(i) >> 8 == LoB(i) as bv16
  {}

  lemma RowC(i: byte)
    requires i >> 4 == 0xC
    ensures Closed(i) >> 8 == LoC(i) as bv16
  {}

  lemma RowD(i: byte)
    requires i >> 4 == 0xD
    ensures Closed(i) >> 8 == LoD(i) as bv16
  {}

  lemma RowE(i: byte)
    requires i >> 4 == 0xE
    ensures Closed(i) >> 8 == LoE(i) as bv16
  {}

  lemma RowF(i: byte)
    requires i >> 4 == 0xF
    ensures Closed(i) >> 8 == LoF(i) as bv16
  {}

  /** Eight shifts move the high byte down; the rest of the result depends on the low byte alone. */
  function Down(c: bv16, t: bv16): bv16 {
    (c >> 8) ^ t
  }

  lemma ShiftSplit(c: bv16)
    ensures Shift8(c) == Down(c, TableEntry((c & 0xFF) as byte))
  {
    Halves(c);
    hide Shift8, Xor;
    Shift8Linear(c & 0xFF00, c & 0xFF);
    ShiftAligned(c & 0xFF00);
    HalvesJoin(c, Shift8(c & 0xFF));
  }

  lemma Halves(c: bv16)
    ensures Xor(c & 0xFF00, c & 0xFF) == c && (c & 0xFF00) & 0xFF == 0 && ((c & 0xFF) as byte) as bv16 == c & 0xFF
  {}

  lemma HalvesJoin(c: bv16, t: bv16)
    ensures Xor((c & 0xFF00) >> 8, t) == Down(c, t)
  {}

  lemma TableStep(hi: byte, lo: byte, b: byte)
    ensures Word(CrcLo(hi ^ b), lo ^ CrcHi(hi ^ b)) == Feed(Word(lo, hi), b)
  {
    hide Shift8, CrcHi, CrcLo, Word, Mix, Down, TableEntry;
    var i := hi ^ b;
    LowByte(hi, lo, b);
    ShiftSplit(Mix(Word(lo, hi), b));
    TableJoin(hi, lo, b);
  }

  lemma LowByte(hi: byte, lo: byte, b: byte)
    ensures (Mix(Word(lo, hi), b) & 0xFF) as byte == hi ^ b
  {}

  lemma TableJoin(hi: byte, lo: byte, b: byte)
    ensures Word(CrcLo(hi ^ b), lo ^ CrcHi(hi ^ b)) == Down(Mix(Word(lo, hi), b), TableEntry(hi ^ b))
  {
    hide Shift8, CrcHi, CrcLo, Word, Mix, Down, TableEntry;
    var i := hi ^ b;
    TableHi(i);
    TableLo(i);
    JoinBits(hi, lo, b, TableEntry(i), CrcHi(i), CrcLo(i));
  }

  lemma JoinBits(hi: byte, lo: byte, b: byte, t: bv16, th: byte, tl: byte)
    requires t & 0xFF == th as bv16 && t >> 8 == tl as bv16
    ensures Word(tl, lo ^ th) == Down(Mix(Word(lo, hi), b), t)
  {}

  lemma StartWord()
    ensures Word(0xFF, 0xFF) == 0xFFFF
  {}

  lemma SwapWord(hi: byte, lo: byte)
    ensures Word(hi, lo) == Swap(Word(lo, hi))
  {}

  // ---------------------------------------------------------------- the zero residue

  lemma ShiftZero(c: bv16)
    ensures Shift8(c) == 0 <==> c == 0
  {}

  lemma RegisterSplit(c: bv16, a: seq<byte>, b: seq<byte>)
    ensures Register(c, a + b) == Register(Register(c, a), b)
    decreases |b|
  {
    if b == [] {
      assert a + b == a;
    } else {
      assert (a + b)[..|a + b| - 1] == a + b[..|b| - 1];
      RegisterSplit(c, a, b[..|b| - 1]);
    }
  }

  /** Only the register's own two bytes bring it to zero. */
  lemma Residue(c: bv16, x: byte, y: byte)
    ensures Feed(Feed(c, x), y) == 0 <==> Word(x, y) == Swap(c)
  {
    hide Shift8, Word, Swap, Mix;
    ShiftZero(Mix(Shift8(Mix(c, x)), y));
    if Mix(c, x) & 0xFF == 0 {
      ResidueMatch(c, x, y);
    } else {
      ResidueMismatch(c, x, y);
    }
  }

  lemma ResidueMatch(c: bv16, x: byte, y: byte)
    requires Mix(c, x) & 0xFF == 0
    ensures Mix(Shift8(Mix(c, x)), y) == 0 <==> Word(x, y) == Swap(c)
  {
    hide Shift8, Word, Swap;
    ShiftAligned(Mix(c, x));
    MatchBits(c, x, y);
  }

  lemma MatchBits(c: bv16, x: byte, y: byte)
    requires (c ^ (x as bv16)) & 0xFF == 0
    ensures ((c ^ (x as bv16)) >> 8) ^ (y as bv16) == 0 <==> Word(x, y) == Swap(c)
  {}

  lemma ShiftAligned(c: bv16)
    requires c & 0xFF == 0
    ensures Shift8(c) == c >> 8
  {}

  /** A wrong first byte leaves the high half of the register non-zero, so no second byte helps. */
  lemma ResidueMismatch(c: bv16, x: byte, y: byte)
    requires Mix(c, x) & 0xFF != 0
    ensures Mix(Shift8(Mix(c, x)), y) != 0
    ensures Word(x, y) != Swap(c)
  {}

  lemma AcceptsIffZero(frame: seq<byte>)
    requires |frame| >= 2
    ensures Accepts(frame) <==> Reference(frame) == 0
  {
    hide Feed, Word, Swap;
    var n := |frame|;
    var body, x, y := frame[..n - 2], frame[n - 2], frame[n - 1];
    assert frame[..n - 1][..n - 2] == body;
    assert Register(0xFFFF, frame[..n - 1]) == Feed(Register(0xFFFF, body), x);
    Residue(Reference(body), x, y);
  }

  lemma SealWord(c: bv16)
    ensures Word((c & 0xFF) as byte, (c >> 8) as byte) == Swap(c)
  {}

  /** Every sealed frame passes the check. */
  lemma SealedAccepted(msg: seq<byte>)
    ensures Accepts(Seal(msg))
  {
    hide Register, Word, Swap;
    var f := Seal(msg);
    assert f[..|f| - 2] == msg;
    SealWord(Reference(msg));
  }

  // ---------------------------------------------------------------- what the check detects

  /** The bit positions at which two frames of equal length differ, as a third frame. */
  function Difference(f: seq<byte>, g: seq<byte>): (e: seq<byte>)
    requires |f| == |g|
    ensures |e| == |f| && forall k :: 0 <= k < |e| ==> e[k] == f[k] ^ g[k]
  {
    seq(|f|, k requires 0 <= k < |f| => f[k] ^ g[k])
  }

  function Xor(c: bv16, d: bv16): bv16 {
    c ^ d
  }

  lemma ShiftLinear(c: bv16, d: bv16)
    ensures Shift(Xor(c, d)) == Xor(Shift(c), Shift(d))
  {
    hide Shift, Xor;
    if c & 1 == 1 {
      if d & 1 == 1 { ShiftBothOdd(c, d); } else { ShiftOneOdd(c, d); }
    } else {
      if d & 1 == 1 { ShiftOneOdd(d, c); } else { ShiftBothEven(c, d); }
    }
  }

  lemma ShiftBothEven(c: bv16, d: bv16)
    requires c & 1 != 1 && d & 1 != 1
    ensures Shift(Xor(c, d)) == Xor(Shift(c), Shift(d))
  {}

  lemma ShiftBothOdd(c: bv16, d: bv16)
    requires c & 1 == 1 && d & 1 == 1
    ensures Shift(Xor(c, d)) == Xor(Shift(c), Shift(d))
  {}

  lemma ShiftOneOdd(c: bv16, d: bv16)
    requires c & 1 == 1 && d & 1 != 1
    ensures Shift(Xor(c, d)) == Xor(Shift(c), Shift(d))
    ensures Shift(Xor(d, c)) == Xor(Shift(d), Shift(c))
  {}

  lemma Shift8Linear(c: bv16, d: bv16)
    ensures Shift8(Xor(c, d)) == Xor(Shift8(c), Shift8(d))
  {
    hide Shift, Xor;
    var c1, d1 := Shift(c), Shift(d);
    var c2, d2 := Shift(c1), Shift(d1);
    var c3, d3 := Shift(c2), Shift(d2);
    var c4, d4 := Shift(c3), Shift(d3);
    var c5, d5 := Shift(c4), Shift(d4);
    var c6, d6 := Shift(c5), Shift(d5);
    var c7, d7 := Shift(c6), Shift(d6);
    ShiftLinear(c, d);
    ShiftLinear(c1, d1);
    ShiftLinear(c2, d2);
    ShiftLinear(c3, d3);
    ShiftLinear(c4, d4);
    ShiftLinear(c5, d5);
    ShiftLinear(c6, d6);
    ShiftLinear(c7, d7);
  }

  lemma FeedLinear(c: bv16, d: bv16, x: byte, y: byte)
    ensures Feed(Xor(c, d), x ^ y) == Xor(Feed(c, x), Feed(d, y))
  {
    hide Shift8, Mix, Xor;
    MixLinear(c, d, x, y);
    Shift8Linear(Mix(c, x), Mix(d, y));
  }

  lemma MixLinear(c: bv16, d: bv16, x: byte, y: byte)
    ensures Mix(Xor(c, d), x ^ y) == Xor(Mix(c, x), Mix(d, y))
  {}

  /** The register is linear: the registers of two frames differ by the register of their difference. */
  lemma {:induction false} RegisterLinear(c: bv16, d: bv16, f: seq<byte>, g: seq<byte>)
    requires |f| == |g|
    ensures Register(Xor(c, d), Difference(f, g)) == Xor(Register(c, f), Register(d, g))
    decreases |f|
  {
    hide Feed, Xor;
    if f != [] {
      var m := |f| - 1;
      RegisterLinear(c, d, f[..m], g[..m]);
      assert Difference(f, g)[..m] == Difference(f[..m], g[..m]);
      FeedLinear(Register(c, f[..m]), Register(d, g[..m]), f[m], g[m]);
    }
  }

  lemma XorZero(c: bv16, d: bv16)
    ensures Xor(c, c) == 0 && (Xor(c, d) == 0 <==> c == d)
  {}

  /** A frame next to an accepted one is accepted exactly when their difference alone leaves the register at zero. */
  lemma AcceptedNeighbour(f: seq<byte>, g: seq<byte>)
    requires Accepts(f) && |g| == |f|
    ensures Accepts(g) <==> Register(0, Difference(f, g)) == 0
  {
    hide Register, Word, Swap, Xor;
    AcceptsIffZero(f);
    AcceptsIffZero(g);
    RegisterLinear(0xFFFF, 0xFFFF, f, g);
    XorZero(0xFFFF, 0xFFFF);
    XorZero(Register(0xFFFF, f), Register(0xFFFF, g));
  }

  /** `f` and `g` agree outside the sixteen bits that start at bit `p`. */
  ghost predicate AgreeOutside(f: seq<byte>, g: seq<byte>, p: nat) {
    && |f| == |g|
    && forall k :: 0 <= k < 8 * |f| && !(p <= k < p + 16) ==> BitAt(f, k) == BitAt(g, k)
  }

  function LowBits(s: nat): byte
    requires s < 8
  {
    Mask(s) - 1
  }

  /** A byte has no ones below bit `s`, or none from bit `s` on. */
  predicate Above(b: byte, s: nat)
    requires s < 8
  {
    b & LowBits(s) == 0
  }

  predicate Below(b: byte, s: nat)
    requires s < 8
  {
    b & !LowBits(s) == 0
  }

  lemma LowBitsAt(s: nat, i: nat)
    requires s < 8 && i < 8
    ensures Bit(LowBits(s), i) <==> i < s
  {}

  /** A register fed zero bytes keeps whether it is zero. */
  lemma {:induction false} FeedZeros(c: bv16, z: seq<byte>)
    requires forall k :: 0 <= k < |z| ==> z[k] == 0
    ensures Register(c, z) == 0 <==> c == 0
    decreases |z|
  {
    hide Shift8, Mix;
    if z != [] {
      FeedZeros(c, z[..|z| - 1]);
      var r := Register(c, z[..|z| - 1]);
      MixZero(r);
      ShiftZero(r);
    }
  }

  lemma MixZero(c: bv16)
    ensures Mix(c, 0) == c
  {}

  /** Three bytes whose ones lie in sixteen consecutive bits take a zero register to a non-zero one. */
  lemma Window(x: byte, y: byte, z: byte, s: nat)
    requires s < 8 && Above(x, s) && Below(z, s)
    requires Feed(Feed(Feed(0, x), y), z) == 0
    ensures x == 0 && y == 0 && z == 0
  {
    hide Shift8, Mix, Word, Swap, Above, Below;
    Residue(Feed(0, x), y, z);
    WindowStart(x);
    EntryClosed(x);
    WindowBits(x, y, z, s);
  }

  lemma WindowStart(x: byte)
    ensures Feed(0, x) == TableEntry(x)
  {}

  lemma WindowBits(x: byte, y: byte, z: byte, s: nat)
    requires s < 8 && Above(x, s) && Below(z, s)
    requires Word(y, z) == Swap(Closed(x))
    ensures x == 0 && y == 0 && z == 0
  {}

  /** Every corruption confined to sixteen consecutive bits of an accepted frame, checksum bytes
      included, is rejected; two adjacent bytes are the case `p % 8 == 0`. */
  lemma BurstRejected(f: seq<byte>, g: seq<byte>, p: nat)
    requires Accepts(f) && g != f && AgreeOutside(f, g, p)
    ensures !Accepts(g)
  {
    hide Accepts, Register;
    AcceptedNeighbour(f, g);
    var e := Difference(f, g);
    if Register(0, e) == 0 {
      BurstIsZero(f, g, p);
      assert false;
    }
  }

  lemma BurstIsZero(f: seq<byte>, g: seq<byte>, p: nat)
    requires AgreeOutside(f, g, p) && Register(0, Difference(f, g)) == 0
    ensures f == g
  {
    hide Feed, Bit, Above, Below, Register, Difference;
    var e := Difference(f, g);
    WindowBytes(f, g, p);
    if p / 8 < |e| {
      WindowIsZero(e, p / 8, p % 8);
    }
    forall k | 0 <= k < |e| ensures f[k] == g[k] {
      assert e[k] == 0;
      ByteXorZero(f[k], g[k]);
    }
  }

  /** A difference that lies in a window and leaves the register at zero is no difference. */
  lemma WindowIsZero(e: seq<byte>, j: nat, s: nat)
    requires j < |e| && s < 8 && Register(0, e) == 0
    requires forall k :: 0 <= k < |e| && !(j <= k <= j + 2) ==> e[k] == 0
    requires Above(e[j], s) && (j + 2 < |e| ==> Below(e[j + 2], s))
    ensures forall k :: 0 <= k < |e| ==> e[k] == 0
  {
    hide Feed, Above, Below, Register;
    var padded := e + [0, 0];
    var before, after := padded[..j], padded[j + 3..];
    var x, y, z := padded[j], padded[j + 1], padded[j + 2];
    ZeroFits(s);
    PaddedZero(e);
    FeedZeros(0, before);
    ThreeBytes(before, x, y, z, after);
    assert padded == before + [x, y, z] + after;
    Window(x, y, z, s);
  }

  lemma PaddedZero(e: seq<byte>)
    requires Register(0, e) == 0
    ensures Register(0, e + [0, 0]) == 0
  {
    hide Register;
    RegisterSplit(0, e, [0, 0]);
    FeedZeros(Register(0, e), [0, 0]);
  }

  lemma ZeroFits(s: nat)
    requires s < 8
    ensures Above(0, s) && Below(0, s)
  {}

  lemma ByteXorZero(a: byte, b: byte)
    requires a ^ b == 0
    ensures a == b
  {}

  lemma ThreeBytes(before: seq<byte>, x: byte, y: byte, z: byte, after: seq<byte>)
    requires Register(0, before) == 0
    requires forall k :: 0 <= k < |after| ==> after[k] == 0
    ensures Register(0, before + [x, y, z] + after) == 0 <==> Feed(Feed(Feed(0, x), y), z) == 0
  {
    hide Feed;
    RegisterSplit(0, before + [x, y, z], after);
    RegisterSplit(0, before, [x, y, z]);
    assert [x, y, z][..2] == [x, y] && [x, y][..1] == [x];
    assert Register(0, [x]) == Feed(0, x);
    assert Register(0, [x, y]) == Feed(Feed(0, x), y);
    FeedZeros(Register(0, before + [x, y, z]), after);
  }

  lemma WindowBytes(f: seq<byte>, g: seq<byte>, p: nat)
    requires AgreeOutside(f, g, p)
    ensures forall k :: 0 <= k < |f| && !(p / 8 <= k <= p / 8 + 2) ==> Difference(f, g)[k] == 0
    ensures p / 8 < |f| ==> Above(Difference(f, g)[p / 8], p % 8)
    ensures p / 8 + 2 < |f| ==> Below(Difference(f, g)[p / 8 + 2], p % 8)
  {
    assert |f| == |g|;
    hide Bit, LowBits, AgreeOutside, Difference;
    forall k | 0 <= k < |f| && !(p / 8 <= k <= p / 8 + 2) ensures Difference(f, g)[k] == 0 {
      OutsideByte(f, g, p, k);
    }
    if p / 8 < |f| {
      DifferenceByte(f, g, p, p / 8, LowBits(p % 8));
    }
    if p / 8 + 2 < |f| {
      DifferenceByte(f, g, p, p / 8 + 2, !LowBits(p % 8));
    }
  }

  lemma OutsideByte(f: seq<byte>, g: seq<byte>, p: nat, k: nat)
    requires AgreeOutside(f, g, p) && k < |f| && !(p / 8 <= k <= p / 8 + 2)
    ensures Difference(f, g)[k] == 0
  {
    assert |f| == |g|;
    hide AgreeOutside, Difference;
    DifferenceByte(f, g, p, k, 0xFF);
    AllBits(Difference(f, g)[k]);
  }

  lemma AllBits(b: byte)
    ensures b & 0xFF == b
  {}

  /** The bits of byte `k` selected by `m` do not differ, if they all lie outside the window. */
  lemma DifferenceByte(f: seq<byte>, g: seq<byte>, p: nat, k: nat, m: byte)
    requires AgreeOutside(f, g, p) && k < |f|
    requires
      || (m == 0xFF && !(p / 8 <= k <= p / 8 + 2))
      || (m == LowBits(p % 8) && k == p / 8)
      || (m == !LowBits(p % 8) && k == p / 8 + 2)
    ensures Difference(f, g)[k] & m == 0
  {
    hide Bit, LowBits;
    var d := f[k] ^ g[k];
    var e := d & m;
    forall i | 0 <= i < 8 ensures !Bit(e, i) {
      SelectedAgree(f, g, p, k, m, i);
      AndBit(d, m, i);
    }
    ZeroByte(e);
  }

  lemma SelectedAgree(f: seq<byte>, g: seq<byte>, p: nat, k: nat, m: byte, i: nat)
    requires AgreeOutside(f, g, p) && k < |f| && i < 8
    requires
      || (m == 0xFF && !(p / 8 <= k <= p / 8 + 2))
      || (m == LowBits(p % 8) && k == p / 8)
      || (m == !LowBits(p % 8) && k == p / 8 + 2)
    ensures Bit(m, i) ==> !Bit(f[k] ^ g[k], i)
  {
    hide Bit, LowBits;
    BitOps(f[k], g[k], i);
    LowBitsAt(p % 8, i);
    BitOps(LowBits(p % 8), 0, i);
    AgreeAt(f, g, p, k, i);
  }

  lemma AgreeAt(f: seq<byte>, g: seq<byte>, p: nat, k: nat, i: nat)
    requires AgreeOutside(f, g, p) && k < |f| && i < 8
    ensures 8 * k + i < p || p + 16 <= 8 * k + i ==> Bit(f[k], i) == Bit(g[k], i)
  {
    hide Bit;
    if 8 * k + i < p || p + 16 <= 8 * k + i {
      assert BitAt(f, 8 * k + i) == BitAt(g, 8 * k + i);
    }
  }

  // ---------------------------------------------------------------- odd errors

  function Mask16(i: nat): (m: bv16)
    requires i < 16
  {
    if i < 8 then Mask(i) as bv16 else (Mask(i - 8) as bv16) << 8
  }

  predicate Bit16(c: bv16, i: nat)
    requires i < 16
  {
    c & Mask16(i) != 0
  }

  /** The number of ones among the lowest `n` bits. */
  function Ones(c: bv16, n: nat): nat
    requires n <= 16
  {
    if n == 0 then 0 else Ones(c, n - 1) + (if Bit16(c, n - 1) then 1 else 0)
  }

  function OnesInByte(b: byte): nat {
    Ones(b as bv16, 16)
  }

  function OnesIn(e: seq<byte>): nat {
    if e == [] then 0 else OnesIn(e[..|e| - 1]) + OnesInByte(e[|e| - 1])
  }

  /** How many bits differ between two frames. */
  function FlippedBits(f: seq<byte>, g: seq<byte>): nat
    requires |f| == |g|
  {
    OnesIn(Difference(f, g))
  }

  lemma Bit16Xor(c: bv16, d: bv16, i: nat)
    requires i < 16
    ensures Bit16(c ^ d, i) == (Bit16(c, i) != Bit16(d, i))
  {
    Bit16XorMask(c, d, Mask16(i));
  }

  lemma Bit16XorMask(c: bv16, d: bv16, m: bv16)
    requires m & (m - 1) == 0
    ensures ((c ^ d) & m != 0) == ((c & m != 0) != (d & m != 0))
  {}

  lemma Bit16Shr(c: bv16, i: nat)
    requires i < 16
    ensures Bit16(c >> 1, i) == (i < 15 && Bit16(c, i + 1))
  {}

  lemma Bit16Low(c: bv16)
    ensures Bit16(c, 0) <==> c & 1 == 1
  {}

  lemma {:induction false} OnesXor(c: bv16, d: bv16, n: nat)
    requires n <= 16
    ensures Ones(c ^ d, n) % 2 == (Ones(c, n) + Ones(d, n)) % 2
  {
    hide Bit16;
    if n > 0 {
      OnesXor(c, d, n - 1);
      Bit16Xor(c, d, n - 1);
    }
  }

  lemma {:induction false} OnesShr(c: bv16, n: nat)
    requires n < 16
    ensures Ones(c, n + 1) == Ones(c >> 1, n) + (if Bit16(c, 0) then 1 else 0)
  {
    hide Bit16;
    if n > 0 {
      OnesShr(c, n - 1);
      Bit16Shr(c, n - 1);
    }
  }

  /** 0xA001 has three ones, so a shift that loses a one gains an odd number back. */
  lemma OddShift(c: bv16)
    ensures Ones(Shift(c), 16) % 2 == Ones(c, 16) % 2
  {
    hide Bit16;
    OnesShr(c, 15);
    Bit16Shr(c, 15);
    Bit16Low(c);
    OnesXor(c >> 1, 0xA001, 16);
    OnesPolynomial();
  }

  lemma OnesPolynomial()
    ensures Ones(0xA001, 16) == 3
  {
    assert Ones(0xA001, 4) == 1;
    assert Ones(0xA001, 8) == 1;
    assert Ones(0xA001, 12) == 1;
  }

  lemma OddShift8(c: bv16)
    ensures Ones(Shift8(c), 16) % 2 == Ones(c, 16) % 2
  {
    hide Ones, Shift;
    OddShift(c);
    OddShift(Shift(c));
    OddShift(Shift(Shift(c)));
    OddShift(Shift(Shift(Shift(c))));
    OddShift(Shift(Shift(Shift(Shift(c)))));
    OddShift(Shift(Shift(Shift(Shift(Shift(c))))));
    OddShift(Shift(Shift(Shift(Shift(Shift(Shift(c)))))));
    OddShift(Shift(Shift(Shift(Shift(Shift(Shift(Shift(c))))))));
  }

  lemma OddFeed(c: bv16, b: byte)
    ensures Ones(Feed(c, b), 16) % 2 == (Ones(c, 16) + OnesInByte(b)) % 2
  {
    hide Ones, Shift8;
    OnesXor(c, b as bv16, 16);
    OddShift8(Mix(c, b));
  }

  lemma OddNext(c: bv16, b: byte, n: nat)
    requires Ones(c, 16) % 2 == n % 2
    ensures Ones(Feed(c, b), 16) % 2 == (n + OnesInByte(b)) % 2
  {
    hide Ones, OnesInByte, Feed;
    OddFeed(c, b);
  }

  lemma LastByte(e: seq<byte>)
    requires e != []
    ensures var m := |e| - 1;
      Register(0, e) == Feed(Register(0, e[..m]), e[m]) && OnesIn(e) == OnesIn(e[..m]) + OnesInByte(e[m])
  {
    hide Ones, OnesInByte, Feed;
  }

  lemma NoBytes()
    ensures Register(0, []) == 0 && OnesIn([]) == 0
  {}

  lemma {:induction false} OddRegister(e: seq<byte>)
    ensures Ones(Register(0, e), 16) % 2 == OnesIn(e) % 2
    decreases |e|
  {
    hide *;
    if e == [] {
      NoBytes();
      NoOnes(16);
    } else {
      var m := |e| - 1;
      OddRegister(e[..m]);
      LastByte(e);
      OddNext(Register(0, e[..m]), e[m], OnesIn(e[..m]));
    }
  }

  lemma {:induction false} NoOnes(n: nat)
    requires n <= 16
    ensures Ones(0, n) == 0
  {
    if n > 0 { NoOnes(n - 1); }
  }

  /** A corruption that flips an odd number of bits, wherever they are, is rejected. */
  lemma OddRejected(f: seq<byte>, g: seq<byte>)
    requires Accepts(f) && |g| == |f| && FlippedBits(f, g) % 2 == 1
    ensures !Accepts(g)
  {
    hide Ones, OnesIn, Register, Word, Swap;
    AcceptedNeighbour(f, g);
    OddRegister(Difference(f, g));
    NoOnes(16);
  }
}
