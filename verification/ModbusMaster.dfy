/** The Modbus TCP master (src/modules/modbus/modbus.c), and the whole path from a command to the slave's
    registers and back. */
module ModbusMaster {
  import opened Bits
  import opened Store
  import Transfer
  import opened ModbusSlave
  import opened ModbusServer

  const MB_FRAME_LEN := 1024
  const ME_WRONG_DEVICE := 3

  /** A command that is sent continuously: read coils (1) or holding registers (3), write coils (15) or
      holding registers (16).  `data` is what a write sends. */
  datatype Command = Command(node: byte, code: byte, first: nat, length: nat, data: seq<byte>) {

    function Bytes(): nat { if code in {1, 15} then (length + 7) / 8 else 2 * length }

    predicate Writes() { code in {15, 16} }

    /** The request and its response fit the slave's buffer. */
    ghost predicate Valid() {
      && code in {1, 3, 15, 16} && FromByte(node) < MB_MAX_SLAVE_NODES
      && first < 0x1_0000 && 0 < length < 0x1_0000
      && if Writes() then 13 + Bytes() <= MB_BUFF_SIZE && Bytes() <= |data| else 9 + Bytes() <= MB_BUFF_SIZE
    }

    /** What a write sends after the number of items. */
    function Payload(): seq<byte>
      requires Writes() ==> Bytes() <= |data|
    {
      if code == 15 then [ToByte(Bytes())] + data[..Bytes()]
      else if code == 16 then [ToByte(Bytes())] + Swab(data[..Bytes()])
      else []
    }

    /** What follows the function code. */
    function Body(): seq<byte>
      requires Writes() ==> Bytes() <= |data|
    {
      [High(first), Low(first), High(length), Low(length)] + Payload()
    }

    function Request(tid: nat): seq<byte>
      requires Writes() ==> Bytes() <= |data|
    {
      [High(tid), Low(tid), 0, 0, High(2 + |Body()|), Low(2 + |Body()|), node, code] + Body()
    }
  }

  /** `sendTCPrequest` */
  method SendRequest(tid: nat, cmd: Command) returns (frame: seq<byte>)
    requires cmd.Valid() && tid < 0x1_0000
    ensures frame == cmd.Request(tid) && OnWire(frame, tid, cmd)
  {
    hide ToByte, FromByte, High, Low, Command.Body, Command.Bytes;
    var buff := new byte[MB_FRAME_LEN];
    buff[0], buff[1], buff[2], buff[3] := High(tid), Low(tid), 0, 0;
    buff[6], buff[7] := cmd.node, cmd.code;
    var length := FillBody(buff, cmd);
    buff[4], buff[5] := High(length), Low(length);
    frame := buff[..length + 6];
    assert frame[8..] == cmd.Body();
    Framed(frame, High(tid), Low(tid), High(length), Low(length), cmd.node, cmd.code, cmd.Body());
    RequestOnWire(cmd, tid);
  }

  lemma Framed(s: seq<byte>, a: byte, b: byte, c: byte, d: byte, node: byte, code: byte, body: seq<byte>)
    requires |s| == 8 + |body| && s[0] == a && s[1] == b && s[2] == 0 && s[3] == 0 && s[4] == c && s[5] == d
    requires s[6] == node && s[7] == code && s[8..] == body
    ensures s == [a, b, 0, 0, c, d, node, code] + body
  {}

  /** A 16-bit number at `k`, high byte first. */
  ghost predicate Has(frame: seq<byte>, k: nat, n: nat) {
    k + 1 < |frame| && 256 * (frame[k] as int) + frame[k + 1] as int == n
  }

  /** The request byte by byte: transaction, protocol 0, length, unit, function, first item, number of items; and for
      a write the byte count, then the bytes of the coils, or the registers with the high byte first. */
  ghost predicate OnWire(frame: seq<byte>, tid: nat, cmd: Command)
    requires cmd.Valid()
  {
    && |frame| == (if cmd.Writes() then 13 + cmd.Bytes() else 12)
    && Has(frame, 0, tid) && Has(frame, 2, 0) && Has(frame, 4, |frame| - 6)
    && frame[6] == cmd.node && frame[7] == cmd.code
    && Has(frame, 8, cmd.first) && Has(frame, 10, cmd.length)
    && (cmd.Writes() ==> frame[12] as int == cmd.Bytes())
    && (cmd.code == 15 ==> frame[13..] == cmd.data[..cmd.Bytes()])
    && (cmd.code == 16 ==> forall j :: 0 <= j < cmd.length ==>
         Has(frame, 13 + 2 * j, cmd.data[2 * j] as int + 256 * (cmd.data[2 * j + 1] as int)))
  }

  lemma HasWord(frame: seq<byte>, k: nat, n: nat)
    requires k + 1 < |frame| && n < 0x1_0000 && frame[k] == High(n) && frame[k + 1] == Low(n)
    ensures Has(frame, k, n)
  {
    hide High, Low;
    WordOfBytes(n);
  }

  lemma RequestOnWire(cmd: Command, tid: nat)
    requires cmd.Valid() && tid < 0x1_0000
    ensures OnWire(cmd.Request(tid), tid, cmd)
  {
    RequestParts(cmd, tid);
    HeaderOnWire(cmd, tid);
    if cmd.Writes() {
      DataOnWire(cmd, cmd.Request(tid));
    }
    hide Has, High, Low, ToByte, Swab, Command.Body, Command.Bytes, Command.Request, Command.Payload;
  }

  lemma RequestParts(cmd: Command, tid: nat)
    requires cmd.Valid()
    ensures var frame := cmd.Request(tid);
      && |frame| == 12 + |cmd.Payload()| && |cmd.Payload()| == (if cmd.Writes() then 1 + cmd.Bytes() else 0)
      && frame[0] == High(tid) && frame[1] == Low(tid) && frame[2] == 0 && frame[3] == 0
      && frame[4] == High(|frame| - 6) && frame[5] == Low(|frame| - 6) && frame[6] == cmd.node && frame[7] == cmd.code
      && frame[8] == High(cmd.first) && frame[9] == Low(cmd.first)
      && frame[10] == High(cmd.length) && frame[11] == Low(cmd.length) && frame[12..] == cmd.Payload()
  {
    hide High, Low, ToByte, Swab;
    assert cmd.Body() == Head(cmd) + cmd.Payload();
    hide Command.Body, Command.Payload, Command.Bytes;
    var n := 2 + |cmd.Body()|;
    var header := [High(tid), Low(tid), 0, 0, High(n), Low(n), cmd.node, cmd.code];
    Joined(cmd.Request(tid), header, Head(cmd), cmd.Payload());
  }

  lemma Joined(s: seq<byte>, a: seq<byte>, b: seq<byte>, c: seq<byte>)
    requires |a| == 8 && |b| == 4 && s == a + (b + c)
    ensures |s| == 12 + |c| && s[12..] == c
    ensures forall k :: 0 <= k < 8 ==> s[k] == a[k]
    ensures s[8] == b[0] && s[9] == b[1] && s[10] == b[2] && s[11] == b[3]
  {}

  lemma HeaderOnWire(cmd: Command, tid: nat)
    requires cmd.Valid() && tid < 0x1_0000
    ensures var frame := cmd.Request(tid);
      && |frame| >= 12 && Has(frame, 0, tid) && Has(frame, 2, 0) && Has(frame, 4, |frame| - 6)
      && Has(frame, 8, cmd.first) && Has(frame, 10, cmd.length)
  {
    hide Has, High, Low, ToByte, FromByte, Command.Payload, Command.Request;
    RequestParts(cmd, tid);
    HeaderHas(cmd.Request(tid), tid, cmd.first, cmd.length);
  }

  lemma HeaderHas(frame: seq<byte>, tid: nat, first: nat, length: nat)
    requires 12 <= |frame| < 0x1_0000 && tid < 0x1_0000 && first < 0x1_0000 && length < 0x1_0000
    requires frame[0] == High(tid) && frame[1] == Low(tid) && frame[2] == 0 && frame[3] == 0
    requires frame[4] == High(|frame| - 6) && frame[5] == Low(|frame| - 6)
    requires frame[8] == High(first) && frame[9] == Low(first) && frame[10] == High(length) && frame[11] == Low(length)
    ensures Has(frame, 0, tid) && Has(frame, 2, 0) && Has(frame, 4, |frame| - 6)
    ensures Has(frame, 8, first) && Has(frame, 10, length)
  {
    hide Has, High, Low;
    HasWord(frame, 0, tid);
    HasZero(frame, 2);
    HasWord(frame, 4, |frame| - 6);
    HasWord(frame, 8, first);
    HasWord(frame, 10, length);
  }

  lemma HasZero(frame: seq<byte>, k: nat)
    requires k + 1 < |frame| && frame[k] == 0 && frame[k + 1] == 0
    ensures Has(frame, k, 0)
  {}

  lemma DataOnWire(cmd: Command, frame: seq<byte>)
    requires cmd.Valid() && cmd.Writes() && |frame| == 13 + cmd.Bytes() && frame[12..] == cmd.Payload()
    ensures frame[12] as int == cmd.Bytes()
    ensures cmd.code == 15 ==> frame[13..] == cmd.data[..cmd.Bytes()]
    ensures cmd.code == 16 ==> forall j :: 0 <= j < cmd.length ==>
      Has(frame, 13 + 2 * j, cmd.data[2 * j] as int + 256 * (cmd.data[2 * j + 1] as int))
  {
    hide ToByte, Swab, Has, FromByte;
    var data := cmd.data[..cmd.Bytes()];
    assert frame[12] == frame[12..][0] && frame[13..] == frame[12..][1..];
    assert frame[13..] == if cmd.code == 15 then data else Swab(data);
    CountOnWire(frame[12], cmd.Bytes());
    if cmd.code == 16 {
      RegistersOnWire(frame, data, cmd.length);
      assert forall i :: 0 <= i < |data| ==> data[i] == cmd.data[i];
    }
  }

  lemma CountOnWire(b: byte, n: nat)
    requires b == ToByte(n) && n < 256
    ensures b as int == n
  {
    hide ToByte;
    ByteRound(n);
  }

  lemma RegistersOnWire(frame: seq<byte>, data: seq<byte>, n: nat)
    requires |frame| == 13 + |data| && |data| == 2 * n && frame[13..] == Swab(data)
    ensures forall j :: 0 <= j < n ==> Has(frame, 13 + 2 * j, data[2 * j] as int + 256 * (data[2 * j + 1] as int))
  {
    hide Swab, Has;
    forall j | 0 <= j < n ensures Has(frame, 13 + 2 * j, data[2 * j] as int + 256 * (data[2 * j + 1] as int)) {
      RegisterOnWire(frame, data, j);
    }
  }

  lemma RegisterOnWire(frame: seq<byte>, data: seq<byte>, j: nat)
    requires |frame| == 13 + |data| && frame[13..] == Swab(data) && 2 * j + 1 < |data| && |data| % 2 == 0
    ensures Has(frame, 13 + 2 * j, data[2 * j] as int + 256 * (data[2 * j + 1] as int))
  {
    hide Swab;
    SwabAt(data, j);
    assert frame[13..][2 * j] == frame[13 + 2 * j] && frame[13..][2 * j + 1] == frame[13 + 2 * j + 1];
  }

  /** The request from its first register on; returns the length for the header. */
  method FillBody(buff: array<byte>, cmd: Command) returns (length: nat)
    requires cmd.Valid() && buff.Length == MB_FRAME_LEN
    modifies buff
    ensures length == 2 + |cmd.Body()| && length + 6 <= buff.Length
    ensures buff[8..length + 6] == cmd.Body()
    ensures forall i :: 0 <= i < 8 ==> buff[i] == old(buff[i])
  {
    hide ToByte, FromByte, High, Low, Swab;
    buff[8], buff[9] := High(cmd.first), Low(cmd.first);
    buff[10], buff[11] := High(cmd.length), Low(cmd.length);
    ghost var head := buff[8..12];
    assert head == [High(cmd.first), Low(cmd.first), High(cmd.length), Low(cmd.length)];
    length := 6;
    if cmd.Writes() {
      FillData(buff, cmd);
      length := 7 + cmd.Bytes();
    }
    assert buff[8..length + 6] == buff[8..12] + buff[12..length + 6];
  }

  /** The byte count and the data of a write. */
  method FillData(buff: array<byte>, cmd: Command)
    requires cmd.Valid() && cmd.Writes() && buff.Length == MB_FRAME_LEN
    modifies buff
    ensures buff[12..13 + cmd.Bytes()] ==
      [ToByte(cmd.Bytes())] + if cmd.code == 15 then cmd.data[..cmd.Bytes()] else Swab(cmd.data[..cmd.Bytes()])
    ensures forall i :: 0 <= i < 12 ==> buff[i] == old(buff[i])
  {
    hide ToByte, FromByte, Swab;
    if cmd.code == 15 {
      buff[12] := ToByte((cmd.length - 1) / 8 + 1);
      CopyData(buff, cmd.data, cmd.Bytes());
    } else {
      buff[12] := ToByte(2 * cmd.length);
      CopyWords(buff, 13, cmd.data[..cmd.Bytes()], cmd.length);
    }
    assert buff[12..13 + cmd.Bytes()] == [buff[12]] + buff[13..13 + cmd.Bytes()];
  }

  method CopyData(buff: array<byte>, data: seq<byte>, n: nat)
    requires n <= |data| && 13 + n <= buff.Length
    modifies buff
    ensures buff[13..13 + n] == data[..n]
    ensures forall i :: 0 <= i < buff.Length && !(13 <= i < 13 + n) ==> buff[i] == old(buff[i])
  {
    for k := 0 to n
      invariant forall i :: 0 <= i < buff.Length ==> buff[i] == if 13 <= i < 13 + k then data[i - 13] else old(buff[i])
    {
      buff[13 + k] := data[k];
    }
  }

  // ---------------------------------------------------------------- the request as the slave sees it

  /** The slave finds in `p` what the master put there. */
  ghost predicate Carries(p: seq<byte>, cmd: Command) {
    && |p| == MB_BUFF_SIZE - 6 && p[0] == cmd.node && p[1] == cmd.code
    && Index(p) == cmd.first && Count(p) == cmd.length
    && (cmd.Writes() ==> cmd.Bytes() <= |cmd.data| && 7 + cmd.Bytes() <= |p|)
    && (cmd.code == 15 ==> p[7..7 + cmd.Bytes()] == cmd.data[..cmd.Bytes()])
    && (cmd.code == 16 ==> p[7..7 + cmd.Bytes()] == Swab(cmd.data[..cmd.Bytes()]))
  }

  lemma RequestShape(cmd: Command, tid: nat)
    requires cmd.Valid()
    ensures |cmd.Body()| == if cmd.Writes() then 5 + cmd.Bytes() else 4
    ensures |cmd.Request(tid)| == 8 + |cmd.Body()| && IsFrame(cmd.Request(tid)) && cmd.Request(tid)[6] == cmd.node
  {
    hide ToByte, FromByte, High, Low, Word, Swab;
    WordOfBytes(2 + |cmd.Body()|);
  }

  lemma RequestArrives(cmd: Command, tid: nat, rest: seq<byte>, p: seq<byte>)
    requires cmd.Valid() && |rest| + |cmd.Request(tid)| == MB_BUFF_SIZE && p == (cmd.Request(tid) + rest)[6..]
    ensures Carries(p, cmd)
  {
    RequestShape(cmd, tid);
    AfterHeader(cmd, tid, rest, p);
    hide *;
    if cmd.Writes() {
      ArrivesData(cmd, rest, p);
    } else {
      ArrivesRead(cmd, rest, p);
    }
  }

  function Head(cmd: Command): (s: seq<byte>)
    ensures |s| == 4
  {
    [High(cmd.first), Low(cmd.first), High(cmd.length), Low(cmd.length)]
  }

  lemma ArrivesRead(cmd: Command, rest: seq<byte>, p: seq<byte>)
    requires cmd.Valid() && !cmd.Writes() && p == [cmd.node, cmd.code] + cmd.Body() + rest && |p| == MB_BUFF_SIZE - 6
    ensures Carries(p, cmd)
  {
    hide ToByte, FromByte, High, Low, Word;
    Parts(p, cmd.node, cmd.code, Head(cmd), [], rest);
    WordOfBytes(cmd.first);
    WordOfBytes(cmd.length);
  }

  lemma ArrivesData(cmd: Command, rest: seq<byte>, p: seq<byte>)
    requires cmd.Valid() && cmd.Writes() && p == [cmd.node, cmd.code] + cmd.Body() + rest && |p| == MB_BUFF_SIZE - 6
    ensures Carries(p, cmd)
  {
    hide ToByte, FromByte, High, Low, Word, Swab;
    var payload := if cmd.code == 15 then cmd.data[..cmd.Bytes()] else Swab(cmd.data[..cmd.Bytes()]);
    var tail := [ToByte(cmd.Bytes())] + payload;
    assert cmd.Body() == Head(cmd) + tail;
    Parts(p, cmd.node, cmd.code, Head(cmd), tail, rest);
    assert tail[1..] == payload;
    WordOfBytes(cmd.first);
    WordOfBytes(cmd.length);
  }

  lemma AfterHeader(cmd: Command, tid: nat, rest: seq<byte>, p: seq<byte>)
    requires cmd.Valid() && p == (cmd.Request(tid) + rest)[6..]
    ensures p == [cmd.node, cmd.code] + cmd.Body() + rest
  {
    hide ToByte, FromByte, High, Low, Command.Body;
  }

  lemma Parts(p: seq<byte>, node: byte, code: byte, head: seq<byte>, tail: seq<byte>, rest: seq<byte>)
    requires |head| == 4 && p == [node, code] + (head + tail) + rest
    ensures |p| == 6 + |tail| + |rest| && p[0] == node && p[1] == code
    ensures p[2] == head[0] && p[3] == head[1] && p[4] == head[2] && p[5] == head[3]
    ensures |tail| > 0 ==> p[7..6 + |tail|] == tail[1..]
  {}

  lemma CarriedFits(b: Bank, p: seq<byte>, cmd: Command)
    requires cmd.Valid() && Carries(p, cmd)
    ensures Fits(b, p)
  {
    hide Word, Swab;
  }

  // ---------------------------------------------------------------- the response

  predicate IsFlagged(code: byte) { code >= 0x80 }

  lemma FlagIs(code: byte)
    ensures IsFlagged(code) <==> FromByte(code) >= 128
  {}

  /** `handleresponse`: `buff` is the response from its unit identifier on. */
  method HandleResponse(buff: seq<byte>, cmd: Command, data: array<byte>) returns (err: int)
    requires |buff| >= 3 && cmd.code in {1, 3, 15, 16}
    requires !IsFlagged(buff[1]) && !cmd.Writes() ==>
      3 + FromByte(buff[2]) <= |buff| && FromByte(buff[2]) <= data.Length
    modifies data
    ensures err == Verdict(buff, cmd)
    ensures Taken(buff, cmd, data[..])
    ensures err != 0 || cmd.Writes() ==> data[..] == old(data[..])
  {
    hide FromByte, IsFlagged;
    FlagIs(buff[1]);
    if IsFlagged(buff[1]) {
      return FromByte(buff[2]);
    }
    if buff[0] != cmd.node {
      return ME_WRONG_DEVICE;
    }
    if buff[1] != cmd.code {
      return ME_WRONG_FUNCTION as int;
    }
    var n := FromByte(buff[2]);
    if cmd.code == 1 {
      for k := 0 to n
        invariant forall i :: 0 <= i < k ==> data[i] == buff[3 + i]
      {
        data[k] := buff[3 + k];
      }
    } else if cmd.code == 3 {
      CopyWords(data, 0, buff[3..3 + 2 * (n / 2)], n / 2);
    }
    err := 0;
  }

  // ---------------------------------------------------------------- a command as a step of a register machine

  /** The registers or coils that the command addresses exist. */
  ghost predicate InRange(b: Bank, cmd: Command) {
    cmd.first + cmd.length <= Size(b, cmd)
  }

  ghost function Size(b: Bank, cmd: Command): nat {
    if cmd.code in {1, 15} then b.coilSize else b.holdSize
  }

  /** What a command does: a bank without such registers answers with exception 1, one that is too small
      with exception 2, and otherwise a read returns what the bank holds and a write replaces it. */
  ghost predicate Effect(b: Bank, cmd: Command, c: Bank, err: int, out: seq<byte>)
    requires b.Valid() && cmd.Valid()
  {
    if Size(b, cmd) == 0 then err == 1 && c == b
    else if !InRange(b, cmd) then err == 2 && c == b
    else
      && err == 0
      && (cmd.code == 1 ==> c == b && SameBits(out, 0, b.coil, cmd.first, cmd.length))
      && (cmd.code == 3 ==>
           && c == b && cmd.Bytes() <= |out|
           && out[..cmd.Bytes()] == b.hold[2 * cmd.first..2 * cmd.first + cmd.Bytes()])
      && (cmd.code == 15 ==> c == b.(coil := c.coil) && CoilsWritten(b, c, cmd.first, cmd.length, cmd.data))
      && (cmd.code == 16 ==> c == b.(hold := Written(b.hold, 2 * cmd.first, cmd.data[..cmd.Bytes()])))
  }

  lemma CodeIsLow(b: byte)
    requires b in {1, 3, 15, 16}
    ensures !IsFlagged(b)
  {}

  lemma FlaggedIsHigh(b: byte, flagged: byte)
    requires Flags(b, flagged) && b in {1, 3, 15, 16}
    ensures IsFlagged(flagged) && FromByte(flagged) == FromByte(b) + 128
  {}

  /** The response is an exception exactly when the command is refused, and says which. */
  lemma Replies(b: Bank, p: seq<byte>, c: Bank, q: seq<byte>, r: int, cmd: Command)
    requires b.Valid() && cmd.Valid() && Carries(p, cmd) && Fits(b, p) && Serves(b, p, c, q, r)
    ensures 3 <= r <= |q| == |p|
    ensures Size(b, cmd) == 0 ==> c == b && IsFlagged(q[1]) && q[2] == ME_WRONG_FUNCTION
    ensures Size(b, cmd) > 0 && !InRange(b, cmd) ==> c == b && IsFlagged(q[1]) && q[2] == ME_BAD_ADDRESS
    ensures !InRange(b, cmd) ==> r == 3 && q[0] == cmd.node && FromByte(q[1]) == FromByte(cmd.code) + 128
    ensures InRange(b, cmd) ==> q[0] == cmd.node && q[1] == cmd.code
    ensures InRange(b, cmd) && !cmd.Writes() ==> FromByte(q[2]) == cmd.Bytes() && r == 3 + cmd.Bytes()
  {
    if !InRange(b, cmd) {
      RepliesRefused(b, p, c, q, r, cmd);
    } else if cmd.Writes() {
      RepliesDone(b, p, c, q, r, cmd);
    } else {
      RepliesData(b, p, c, q, r, cmd);
    }
  }

  lemma RepliesRefused(b: Bank, p: seq<byte>, c: Bank, q: seq<byte>, r: int, cmd: Command)
    requires b.Valid() && cmd.Valid() && Carries(p, cmd) && Fits(b, p) && Serves(b, p, c, q, r) && !InRange(b, cmd)
    ensures r == 3 && |q| == |p| && c == b && IsFlagged(q[1])
    ensures q[0] == cmd.node && FromByte(q[1]) == FromByte(cmd.code) + 128
    ensures q[2] == if Size(b, cmd) == 0 then ME_WRONG_FUNCTION else ME_BAD_ADDRESS
  {
    hide Word, FromByte, Swab, SameBits, CoilsWritten, Written, Reply, Flags, IsFlagged, Fits;
    FlaggedIsHigh(cmd.code, q[1]);
  }

  lemma RepliesDone(b: Bank, p: seq<byte>, c: Bank, q: seq<byte>, r: int, cmd: Command)
    requires b.Valid() && cmd.Valid() && Carries(p, cmd) && Fits(b, p) && Serves(b, p, c, q, r) && InRange(b, cmd)
    requires cmd.Writes()
    ensures r == 6 && q == p
  {
    hide Word, FromByte, Swab, SameBits, CoilsWritten, Written, Reply, Fits, IsException;
  }

  lemma RepliesData(b: Bank, p: seq<byte>, c: Bank, q: seq<byte>, r: int, cmd: Command)
    requires b.Valid() && cmd.Valid() && Carries(p, cmd) && Fits(b, p) && Serves(b, p, c, q, r) && InRange(b, cmd)
    requires !cmd.Writes()
    ensures r == 3 + cmd.Bytes() && Reply(p, q, cmd.Bytes()) && r <= |q| == |p|
    ensures q[0] == cmd.node && q[1] == cmd.code && FromByte(q[2]) == cmd.Bytes()
  {
    hide Word, FromByte, Swab, SameBits, Fits, IsException;
    assert Reply(p, q, cmd.Bytes());
    assert q[..2][0] == p[..2][0] && q[..2][1] == p[..2][1];
  }

  /** Buffers that begin with the same `n` bytes have the same first bits. */
  lemma PrefixBits(s: seq<byte>, t: seq<byte>, n: nat, count: nat)
    requires n <= |s| && n <= |t| && s[..n] == t[..n] && count <= 8 * n
    ensures SameBits(s, 0, t, 0, count)
  {
    hide Bit;
    forall k | 0 <= k < count ensures OneOf(s, 0, k) == OneOf(t, 0, k) {
      assert s[..n][k / 8] == t[..n][k / 8];
    }
  }

  lemma ReadsCoils(b: Bank, p: seq<byte>, c: Bank, q: seq<byte>, r: int, cmd: Command, out: seq<byte>)
    requires b.Valid() && cmd.Valid() && cmd.code == 1 && Carries(p, cmd) && Fits(b, p) && Serves(b, p, c, q, r)
    requires InRange(b, cmd)
    requires |q| == |p| && cmd.Bytes() <= |out| && out[..cmd.Bytes()] == q[3..3 + cmd.Bytes()]
    ensures Effect(b, cmd, c, 0, out)
  {
    hide Word, SameBits, FromByte;
    assert q[3..][..cmd.Bytes()] == q[3..3 + cmd.Bytes()];
    PrefixBits(out, q[3..], cmd.Bytes(), cmd.length);
    Through(out, q[3..], b.coil, cmd.first, cmd.length);
  }

  lemma ReadsHold(b: Bank, p: seq<byte>, c: Bank, q: seq<byte>, r: int, cmd: Command, out: seq<byte>)
    requires b.Valid() && cmd.Valid() && cmd.code == 3 && Carries(p, cmd) && Fits(b, p) && Serves(b, p, c, q, r)
    requires InRange(b, cmd)
    requires |q| == |p| && cmd.Bytes() <= |out| && out[..cmd.Bytes()] == Swab(q[3..3 + cmd.Bytes()])
    ensures Effect(b, cmd, c, 0, out)
  {
    hide Word, Swab, FromByte;
    SwabTwice(b.hold[2 * cmd.first..2 * cmd.first + cmd.Bytes()]);
  }

  lemma WritesCoils(b: Bank, p: seq<byte>, c: Bank, q: seq<byte>, r: int, cmd: Command, out: seq<byte>)
    requires b.Valid() && cmd.Valid() && cmd.code == 15 && Carries(p, cmd) && Fits(b, p) && Serves(b, p, c, q, r)
    requires InRange(b, cmd)
    ensures Effect(b, cmd, c, 0, out)
  {
    hide Word, SameBits, CoilsWritten, FromByte;
    assert p[7..][..cmd.Bytes()] == p[7..7 + cmd.Bytes()];
    PrefixBits(p[7..], cmd.data, cmd.Bytes(), cmd.length);
    WrittenFrom(b, c, cmd.first, cmd.length, p[7..], cmd.data);
  }

  lemma WritesHold(b: Bank, p: seq<byte>, c: Bank, q: seq<byte>, r: int, cmd: Command, out: seq<byte>)
    requires b.Valid() && cmd.Valid() && cmd.code == 16 && Carries(p, cmd) && Fits(b, p) && Serves(b, p, c, q, r)
    requires InRange(b, cmd)
    ensures Effect(b, cmd, c, 0, out)
  {
    hide Word, Swab, Written, FromByte;
    SwabTwice(cmd.data[..cmd.Bytes()]);
  }

  /** A response that the master takes over completes the command. */
  lemma Performed(b: Bank, p: seq<byte>, c: Bank, q: seq<byte>, r: int, cmd: Command, out: seq<byte>)
    requires b.Valid() && cmd.Valid() && Carries(p, cmd) && Fits(b, p) && Serves(b, p, c, q, r) && InRange(b, cmd)
    requires |q| == |p|
    requires !cmd.Writes() ==> cmd.Bytes() <= |out|
    requires cmd.code == 1 ==> out[..cmd.Bytes()] == q[3..3 + cmd.Bytes()]
    requires cmd.code == 3 ==> out[..cmd.Bytes()] == Swab(q[3..3 + cmd.Bytes()])
    ensures Effect(b, cmd, c, 0, out)
  {
    assert cmd.code in {1, 3, 15, 16};
    hide *;
    if cmd.code == 1 {
      ReadsCoils(b, p, c, q, r, cmd, out);
    } else if cmd.code == 3 {
      ReadsHold(b, p, c, q, r, cmd, out);
    } else if cmd.code == 15 {
      WritesCoils(b, p, c, q, r, cmd, out);
    } else {
      WritesHold(b, p, c, q, r, cmd, out);
    }
  }

  /** What the master makes of a response. */
  ghost function Verdict(q: seq<byte>, cmd: Command): int
    requires |q| >= 3
  {
    if FromByte(q[1]) >= 128 then FromByte(q[2])
    else if q[0] != cmd.node then ME_WRONG_DEVICE
    else if q[1] != cmd.code then ME_WRONG_FUNCTION as int
    else 0
  }

  /** The data that the master takes over from a response. */
  ghost predicate Taken(buff: seq<byte>, cmd: Command, out: seq<byte>)
    requires |buff| >= 3
  {
    var n := FromByte(buff[2]);
    Verdict(buff, cmd) == 0 && !IsFlagged(buff[1]) && !cmd.Writes() ==>
      && 3 + n <= |buff| && n <= |out|
      && (cmd.code == 1 ==> out[..n] == buff[3..3 + n])
      && (cmd.code == 3 && n % 2 == 0 ==> out[..n] == Swab(buff[3..3 + n]))
  }

  lemma Codes()
    ensures FromByte(ME_WRONG_FUNCTION) == 1 && FromByte(ME_BAD_ADDRESS) == 2
  {}

  lemma Concluded(b: Bank, p: seq<byte>, c: Bank, q: seq<byte>, r: int, cmd: Command, buff: seq<byte>, out: seq<byte>)
    requires b.Valid() && cmd.Valid() && Carries(p, cmd) && Fits(b, p) && Serves(b, p, c, q, r)
    requires 3 <= r <= |q| && buff == q[..r] && Taken(buff, cmd, out)
    ensures Effect(b, cmd, c, Verdict(buff, cmd), out)
  {
    Replies(b, p, c, q, r, cmd);
    Codes();
    FlagIs(q[1]);
    hide Fits, Serves, Carries, Swab, Word, FromByte, SameBits, CoilsWritten, Written, IsFlagged, Taken;
    if InRange(b, cmd) {
      CodeIsLow(cmd.code);
      TakenData(q, r, cmd, buff, out);
      Performed(b, p, c, q, r, cmd, out);
    }
  }

  lemma TakenData(q: seq<byte>, r: nat, cmd: Command, buff: seq<byte>, out: seq<byte>)
    requires 3 <= r <= |q| && buff == q[..r] && Taken(buff, cmd, out)
    requires q[0] == cmd.node && q[1] == cmd.code && cmd.code in {1, 3, 15, 16} && !IsFlagged(cmd.code)
    requires !cmd.Writes() ==> FromByte(q[2]) == cmd.Bytes() && r == 3 + cmd.Bytes()
    ensures Verdict(buff, cmd) == 0
    ensures !cmd.Writes() ==> cmd.Bytes() <= |out|
    ensures cmd.code == 1 ==> out[..cmd.Bytes()] == q[3..3 + cmd.Bytes()]
    ensures cmd.code == 3 ==> cmd.Bytes() % 2 == 0 && out[..cmd.Bytes()] == Swab(q[3..3 + cmd.Bytes()])
  {
    hide Swab, FromByte, IsFlagged;
    FlagIs(q[1]);
    if !cmd.Writes() {
      assert buff[3..3 + cmd.Bytes()] == q[3..3 + cmd.Bytes()];
    }
  }

  /** One command over TCP: request, slave, response.  The request may arrive in any pieces. */
  method Exchange(c: Connection, tid: nat, cmd: Command, pieces: seq<seq<byte>>, data: array<byte>) returns (err: int)
    requires c.Valid() && c.Pending() == [] && cmd.Valid() && tid < 0x1_0000 && Cuts(pieces, cmd.Request(tid))
    requires c.Find(cmd.node) != null && data != c.buff && data !in c.TagsOf(c.Find(cmd.node))
    requires !cmd.Writes() ==> cmd.Bytes() <= data.Length
    modifies c`buffindex, c.buff, c.TagsOf(c.Find(cmd.node)), data
    ensures c.Valid() && c.Pending() == []
    ensures Effect(old(c.Find(cmd.node).Image()), cmd, c.Find(cmd.node).Image(), err, data[..])
  {
    hide Fits, Serves, Carries, Effect, Swab, High, Low, Word, FromByte, Command.Bytes, Command.Body, InRange, Taken,
      Verdict;
    var frame := SendRequest(tid, cmd);
    RequestShape(cmd, tid);
    ghost var node := c.Find(cmd.node);
    ghost var b, rest := node.Image(), c.buff[|frame|..];
    ghost var p := (frame + rest)[6..];
    RequestArrives(cmd, tid, rest, p);
    CarriedFits(b, p, cmd);
    ghost var r, q;
    var outcomes;
    outcomes, r, q := Deliver(c, pieces, frame);
    Replies(b, p, node.Image(), q, r, cmd);
    var reply := outcomes[|outcomes| - 1].reply;
    var buff := reply[6..];
    assert buff == q[..r];
    err := HandleResponse(buff, cmd, data);
    Concluded(b, p, node.Image(), q, r, cmd, buff, data[..]);
  }

  // ---------------------------------------------------------------- runs

  /** The two bytes of register `i` of a buffer. */
  function Pair(s: seq<byte>, i: nat): (byte, byte)
    requires 2 * i + 1 < |s|
  {
    (s[2 * i], s[2 * i + 1])
  }

  ghost function Register(b: Bank, i: nat): (byte, byte)
    requires b.Valid() && i < b.holdSize
  {
    Pair(b.hold, i)
  }

  ghost predicate Coil(b: Bank, i: nat)
    requires b.Valid() && i < b.coilSize
  {
    BitAt(b.coil, i)
  }

  /** The command puts a value in register `i`, or in coil `i`; the tag server refuses some coil writes. */
  ghost predicate SetsRegister(b: Bank, cmd: Command, i: nat) {
    cmd.code == 16 && InRange(b, cmd) && cmd.first <= i < cmd.first + cmd.length
  }

  ghost predicate SetsCoil(b: Bank, cmd: Command, i: nat)
    requires cmd.length > 0
  {
    cmd.code == 15 && InRange(b, cmd) && cmd.first <= i < cmd.first + cmd.length &&
    Transfer.Accepted(CoilHandle(cmd.first, cmd.length), |b.coil|)
  }

  /** Commands to one node, one after the other. */
  ghost predicate IsRun(states: seq<Bank>, cmds: seq<Command>, errs: seq<int>, outs: seq<seq<byte>>) {
    && |states| == |cmds| + 1 == |errs| + 1 == |outs| + 1
    && (forall i :: 0 <= i < |states| ==> states[i].Valid() && SameSizes(states[0], states[i]))
    && (forall i :: 0 <= i < |cmds| ==> cmds[i].Valid() && Effect(states[i], cmds[i], states[i + 1], errs[i], outs[i]))
  }

  ghost predicate SameSizes(b: Bank, c: Bank) {
    b.holdSize == c.holdSize && b.coilSize == c.coilSize
  }

  /** A command, its transaction identifier and the pieces in which its request arrives. */
  datatype Job = Job(cmd: Command, tid: nat, pieces: seq<seq<byte>>) {
    ghost predicate Valid() {
      cmd.Valid() && tid < 0x1_0000 && Cuts(pieces, cmd.Request(tid))
    }
  }

  function Commands(jobs: seq<Job>): (cmds: seq<Command>)
    ensures |cmds| == |jobs| && forall i :: 0 <= i < |jobs| ==> cmds[i] == jobs[i].cmd
  {
    seq(|jobs|, i requires 0 <= i < |jobs| => jobs[i].cmd)
  }

  /** Any sequence of commands to a node, each cut in any way, is a run of the register machine. */
  method Session(c: Connection, node: Node, jobs: seq<Job>)
    returns (errs: seq<int>, outs: seq<seq<byte>>, ghost states: seq<Bank>)
    requires c.Valid() && c.Pending() == [] && node in c.nodes
    requires forall i :: 0 <= i < |jobs| ==> jobs[i].Valid() && c.Find(jobs[i].cmd.node) == node
    modifies c`buffindex, c.buff, c.TagsOf(node)
    ensures c.Valid() && c.Pending() == []
    ensures IsRun(states, Commands(jobs), errs, outs)
    ensures states[0] == old(node.Image()) && states[|jobs|] == node.Image()
  {
    hide Effect, Command.Request, Command.Bytes, Cuts;
    errs, outs, states := [], [], [node.Image()];
    for n := 0 to |jobs|
      invariant c.Valid() && c.Pending() == [] && |errs| == |outs| == n && |states| == n + 1
      invariant states[0] == old(node.Image()) && states[n] == node.Image()
      invariant forall i :: 0 <= i <= n ==> states[i].Valid() && SameSizes(states[0], states[i])
      invariant forall i :: 0 <= i < n ==> Effect(states[i], jobs[i].cmd, states[i + 1], errs[i], outs[i])
    {
      var data := new byte[512];
      ghost var was := node.Image();
      var err := Exchange(c, jobs[n].tid, jobs[n].cmd, jobs[n].pieces, data);
      errs, outs, states := errs + [err], outs + [data[..]], states + [node.Image()];
    }
  }

  /** What one command does to one register. */
  lemma RegisterStep(b: Bank, cmd: Command, c: Bank, err: int, out: seq<byte>, i: nat)
    requires b.Valid() && c.Valid() && cmd.Valid() && SameSizes(b, c) && Effect(b, cmd, c, err, out) && i < b.holdSize
    ensures Register(c, i) ==
      if SetsRegister(b, cmd, i) then Pair(cmd.data, i - cmd.first) else Register(b, i)
    ensures cmd.code == 3 && InRange(b, cmd) && cmd.first <= i < cmd.first + cmd.length ==>
      2 * (i - cmd.first) + 1 < |out| && Pair(out, i - cmd.first) == Register(b, i)
  {
    hide SameBits, CoilsWritten, FromByte;
    if cmd.code == 3 && InRange(b, cmd) && cmd.first <= i < cmd.first + cmd.length {
      ReadPair(out, b.hold, cmd.first, cmd.length, i);
    }
  }

  lemma ReadPair(out: seq<byte>, hold: seq<byte>, first: nat, count: nat, i: nat)
    requires 2 * count <= |out| && 2 * first + 2 * count <= |hold| && first <= i < first + count
    requires out[..2 * count] == hold[2 * first..2 * first + 2 * count]
    ensures Pair(out, i - first) == Pair(hold, i)
  {
    var k := 2 * (i - first);
    assert out[..2 * count][k] == out[k] && out[..2 * count][k + 1] == out[k + 1];
  }

  /** A register holds what was last written to it, and a read returns it. */
  lemma {:induction false} LastRegister(states: seq<Bank>, cmds: seq<Command>, errs: seq<int>, outs: seq<seq<byte>>,
                                        a: nat, t: nat, i: nat)
    requires IsRun(states, cmds, errs, outs) && a < t <= |cmds| && i < states[0].holdSize
    requires SetsRegister(states[a], cmds[a], i)
    requires forall j :: a < j < t ==> !SetsRegister(states[j], cmds[j], i)
    ensures Register(states[t], i) == Pair(cmds[a].data, i - cmds[a].first)
    ensures t < |cmds| && cmds[t].code == 3 && InRange(states[t], cmds[t]) &&
            cmds[t].first <= i < cmds[t].first + cmds[t].length ==>
      var k := i - cmds[t].first;
      2 * k + 1 < |outs[t]| && Pair(outs[t], k) == Pair(cmds[a].data, i - cmds[a].first)
    decreases t
  {
    hide Effect, Register;
    if t > a + 1 {
      LastRegister(states, cmds, errs, outs, a, t - 1, i);
    }
    RegisterStep(states[t - 1], cmds[t - 1], states[t], errs[t - 1], outs[t - 1], i);
    if t < |cmds| {
      RegisterStep(states[t], cmds[t], states[t + 1], errs[t], outs[t], i);
    }
  }

  /** What one command does to one coil. */
  lemma CoilStep(b: Bank, cmd: Command, c: Bank, err: int, out: seq<byte>, i: nat)
    requires b.Valid() && c.Valid() && cmd.Valid() && SameSizes(b, c) && Effect(b, cmd, c, err, out) && i < b.coilSize
    ensures Coil(c, i) == if SetsCoil(b, cmd, i) then BitAt(cmd.data, i - cmd.first) else Coil(b, i)
    ensures cmd.code == 1 && InRange(b, cmd) && cmd.first <= i < cmd.first + cmd.length ==>
      i - cmd.first < 8 * |out| && BitAt(out, i - cmd.first) == Coil(b, i)
  {
    hide BitAt, Transfer.Accepted, FromByte, Written;
    if cmd.code == 1 && InRange(b, cmd) && cmd.first <= i < cmd.first + cmd.length {
      assert OneOf(out, 0, i - cmd.first) == OneOf(b.coil, cmd.first, i - cmd.first);
    }
  }

  /** A coil holds what was last written to it, and a read returns it. */
  lemma {:induction false} LastCoil(states: seq<Bank>, cmds: seq<Command>, errs: seq<int>, outs: seq<seq<byte>>, a: nat,
                                    t: nat, i: nat)
    requires IsRun(states, cmds, errs, outs) && a < t <= |cmds| && i < states[0].coilSize
    requires SetsCoil(states[a], cmds[a], i)
    requires forall j :: a < j < t ==> !SetsCoil(states[j], cmds[j], i)
    ensures Coil(states[t], i) == BitAt(cmds[a].data, i - cmds[a].first)
    ensures t < |cmds| && cmds[t].code == 1 && InRange(states[t], cmds[t]) &&
            cmds[t].first <= i < cmds[t].first + cmds[t].length ==>
      i - cmds[t].first < 8 * |outs[t]| && BitAt(outs[t], i - cmds[t].first) == BitAt(cmds[a].data, i - cmds[a].first)
    decreases t
  {
    hide Effect, Coil, BitAt;
    if t > a + 1 {
      LastCoil(states, cmds, errs, outs, a, t - 1, i);
    }
    CoilStep(states[t - 1], cmds[t - 1], states[t], errs[t - 1], outs[t - 1], i);
    if t < |cmds| {
      CoilStep(states[t], cmds[t], states[t + 1], errs[t], outs[t], i);
    }
  }

  /** A range of coils that covers whole bytes but is not aligned to them, and ends in the last byte of the coils. */
  ghost predicate Straddles(b: Bank, cmd: Command) {
    cmd.first % 8 != 0 && cmd.length % 8 == 0 && (cmd.first + cmd.length) / 8 == b.coilSize / 8
  }

  /** The master is told that any write of coils inside the bank was done; such a write is lost exactly when its range
      straddles, and otherwise replaces the coils. */
  lemma LostWrites(b: Bank, cmd: Command, c: Bank, err: int, out: seq<byte>)
    requires b.Valid() && cmd.Valid() && cmd.code == 15 && InRange(b, cmd) && Effect(b, cmd, c, err, out)
    ensures err == 0
    ensures if Straddles(b, cmd) then c == b
            else c == b.(coil := c.coil) && Transfer.Replaced(b.coil, c.coil, cmd.first, cmd.length, cmd.data)
  {
    hide Transfer.Replaced;
    LostExact(b, cmd);
  }

  lemma LostExact(b: Bank, cmd: Command)
    requires b.Valid() && cmd.Valid() && cmd.code == 15 && InRange(b, cmd)
    ensures !Transfer.Accepted(CoilHandle(cmd.first, cmd.length), |b.coil|) <==> Straddles(b, cmd)
  {
    CoilHandleIs(cmd.first, cmd.length);
    Transfer.RefusedInRange(CoilHandle(cmd.first, cmd.length), |b.coil|);
  }

  /** Eight coils from coil 9 in a bank of 20. */
  lemma LostExample(b: Bank, cmd: Command, c: Bank, err: int, out: seq<byte>)
    requires b.Valid() && b.coilSize == 20 && cmd.Valid() && cmd.code == 15 && cmd.first == 9 && cmd.length == 8
    requires Effect(b, cmd, c, err, out)
    ensures err == 0 && c == b
  {
    LostWrites(b, cmd, c, err, out);
  }
}
