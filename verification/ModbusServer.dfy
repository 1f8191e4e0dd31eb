/** The TCP side of the Modbus slave (src/modules/modbus/mbserver.c): bytes are collected until a whole
    frame has arrived, and the response is built in the same buffer. */
module ModbusServer {
  import opened Bits
  import opened ModbusSlave

  const MB_BUFF_SIZE := 256
  const MB_MAX_SLAVE_NODES := 248

  /** The length field of a frame: the bytes that follow it. */
  function Announced(s: seq<byte>): nat
    requires |s| >= 6
  {
    Word(s[4], s[5])
  }

  /** Enough has arrived for a response. */
  predicate Complete(s: seq<byte>) {
    |s| > 5 && |s| >= Announced(s) + 6
  }

  /** What one call of `_mb_read` comes to. */
  datatype Outcome = Waiting | Answered(reply: seq<byte>) | Ignored | Failed(err: int)

  /** A connected client and the nodes of its port. */
  class Connection {
    const buff: array<byte>
    const nodes: seq<Node?>
    var buffindex: nat

    ghost predicate Valid()
      reads this
    {
      && buff.Length == MB_BUFF_SIZE && buffindex <= MB_BUFF_SIZE && |nodes| == MB_MAX_SLAVE_NODES
      && forall i :: 0 <= i < |nodes| ==>
           var n := nodes[i]; n != null ==> n.Valid() && buff != n.hold.data && buff != n.coil.data
    }

    /** The bytes that have been collected. */
    ghost function Pending(): seq<byte>
      requires Valid()
      reads this, buff
    {
      buff[..buffindex]
    }

    /** The node for a unit identifier; node 0 stands in for those that are not configured. */
    function Find(unit: byte): (n: Node?)
      requires |nodes| == MB_MAX_SLAVE_NODES && FromByte(unit) < |nodes|
      ensures n != null ==> n in nodes
    {
      if nodes[FromByte(unit)] != null then nodes[FromByte(unit)] else nodes[0]
    }

    /** The whole buffer after a piece has been copied behind the collected bytes. */
    ghost function Loaded(piece: seq<byte>): (s: seq<byte>)
      requires Valid() && buffindex + |piece| <= MB_BUFF_SIZE
      reads this, buff
      ensures |s| == MB_BUFF_SIZE && s[..buffindex + |piece|] == Pending() + piece
    {
      buff[..buffindex] + piece + buff[buffindex + |piece|..]
    }

    /** The frame in the buffer is for a unit in the table, and its node can serve it. */
    ghost predicate Servable(s: seq<byte>)
      requires Valid() && |s| == MB_BUFF_SIZE
      reads this, Tags()
    {
      FromByte(s[6]) < |nodes| && (Find(s[6]) != null ==> Fits(Find(s[6]).Image(), s[6..]))
    }

    /** The tags of all nodes. */
    ghost function Tags(): set<object>
      reads this
    {
      (set i | 0 <= i < |nodes| && nodes[i] != null :: nodes[i].hold.data) +
      (set i | 0 <= i < |nodes| && nodes[i] != null :: nodes[i].coil.data)
    }

    /** The tags of one node. */
    ghost function TagsOf(n: Node?): set<object> {
      if n == null then {} else {n.hold.data, n.coil.data}
    }

    constructor (nodes: seq<Node?>)
      requires |nodes| == MB_MAX_SLAVE_NODES
      requires forall i :: 0 <= i < |nodes| ==> var n := nodes[i]; n != null ==> n.Valid()
      ensures Valid() && this.nodes == nodes && Pending() == []
    {
      buff := new byte[MB_BUFF_SIZE];
      this.nodes := nodes;
      buffindex := 0;
    }

    /** The copy of a piece into the buffer. */
    method Load(piece: seq<byte>)
      requires Valid() && buffindex + |piece| <= MB_BUFF_SIZE
      modifies this`buffindex, buff
      ensures Valid() && buff[..] == old(Loaded(piece)) && buffindex == old(buffindex) + |piece|
    {
      ghost var loaded := Loaded(piece);
      for n := 0 to |piece|
        invariant buffindex == old(buffindex)
        invariant forall k :: 0 <= k < buff.Length ==>
          buff[k] == if buffindex <= k < buffindex + n then piece[k - buffindex] else old(buff[k])
      {
        buff[buffindex + n] := piece[n];
      }
      assert buff[..] == loaded;
      buffindex := buffindex + |piece|;
    }

    /** The piece fits the buffer and completes a frame. */
    ghost predicate Completes(piece: seq<byte>)
      requires Valid()
      reads this, buff
    {
      buffindex + |piece| <= MB_BUFF_SIZE && Complete(Pending() + piece)
    }

    /** `_mb_read` of a piece that has arrived: nothing happens until the frame is complete, and then the
        request is served once and answered under its own transaction identifier. */
    method Feed(piece: seq<byte>) returns (o: Outcome, ghost r: int, ghost q: seq<byte>)
      requires Valid() && 0 < |piece| <= 100
      requires Completes(piece) ==> Servable(Loaded(piece))
      modifies this`buffindex, buff
      modifies if Completes(piece) then TagsOf(Find(Loaded(piece)[6])) else {}
      ensures Valid()
      ensures old(buffindex) + |piece| > MB_BUFF_SIZE ==> o == Failed(MB_ERR_OVERFLOW) && Pending() == old(Pending())
      ensures old(buffindex) + |piece| <= MB_BUFF_SIZE && !old(Completes(piece)) ==>
        o == Waiting && Pending() == old(Pending()) + piece && buff[..] == old(Loaded(piece))
      ensures old(Completes(piece)) ==>
        var n, s := Find(old(Loaded(piece)[6])), old(Loaded(piece));
        if n == null then o == Ignored && Pending() == old(Pending()) + piece
        else
          && Serves(old(Find(Loaded(piece)[6]).Image()), s[6..], n.Image(), q, r)
          && (if r > 0 then |q| >= r && o == Answered(s[..4] + [High(r), Low(r)] + q[..r]) && Pending() == []
              else o == Failed(r) && Pending() == old(Pending()) + piece)
    {
      hide Fits, Serves, High, Low;
      r, q := 0, [];
      if |piece| + buffindex > MB_BUFF_SIZE {
        return Failed(MB_ERR_OVERFLOW), 0, [];
      }
      Load(piece);
      if !(buffindex > 5 && buffindex >= Word(buff[4], buff[5]) + 6) {
        return Waiting, 0, [];
      }
      assert buff[..buffindex] == old(Pending() + piece);
      o, r, q := Answer();
    }

    /** The response to the frame in the buffer. */
    method Answer() returns (o: Outcome, ghost r: int, ghost q: seq<byte>)
      requires Valid() && Servable(buff[..])
      modifies this`buffindex, buff, TagsOf(Find(buff[6]))
      ensures Valid()
      ensures var n, s := Find(old(buff[6])), old(buff[..]);
        if n == null then o == Ignored && buff[..] == s && buffindex == old(buffindex)
        else
          && Serves(old(Find(buff[6]).Image()), s[6..], n.Image(), q, r)
          && (if r > 0 then |q| >= r && o == Answered(s[..4] + [High(r), Low(r)] + q[..r]) && buffindex == 0
              else o == Failed(r) && buff[..] == s && buffindex == old(buffindex))
    {
      hide Fits, Serves, High, Low;
      r, q := 0, [];
      var node := Find(buff[6]);
      if node == null {
        return Ignored, 0, [];
      }
      ghost var b, s := node.Image(), buff[..];
      assert buff[6..] == s[6..];
      var result := CreateResponse(node, buff, 6);
      q, r := buff[6..], result;
      ServesBound(b, s[6..], node.Image(), q, r);
      assert buff[..] == s[..6] + q;
      if result > 0 {
        buff[4], buff[5] := High(result), Low(result);
        Sealed(s, q, buff[..], r, High(r), Low(r));
        o := Answered(buff[..result + 6]);
        buffindex := 0;
      } else {
        o := if result < 0 then Failed(result) else Ignored;
      }
    }
  }

  /** The response: the request's header with its own length, and the new contents. */
  lemma Sealed(s: seq<byte>, q: seq<byte>, t: seq<byte>, r: nat, high: byte, low: byte)
    requires 6 <= |s| && r <= |q| && t == (s[..6] + q)[4 := high][5 := low]
    ensures t[..r + 6] == s[..4] + [high, low] + q[..r]
  {
    var u, v := t[..r + 6], s[..4] + [high, low] + q[..r];
    forall k | 0 <= k < r + 6 ensures u[k] == v[k] {
      if k >= 6 { assert t[k] == q[k - 6] && v[k] == q[..r][k - 6]; }
    }
  }

  lemma ServesBound(b: Bank, p: seq<byte>, c: Bank, q: seq<byte>, r: int)
    requires b.Valid() && |p| >= 7 && Fits(b, p) && Serves(b, p, c, q, r)
    ensures |q| == |p| && r <= |p| && (r > 0 || (r == MB_ERR_OVERFLOW && q == p))
  {
    hide SameBits, CoilsWritten, Swab;
  }

  // ---------------------------------------------------------------- frames in pieces

  function Flat(pieces: seq<seq<byte>>): seq<byte> {
    if pieces == [] then [] else Flat(pieces[..|pieces| - 1]) + pieces[|pieces| - 1]
  }

  /** A frame that announces its own length, with room for a unit identifier and a function code. */
  predicate IsFrame(f: seq<byte>) {
    8 <= |f| <= MB_BUFF_SIZE && Announced(f) + 6 == |f|
  }

  predicate Cuts(pieces: seq<seq<byte>>, f: seq<byte>) {
    Flat(pieces) == f && forall i :: 0 <= i < |pieces| ==> 0 < |pieces[i]| <= 100
  }

  /** The first pieces are a proper prefix of the frame, which is not complete. */
  lemma {:induction false} Prefix(pieces: seq<seq<byte>>, n: nat, f: seq<byte>)
    requires Cuts(pieces, f) && n <= |pieces|
    ensures Flat(pieces[..n]) <= f
    ensures n < |pieces| ==> |Flat(pieces[..n])| < |f|
    decreases |pieces| - n
  {
    if n == |pieces| {
      assert pieces[..n] == pieces;
    } else {
      Prefix(pieces, n + 1, f);
      assert pieces[..n + 1][..n] == pieces[..n];
    }
  }

  lemma NotYet(s: seq<byte>, f: seq<byte>)
    requires IsFrame(f) && s <= f && |s| < |f|
    ensures !Complete(s)
  {
    hide Word;
    if |s| > 5 { assert s[4] == f[4] && s[5] == f[5]; }
  }

  /** All pieces but the last are only collected. */
  method Collect(c: Connection, pieces: seq<seq<byte>>, ghost f: seq<byte>) returns (outcomes: seq<Outcome>)
    requires c.Valid() && c.Pending() == [] && IsFrame(f) && Cuts(pieces, f) && pieces != []
    modifies c`buffindex, c.buff
    ensures c.Valid() && |outcomes| == |pieces| - 1
    ensures forall i :: 0 <= i < |pieces| - 1 ==> outcomes[i] == Waiting
    ensures c.Pending() + pieces[|pieces| - 1] == f
    ensures c.buff[..] == c.Pending() + old(c.buff[..])[c.buffindex..]
  {
    hide Complete, IsFrame, Cuts, Flat;
    outcomes := [];
    ghost var rest := c.buff[..];
    NoPieces(pieces);
    for n := 0 to |pieces| - 1
      invariant c.Valid() && c.Pending() == Flat(pieces[..n]) && |outcomes| == n
      invariant c.buff[..] == c.Pending() + rest[c.buffindex..]
      invariant forall i :: 0 <= i < n ==> outcomes[i] == Waiting
    {
      NextPiece(pieces, n, f);
      var o := Keep(c, pieces[n], rest);
      outcomes := outcomes + [o];
    }
    LastPiece(pieces, f);
  }

  lemma NoPieces(pieces: seq<seq<byte>>)
    ensures Flat(pieces[..0]) == []
  {}

  /** A piece that is not the last does not complete the frame. */
  lemma NextPiece(pieces: seq<seq<byte>>, n: nat, f: seq<byte>)
    requires IsFrame(f) && Cuts(pieces, f) && n + 1 < |pieces|
    ensures 0 < |pieces[n]| <= 100 && Flat(pieces[..n + 1]) == Flat(pieces[..n]) + pieces[n]
    ensures |Flat(pieces[..n + 1])| <= MB_BUFF_SIZE && !Complete(Flat(pieces[..n + 1]))
  {
    hide Word, Complete, Announced;
    Prefix(pieces, n + 1, f);
    NotYet(Flat(pieces[..n + 1]), f);
    assert pieces[..n + 1][..n] == pieces[..n];
  }

  lemma LastPiece(pieces: seq<seq<byte>>, f: seq<byte>)
    requires Cuts(pieces, f) && pieces != []
    ensures Flat(pieces[..|pieces| - 1]) + pieces[|pieces| - 1] == f
  {}

  /** A piece that does not complete the frame. */
  method Keep(c: Connection, piece: seq<byte>, ghost rest: seq<byte>) returns (o: Outcome)
    requires c.Valid() && 0 < |piece| <= 100 && c.buffindex + |piece| <= MB_BUFF_SIZE && !Complete(c.Pending() + piece)
    requires |rest| == MB_BUFF_SIZE && c.buff[..] == c.Pending() + rest[c.buffindex..]
    modifies c`buffindex, c.buff
    ensures c.Valid() && o == Waiting && c.Pending() == old(c.Pending()) + piece
    ensures c.buffindex == old(c.buffindex) + |piece|
    ensures c.buff[..] == c.Pending() + rest[c.buffindex..]
  {
    hide Complete;
    ghost var r, q;
    o, r, q := c.Feed(piece);
  }

  /** However a frame is cut, only its last piece is answered, and as the whole frame would be. */
  method Deliver(c: Connection, pieces: seq<seq<byte>>, ghost f: seq<byte>)
    returns (outcomes: seq<Outcome>, ghost r: int, ghost q: seq<byte>)
    requires c.Valid() && c.Pending() == [] && IsFrame(f) && Cuts(pieces, f) && c.Servable(f + c.buff[|f|..])
    modifies c`buffindex, c.buff, c.TagsOf(c.Find(f[6]))
    ensures c.Valid() && |outcomes| == |pieces| > 0
    ensures forall i :: 0 <= i < |pieces| - 1 ==> outcomes[i] == Waiting
    ensures var n, last := c.Find(f[6]), outcomes[|pieces| - 1];
      if n == null then last == Ignored && c.Pending() == f
      else
        && Serves(old(c.Find(f[6]).Image()), (f + old(c.buff[..])[|f|..])[6..], n.Image(), q, r)
        && (if r > 0 then |q| >= r && last == Answered(f[..4] + [High(r), Low(r)] + q[..r]) && c.Pending() == []
            else last == Failed(r))
    ensures outcomes[|pieces| - 1] == Ignored <==> c.nodes[FromByte(f[6])] == null && c.nodes[0] == null
    ensures c.Find(f[6]) != null ==>
      c.Find(f[6]) == if c.nodes[FromByte(f[6])] != null then c.nodes[FromByte(f[6])] else c.nodes[0]
    ensures c.Find(f[6]) != null ==>
      var b, p := old(c.Find(f[6]).Image()), (f + old(c.buff[..])[|f|..])[6..];
      Lacks(b, p) ==>
        && outcomes[|pieces| - 1].Answered? && IsRefusal(f, outcomes[|pieces| - 1].reply, Available(b, p) == 0)
        && c.Find(f[6]).Image() == b
  {
    hide Fits, Serves, High, Low, Word, Lacks, IsRefusal, FromByte;
    ghost var rest := c.buff[..];
    ghost var node := c.Find(f[6]);
    ghost var b := if node == null then Bank([], 0, [], 0) else node.Image();
    outcomes := Collect(c, pieces, f);
    var last := pieces[|pieces| - 1];
    assert c.Loaded(last) == f + rest[|f|..];
    var o;
    o, r, q := c.Feed(last);
    outcomes := outcomes + [o];
    if node != null && Lacks(b, (f + rest[|f|..])[6..]) {
      Refuses(b, f, (f + rest[|f|..])[6..], node.Image(), q, r);
    }
  }

  /** The request is about registers or coils that the node does not have, and the refusal fits the buffer. */
  ghost predicate Lacks(b: Bank, p: seq<byte>) {
    |p| >= 7 && (Available(b, p) == 0 || (Index(p) + Count(p) > Available(b, p) && !TooLong(p)))
  }

  /** The refusal of a frame on the wire: the same transaction and unit, a length of three, the function code plus 128,
      and exception 1 or 2. */
  ghost predicate IsRefusal(f: seq<byte>, reply: seq<byte>, unknown: bool) {
    && |f| >= 8 && |reply| == 9 && reply[..4] == f[..4]
    && FromByte(reply[4]) == 0 && FromByte(reply[5]) == 3
    && reply[6] == f[6]
    && (FromByte(f[7]) < 128 ==> FromByte(reply[7]) == FromByte(f[7]) + 128)
    && FromByte(reply[8]) == if unknown then 1 else 2
  }

  lemma Refuses(b: Bank, f: seq<byte>, p: seq<byte>, c: Bank, q: seq<byte>, r: int)
    requires b.Valid() && |p| >= 7 && Fits(b, p) && Serves(b, p, c, q, r) && Lacks(b, p)
    requires |f| >= 8 && p[0] == f[6] && p[1] == f[7]
    ensures r == 3 && c == b && |q| >= 3
    ensures IsRefusal(f, f[..4] + [High(r), Low(r)] + q[..r], Available(b, p) == 0)
  {
    RefusedReply(b, p, c, q, r);
    LengthThree();
    hide Fits, Serves, Word, High, Low, FromByte, Lacks;
    var reply := f[..4] + [High(r), Low(r)] + q[..r];
    assert reply[..4] == f[..4];
  }

  lemma LengthThree()
    ensures FromByte(High(3)) == 0 && FromByte(Low(3)) == 3
    ensures FromByte(ME_WRONG_FUNCTION) == 1 && FromByte(ME_BAD_ADDRESS) == 2
  {
    hide ToByte;
    ByteRound(0);
    ByteRound(3);
  }
}
