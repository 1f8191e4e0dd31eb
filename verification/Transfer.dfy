/** Reading and writing tag data from the client (src/lib/libdata.c): packing of BOOL ranges, masked
    writes, and transfers that are split over several messages. */
module Transfer {
  import opened Common
  import opened Bits
  import opened Store

  const WRITE_LIMIT := MSG_DATA_SIZE - 8
  const MASK_LIMIT := (MSG_DATA_SIZE - 8) / 2

  /** A handle and the size of one element of its type (one for BOOL). */
  datatype Handle = Handle(byte: nat, bit: nat, count: nat, size: nat, isBool: bool, unit: nat) {
    /** A handle as `dax_tag_handle` fills it in.  An indexed BOOL may leave a bit field of eight or more. */
    ghost predicate Valid() {
      && 0 < unit && size % unit == 0
      && (isBool ==> bit < 16 && count > 0 && size == (bit % 8 + count - 1) / 8 + 1 && unit == 1)
    }

    /** The first bit within the tag. */
    function First(): nat { 8 * byte + bit }

    /** The first bit that a masked write changes: the carry of the bit field into the byte is lost. */
    function Target(): nat { 8 * byte + bit % 8 }

    /** A BOOL range that does not consist of whole bytes goes through the mask. */
    predicate Masked() { isBool && (bit > 0 || count % 8 != 0) }

    /** The bytes of a masked write: one more than the range spans when whole bytes are shifted. */
    function Sent(): nat { if bit > 0 && count % 8 == 0 then size + 1 else size }
  }

  // ---------------------------------------------------------------- the server's side

  /** One tag on the server, and the messages about it. */
  class Server {
    const data: array<byte>

    constructor (size: nat)
      ensures fresh(data) && data.Length == size
    {
      data := new byte[size];
    }

    /** MSG_TAG_READ */
    method Read(offset: nat, size: nat) returns (err: int, bytes: seq<byte>)
      requires size <= MSG_DATA_SIZE
      ensures err == 0 <==> offset + size <= data.Length
      ensures err == 0 ==> bytes == data[offset..offset + size]
    {
      if offset + size > data.Length {
        return ERR_2BIG, [];
      }
      return 0, data[offset..offset + size];
    }

    /** MSG_TAG_WRITE, refused by the client library when it does not fit one message */
    method Write(offset: nat, bytes: seq<byte>) returns (err: int)
      modifies data
      ensures err == 0 <==> |bytes| + 8 <= MSG_DATA_SIZE && offset + |bytes| <= data.Length
      ensures data[..] == if err == 0 then Written(old(data[..]), offset, bytes) else old(data[..])
    {
      if |bytes| + 8 > MSG_DATA_SIZE || offset + |bytes| > data.Length {
        return ERR_2BIG;
      }
      CopyInto(data, offset, bytes);
      return 0;
    }

    /** MSG_TAG_MWRITE, refused by the client library when it does not fit one message */
    method Mask(offset: nat, bytes: seq<byte>, mask: seq<byte>) returns (err: int)
      requires |mask| == |bytes|
      modifies data
      ensures err == 0 <==> 2 * |bytes| + 8 <= MSG_DATA_SIZE && offset + |bytes| <= data.Length
      ensures data[..] == if err == 0 then MaskWritten(old(data[..]), offset, bytes, mask) else old(data[..])
    {
      if 2 * |bytes| + 8 > MSG_DATA_SIZE || offset + |bytes| > data.Length {
        return ERR_2BIG;
      }
      MergeInto(data, offset, bytes, mask);
      return 0;
    }
  }

  // ---------------------------------------------------------------- splitting a transfer

  /** The first `n` bytes of a transfer have arrived, and nothing else has changed. */
  ghost predicate Arrived(before: seq<byte>, after: seq<byte>, offset: nat, bytes: seq<byte>, n: nat) {
    && n <= |bytes|
    && if n == 0 then after == before
       else offset + n <= |before| && after == Written(before, offset, bytes[..n])
  }

  ghost predicate MaskArrived(before: seq<byte>, after: seq<byte>, offset: nat, bytes: seq<byte>, mask: seq<byte>,
                              n: nat)
    requires |mask| == |bytes|
  {
    && n <= |bytes|
    && if n == 0 then after == before
       else offset + n <= |before| && after == MaskWritten(before, offset, bytes[..n], mask[..n])
  }

  lemma WrittenSplit(was: seq<byte>, data: seq<byte>, offset: nat, bytes: seq<byte>, n: nat, m: nat)
    requires Arrived(was, data, offset, bytes, n) && n < m <= |bytes| && offset + m <= |was|
    ensures |data| == |was| && Arrived(was, Written(data, offset + n, bytes[n..m]), offset, bytes, m)
  {}

  lemma MaskWrittenSplit(was: seq<byte>, data: seq<byte>, offset: nat, bytes: seq<byte>, mask: seq<byte>, n: nat,
                         m: nat)
    requires |mask| == |bytes| && MaskArrived(was, data, offset, bytes, mask, n)
    requires n < m <= |bytes| && offset + m <= |was|
    ensures |data| == |was|
    ensures MaskArrived(was, MaskWritten(data, offset + n, bytes[n..m], mask[n..m]), offset, bytes, mask, m)
  {
    hide Merge;
  }

  /** The size of the next message: as much as fits, in whole elements. */
  function Chunk(left: nat, limit: nat, unit: nat): (n: nat)
    requires 0 < unit <= limit && left > 0 && left % unit == 0
    ensures 0 < n <= left && n <= limit && (left - n) % unit == 0
  {
    var n := if left < limit then left else limit;
    WholeUnits(n, left, unit);
    n - n % unit
  }

  /** The limits are the most that a message of 4096 bytes can hold: after its header of 8 bytes a read is answered with
      data alone, a write has index and offset first, and a masked write has every byte twice. */
  lemma MessagesFit(n: nat)
    ensures n <= MSG_DATA_SIZE <==> 8 + n <= 4096
    ensures n <= WRITE_LIMIT <==> 8 + 8 + n <= 4096
    ensures n <= MASK_LIMIT <==> 8 + 8 + 2 * n <= 4096
  {}

  /** A message is the last one or has no room for another element. */
  lemma ChunkFills(left: nat, limit: nat, unit: nat)
    requires 0 < unit <= limit && left > 0 && left % unit == 0
    ensures Chunk(left, limit, unit) == left || Chunk(left, limit, unit) + unit > limit
  {}

  lemma WholeUnits(n: nat, left: nat, unit: nat)
    requires unit > 0 && left % unit == 0 && 0 < n <= left && (n == left || unit <= n)
    ensures 0 < n - n % unit <= left && (left - (n - n % unit)) % unit == 0
  {
    var q := n / unit;
    assert n == unit * q + n % unit;
    assert left == unit * (left / unit);
    assert left - (n - n % unit) == unit * (left / unit - q);
    assert n == left ==> n % unit == 0;
    assert q == 0 ==> n < unit;
    Multiple(left / unit - q, unit);
  }

  lemma Multiple(k: int, unit: nat)
    requires unit > 0
    ensures (unit * k) % unit == 0
  {
    var a := unit * k;
    var d := k - a / unit;
    assert a == unit * (a / unit) + a % unit;
    assert unit * d == a % unit;
    AtLeast(d, unit);
  }

  lemma AtLeast(d: int, unit: nat)
    requires unit > 0
    ensures d >= 1 ==> unit * d >= unit
    ensures d <= -1 ==> unit * d + unit <= 0
  {}

  /** Send `bytes` with plain writes of at most one message each; the first `sent` bytes arrive. */
  method SendWrites(server: Server, offset: nat, bytes: seq<byte>, unit: nat) returns (err: int, ghost sent: nat)
    requires 0 < unit <= WRITE_LIMIT && |bytes| % unit == 0
    modifies server.data
    ensures Arrived(old(server.data[..]), server.data[..], offset, bytes, sent)
    ensures sent <= |bytes| && (err == 0 <==> sent == |bytes|)
    ensures err == 0 <==> offset + |bytes| <= server.data.Length || bytes == []
  {
    hide Written, Arrived, Chunk;
    var n := 0;
    ghost var was := server.data[..];
    assert Arrived(was, was, offset, bytes, 0) by { NoneArrived(was, offset, bytes); }
    while n < |bytes|
      invariant n <= |bytes| && (|bytes| - n) % unit == 0
      invariant n > 0 ==> offset + n <= server.data.Length
      invariant Arrived(was, server.data[..], offset, bytes, n)
    {
      var size := Chunk(|bytes| - n, WRITE_LIMIT, unit);
      if offset + n + size <= server.data.Length {
        WrittenSplit(was, server.data[..], offset, bytes, n, n + size);
      }
      err := server.Write(offset + n, bytes[n..n + size]);
      if err != 0 {
        return err, n;
      }
      n := n + size;
    }
    return 0, n;
  }

  lemma NoneArrived(data: seq<byte>, offset: nat, bytes: seq<byte>)
    ensures Arrived(data, data, offset, bytes, 0)
  {}

  /** Send `bytes` under `mask` with masked writes of at most one message each; the first `sent` bytes arrive. */
  method SendMasks(server: Server, offset: nat, bytes: seq<byte>, mask: seq<byte>) returns (err: int, ghost sent: nat)
    requires |mask| == |bytes|
    modifies server.data
    ensures MaskArrived(old(server.data[..]), server.data[..], offset, bytes, mask, sent)
    ensures sent <= |bytes| && (err == 0 <==> sent == |bytes|)
    ensures err == 0 <==> offset + |bytes| <= server.data.Length || bytes == []
  {
    hide MaskWritten, MaskArrived, Chunk;
    var n := 0;
    ghost var was := server.data[..];
    assert MaskArrived(was, was, offset, bytes, mask, 0) by { NoneMaskArrived(was, offset, bytes, mask); }
    while n < |bytes|
      invariant n <= |bytes|
      invariant n > 0 ==> offset + n <= server.data.Length
      invariant MaskArrived(was, server.data[..], offset, bytes, mask, n)
    {
      var size := Chunk(|bytes| - n, MASK_LIMIT, 1);
      if offset + n + size <= server.data.Length {
        MaskWrittenSplit(was, server.data[..], offset, bytes, mask, n, n + size);
      }
      err := server.Mask(offset + n, bytes[n..n + size], mask[n..n + size]);
      if err != 0 {
        return err, n;
      }
      n := n + size;
    }
    return 0, n;
  }

  lemma NoneMaskArrived(data: seq<byte>, offset: nat, bytes: seq<byte>, mask: seq<byte>)
    requires |mask| == |bytes|
    ensures MaskArrived(data, data, offset, bytes, mask, 0)
  {}

  /** Read `size` bytes with messages of at most `MSG_DATA_SIZE` each. */
  method SendReads(server: Server, offset: nat, size: nat, unit: nat) returns (err: int, bytes: seq<byte>)
    requires 0 < unit <= MSG_DATA_SIZE && size % unit == 0
    ensures err == 0 <==> offset + size <= server.data.Length || size == 0
    ensures err == 0 && size > 0 ==> bytes == server.data[offset..offset + size]
  {
    bytes := [];
    while |bytes| < size
      invariant |bytes| <= size && (size - |bytes|) % unit == 0
      invariant |bytes| > 0 ==> offset + |bytes| <= server.data.Length && bytes == server.data[offset..offset + |bytes|]
      decreases size - |bytes|
    {
      var n := Chunk(size - |bytes|, MSG_DATA_SIZE, unit);
      var part;
      err, part := server.Read(offset + |bytes|, n);
      if err != 0 {
        return;
      }
      bytes := bytes + part;
    }
    err := 0;
  }

  // ---------------------------------------------------------------- packing and unpacking

  /** The loop of `dax_tag_write` that moves the bits to their place in the tag's bytes. */
  method Pack(h: Handle, src: seq<byte>) returns (bytes: array<byte>, mask: array<byte>)
    requires h.Valid() && h.isBool && h.count <= 8 * |src|
    ensures fresh(bytes) && fresh(mask) && bytes.Length == mask.Length == h.Sent()
    ensures Packed(h, src, bytes[..], mask[..])
  {
    hide BitAt, WithBit;
    var size := h.Sent();
    bytes := new byte[size](_ => 0);
    mask := new byte[size](_ => 0);
    forall k | 0 <= k < 8 * size ensures !BitAt(mask[..], k) && !BitAt(bytes[..], k) {
      ZeroBuffer(mask[..], k);
      ZeroBuffer(bytes[..], k);
    }
    var lead := h.bit % 8;
    var i := lead;
    for n := 0 to h.count
      invariant i == lead + n
      invariant forall k :: 0 <= k < 8 * size ==> BitAt(mask[..], k) == (lead <= k < i)
      invariant forall k :: 0 <= k < 8 * size ==> BitAt(bytes[..], k) == (lead <= k < i && BitAt(src, k - lead))
    {
      if BitAt(src, n) {
        SetBitIn(bytes, i / 8, i % 8, i);
      }
      SetBitIn(mask, i / 8, i % 8, i);
      i := i + 1;
    }
  }

  /** The bits of `src` at their place in the first byte, and the mask that selects them. */
  ghost predicate Packed(h: Handle, src: seq<byte>, bytes: seq<byte>, mask: seq<byte>) {
    var lead := h.bit % 8;
    && |bytes| == |mask| == h.Sent() && h.count <= 8 * |src|
    && forall k :: 0 <= k < 8 * h.Sent() ==>
      && BitAt(mask, k) == (lead <= k < lead + h.count)
      && BitAt(bytes, k) == (lead <= k < lead + h.count && BitAt(src, k - lead))
  }

  /** The loop of `dax_tag_read` that moves the bits to the front of the buffer.  `beyond` is the byte that follows
      the caller's buffer: a bit field of eight or more reaches it. */
  method Unpack(h: Handle, data: seq<byte>, beyond: byte) returns (out: array<byte>)
    requires h.Valid() && h.isBool && |data| == h.size
    ensures fresh(out) && out.Length == h.size
    ensures forall k :: 0 <= k < 8 * h.size ==> BitAt(out[..], k) == (k < h.count && BitAt(data + [beyond], h.bit + k))
  {
    hide BitAt, WithBit;
    var memory := data + [beyond];
    out := new byte[h.size](_ => 0);
    forall k | 0 <= k < 8 * h.size ensures !BitAt(out[..], k) {
      ZeroBuffer(out[..], k);
    }
    var i := h.bit;
    for n := 0 to h.count
      invariant i == h.bit + n
      invariant forall k :: 0 <= k < 8 * h.size ==> BitAt(out[..], k) == (k < n && BitAt(memory, h.bit + k))
    {
      if BitAt(memory, i) {
        SetBitIn(out, n / 8, n % 8, n);
      }
      i := i + 1;
    }
  }

  // ---------------------------------------------------------------- the client calls

  /** Bits `first` to `first + count` are those of `src`; all others are as before. */
  ghost predicate Replaced(before: seq<byte>, after: seq<byte>, first: nat, count: nat, src: seq<byte>) {
    && |after| == |before| && count <= 8 * |src|
    && forall k :: 0 <= k < 8 * |before| ==>
      BitAt(after, k) == if first <= k < first + count then BitAt(src, k - first) else BitAt(before, k)
  }

  /** Exactly which writes go through. */
  ghost predicate Accepted(h: Handle, length: nat) {
    if h.Masked() then h.byte + h.Sent() <= length && (h.size > MASK_LIMIT || h.Sent() <= MASK_LIMIT)
    else h.byte + h.size <= length && (h.size > WRITE_LIMIT ==> h.unit <= WRITE_LIMIT)
  }

  /** `dax_tag_write`: what is refused has changed nothing, or a first part of its range when it was too long for one
      message. */
  method TagWrite(server: Server, h: Handle, src: seq<byte>) returns (err: int)
    requires h.Valid() && h.size > 0 && (if h.Masked() then h.count <= 8 * |src| else |src| == h.size)
    modifies server.data
    ensures err == 0 <==> Accepted(h, server.data.Length)
    ensures err != 0 && h.size <= MASK_LIMIT ==> server.data[..] == old(server.data[..])
    ensures err == 0 && !h.Masked() ==> server.data[..] == Written(old(server.data[..]), h.byte, src)
    ensures err == 0 && h.isBool ==> Replaced(old(server.data[..]), server.data[..], h.Target(), h.count, src)
    ensures err != 0 && !h.Masked() ==>
      exists n: nat :: n < |src| && Arrived(old(server.data[..]), server.data[..], h.byte, src, n)
    ensures err != 0 && h.Masked() ==>
      exists c: nat :: c <= h.count && Replaced(old(server.data[..]), server.data[..], h.Target(), c, src)
  {
    hide Bit, Written, MaskWritten, Arrived, MaskArrived, Chunk, Replaced, Packed;
    ghost var was := server.data[..];
    ghost var sent: nat;
    if h.Masked() {
      var bytes, mask := Pack(h, src);
      if h.size > MASK_LIMIT {
        err, sent := SendMasks(server, h.byte, bytes[..], mask[..]);
      } else {
        err := server.Mask(h.byte, bytes[..], mask[..]);
        sent := if err == 0 then h.Sent() else 0;
        OneMessage(was, h.byte, bytes[..], mask[..], err == 0);
      }
      PackReplaces(was, server.data[..], h, bytes[..], mask[..], src, sent);
    } else {
      if h.size > WRITE_LIMIT {
        if h.unit > WRITE_LIMIT {
          NoneArrived(was, h.byte, src);
          return ERR_2BIG;
        }
        err, sent := SendWrites(server, h.byte, src, h.unit);
      } else {
        err := server.Write(h.byte, src);
        sent := if err == 0 then |src| else 0;
        OneWrite(was, h.byte, src, err == 0);
      }
      if err == 0 {
        AllArrived(was, server.data[..], h.byte, src);
        if h.isBool {
          WriteReplaces(was, h, src);
        }
      }
    }
  }

  lemma OneWrite(was: seq<byte>, offset: nat, bytes: seq<byte>, done: bool)
    requires done ==> offset + |bytes| <= |was|
    ensures done ==> Arrived(was, Written(was, offset, bytes), offset, bytes, |bytes|)
    ensures !done ==> Arrived(was, was, offset, bytes, 0)
  {
    assert bytes[..|bytes|] == bytes;
  }

  lemma OneMessage(was: seq<byte>, offset: nat, bytes: seq<byte>, mask: seq<byte>, done: bool)
    requires |mask| == |bytes| && (done ==> offset + |bytes| <= |was|)
    ensures done ==> MaskArrived(was, MaskWritten(was, offset, bytes, mask), offset, bytes, mask, |bytes|)
    ensures !done ==> MaskArrived(was, was, offset, bytes, mask, 0)
  {
    assert bytes[..|bytes|] == bytes && mask[..|mask|] == mask;
    hide Merge;
  }

  lemma AllArrived(was: seq<byte>, data: seq<byte>, offset: nat, bytes: seq<byte>)
    requires Arrived(was, data, offset, bytes, |bytes|) && bytes != []
    ensures offset + |bytes| <= |was| && data == Written(was, offset, bytes)
  {
    assert bytes[..|bytes|] == bytes;
  }

  /** The first bytes of a packed range carry the first bits of it. */
  lemma PackReplaces(was: seq<byte>, data: seq<byte>, h: Handle, bytes: seq<byte>, mask: seq<byte>, src: seq<byte>,
                     n: nat)
    requires h.Valid() && h.isBool && Packed(h, src, bytes, mask) && MaskArrived(was, data, h.byte, bytes, mask, n)
    ensures exists c: nat :: c <= h.count && Replaced(was, data, h.Target(), c, src)
    ensures n == h.Sent() ==> Replaced(was, data, h.Target(), h.count, src)
  {
    var c := if 8 * n <= h.bit % 8 then 0 else if 8 * n - h.bit % 8 < h.count then 8 * n - h.bit % 8 else h.count;
    PackReplacesPart(was, data, h, bytes, mask, src, n, c);
  }

  lemma PackReplacesPart(was: seq<byte>, data: seq<byte>, h: Handle, bytes: seq<byte>, mask: seq<byte>, src: seq<byte>,
                         n: nat, c: nat)
    requires h.Valid() && h.isBool && Packed(h, src, bytes, mask) && MaskArrived(was, data, h.byte, bytes, mask, n)
    requires var lead := h.bit % 8;
      c == if 8 * n <= lead then 0 else if 8 * n - lead < h.count then 8 * n - lead else h.count
    ensures Replaced(was, data, h.Target(), c, src)
  {
    hide Bit, MaskWritten;
    forall k | 0 <= k < 8 * |was|
      ensures |data| == |was| && BitAt(data, k) ==
        if h.Target() <= k < h.Target() + c then BitAt(src, k - h.Target()) else BitAt(was, k)
    {
      if n > 0 { PackedBit(was, h, bytes, mask, src, n, k); }
    }
  }

  lemma PackedBit(was: seq<byte>, h: Handle, bytes: seq<byte>, mask: seq<byte>, src: seq<byte>, n: nat, k: nat)
    requires h.Valid() && h.isBool && Packed(h, src, bytes, mask) && 0 < n <= |bytes| && h.byte + n <= |was|
    requires k < 8 * |was|
    ensures BitAt(MaskWritten(was, h.byte, bytes[..n], mask[..n]), k) ==
      if h.Target() <= k < h.Target() + h.count && k < 8 * (h.byte + n) then BitAt(src, k - h.Target())
      else BitAt(was, k)
  {
    hide BitAt, MaskWritten;
    MaskWrittenBit(was, h.byte, bytes[..n], mask[..n], k);
    if 8 * h.byte <= k < 8 * (h.byte + n) {
      SliceBit(bytes, 0, n, k - 8 * h.byte);
      SliceBit(mask, 0, n, k - 8 * h.byte);
      assert bytes[0..n] == bytes[..n] && mask[0..n] == mask[..n];
    }
  }

  lemma WriteReplaces(was: seq<byte>, h: Handle, src: seq<byte>)
    requires h.Valid() && h.isBool && !h.Masked() && |src| == h.size && h.byte + h.size <= |was|
    ensures Replaced(was, Written(was, h.byte, src), h.Target(), h.count, src)
  {
    hide Bit, Written;
    assert h.count == 8 * h.size;
    forall k | 0 <= k < 8 * |was|
      ensures BitAt(Written(was, h.byte, src), k) ==
        if h.Target() <= k < h.Target() + h.count then BitAt(src, k - h.Target()) else BitAt(was, k)
    {
      WrittenBit(was, h.byte, src, k);
    }
  }

  /** Bit `k` of a BOOL range as a read delivers it. */
  ghost predicate Seen(data: seq<byte>, h: Handle, beyond: byte, k: nat)
    requires h.Valid() && h.isBool && k < h.count && h.byte + h.size <= |data|
  {
    if h.bit + k < 8 * h.size then BitAt(data, h.First() + k) else BitAt([beyond], h.bit + k - 8 * h.size)
  }

  /** `out` is what a read delivers of a tag that holds `data`. */
  ghost predicate ReadOf(data: seq<byte>, h: Handle, beyond: byte, out: seq<byte>)
    requires h.Valid()
  {
    && |out| == h.size && h.byte + h.size <= |data|
    && if h.isBool then forall k :: 0 <= k < 8 * h.size ==> BitAt(out, k) == (k < h.count && Seen(data, h, beyond, k))
       else out == data[h.byte..h.byte + h.size]
  }

  /** Exactly which reads go through. */
  predicate Readable(h: Handle, length: nat) {
    h.byte + h.size <= length && (h.size > MSG_DATA_SIZE ==> h.unit <= MSG_DATA_SIZE)
  }

  /** `dax_tag_read` */
  method TagRead(server: Server, h: Handle, beyond: byte) returns (err: int, out: seq<byte>)
    requires h.Valid() && h.size > 0
    ensures err == 0 <==> Readable(h, server.data.Length)
    ensures err == 0 ==> ReadOf(server.data[..], h, beyond, out)
  {
    hide Bit, Chunk, BitAt;
    if h.size > MSG_DATA_SIZE {
      if h.unit > MSG_DATA_SIZE {
        return ERR_2BIG, [];
      }
      err, out := SendReads(server, h.byte, h.size, h.unit);
    } else {
      err, out := server.Read(h.byte, h.size);
    }
    if err == 0 && h.isBool {
      ghost var data, all := out, server.data[..];
      var moved := Unpack(h, out, beyond);
      out := moved[..];
      assert data == all[h.byte..h.byte + h.size];
      forall k | 0 <= k < 8 * h.size
        ensures BitAt(out, k) == (k < h.count && Seen(all, h, beyond, k))
      {
        if k < h.count {
          SeenInMemory(all, h, beyond, k);
        }
      }
    }
  }

  lemma SeenInMemory(all: seq<byte>, h: Handle, beyond: byte, k: nat)
    requires h.Valid() && h.isBool && k < h.count && h.byte + h.size <= |all|
    ensures h.bit + k < 8 * (h.size + 1)
    ensures BitAt(all[h.byte..h.byte + h.size] + [beyond], h.bit + k) == Seen(all, h, beyond, k)
  {
    hide BitAt;
    assert k <= h.count - 1 && h.bit + k <= 8 + (h.bit % 8 + h.count - 1);
    SpanCovers(h.bit % 8 + h.count - 1);
    JoinedBit(all[h.byte..h.byte + h.size], beyond, h.bit + k);
    if h.bit + k < 8 * h.size {
      SliceBit(all, h.byte, h.byte + h.size, h.bit + k);
    }
  }

  lemma SpanCovers(n: nat)
    ensures n < 8 * (n / 8 + 1)
  {}

  lemma JoinedBit(s: seq<byte>, b: byte, k: nat)
    requires k < 8 * (|s| + 1)
    ensures BitAt(s + [b], k) == if k < 8 * |s| then BitAt(s, k) else BitAt([b], k - 8 * |s|)
  {
    hide Bit;
  }

  /** Below eight the byte beyond the buffer is not reached. */
  lemma SeenInside(data: seq<byte>, h: Handle, beyond: byte, k: nat)
    requires h.Valid() && h.isBool && h.bit < 8 && k < h.count && h.byte + h.size <= |data|
    ensures h.First() + k < 8 * |data| && Seen(data, h, beyond, k) == BitAt(data, h.First() + k)
  {
    hide BitAt;
    assert h.bit % 8 == h.bit;
    assert h.bit + k <= h.bit + h.count - 1 < 8 * h.size;
  }

  /** What was written to a BOOL range is what is read from it when the bit field is below eight, and nothing else has
      changed. */
  method RoundTrip(server: Server, h: Handle, src: seq<byte>, beyond: byte) returns (err: int, out: seq<byte>)
    requires h.Valid() && h.isBool && (if h.Masked() then h.count <= 8 * |src| else |src| == h.size)
    modifies server.data
    ensures err == 0 <==> Accepted(h, server.data.Length)
    ensures err == 0 ==>
      && Replaced(old(server.data[..]), server.data[..], h.Target(), h.count, src)
      && ReadOf(server.data[..], h, beyond, out)
      && (h.bit < 8 ==> h.Target() == h.First() && forall k :: 0 <= k < h.count ==> BitAt(out, k) == BitAt(src, k))
  {
    hide BitAt, Seen, Accepted;
    out := [];
    err := TagWrite(server, h, src);
    if err == 0 {
      InRange(h, server.data.Length);
      err, out := TagRead(server, h, beyond);
      if h.bit < 8 {
        forall k | 0 <= k < h.count ensures BitAt(out, k) == BitAt(src, k) {
          SeenInside(server.data[..], h, beyond, k);
        }
      }
    }
  }

  lemma InRange(h: Handle, length: nat)
    requires h.Valid() && h.isBool && Accepted(h, length)
    ensures Readable(h, length)
  {}

  /** The bytes of a source whose bits are all the same. */
  function Uniform(n: nat, on: bool): (s: seq<byte>)
    ensures |s| == n && forall k :: 0 <= k < 8 * n ==> BitAt(s, k) == on
  {
    var s := seq(n, _ => if on then 0xFF else 0);
    assert forall k :: 0 <= k < 8 * n ==> BitAt(s, k) == on by {
      forall k | 0 <= k < 8 * n ensures BitAt(s, k) == on {
        ConstBits(k % 8);
      }
    }
    s
  }

  /** A write that shows where it lands: it flips the first bit that it changes, so that of all places from there on it
      has replaced the bits of its own place only. */
  method Probe(server: Server, h: Handle) returns (err: int, src: seq<byte>)
    requires h.Valid() && h.isBool
    modifies server.data
    ensures err == 0 <==> Accepted(h, server.data.Length)
    ensures err == 0 ==> forall place: nat :: place >= h.Target() ==>
      (Replaced(old(server.data[..]), server.data[..], place, h.count, src) <==> place == h.Target())
  {
    hide Bit, BitAt;
    if h.byte >= server.data.Length {
      err, src := ERR_2BIG, [];
    } else {
      src := Uniform(h.size, !BitAt(server.data[..], h.Target()));
      err := TagWrite(server, h, src);
    }
  }

  /** Every range inside the tag would fit, but the spare byte of a shifted whole-byte range makes some
      writes fail: exactly those that end in the last byte of the tag, or that fill one message. */
  lemma RefusedInRange(h: Handle, length: nat)
    requires h.Valid() && h.isBool && h.byte + h.size <= length
    ensures !Accepted(h, length) <==>
      h.bit > 0 && h.count % 8 == 0 && (h.byte + h.size == length || h.size == MASK_LIMIT)
  {}

  /** Eight bits from bit 9 of a tag of 17 BOOLs, which has three bytes, cannot be written. */
  lemma RefusedExample()
    ensures var h := Handle(1, 1, 8, 2, true, 1); h.Valid() && h.First() + h.count <= 17 && !Accepted(h, 17 / 8 + 1)
  {}
}
