/** The bytes of a tag and the server's ways of writing them (src/server/tagbase.c). */
module Store {
  import opened Bits

  /** `memcpy` into the tag at `offset`. */
  function Written(data: seq<byte>, offset: nat, bytes: seq<byte>): (r: seq<byte>)
    requires offset + |bytes| <= |data|
    ensures |r| == |data|
  {
    data[..offset] + bytes + data[offset + |bytes|..]
  }

  /** The bytes under the mask at `offset`. */
  function MaskWritten(data: seq<byte>, offset: nat, bytes: seq<byte>, mask: seq<byte>): (r: seq<byte>)
    requires offset + |bytes| <= |data| && |mask| == |bytes|
    ensures |r| == |data|
  {
    Written(data, offset, seq(|bytes|, n requires 0 <= n < |bytes| => Merge(data[offset + n], bytes[n], mask[n])))
  }

  /** A write changes exactly the bits of its range. */
  lemma WrittenBit(data: seq<byte>, offset: nat, bytes: seq<byte>, k: nat)
    requires offset + |bytes| <= |data| && k < 8 * |data|
    ensures BitAt(Written(data, offset, bytes), k) ==
      if 8 * offset <= k < 8 * (offset + |bytes|) then BitAt(bytes, k - 8 * offset) else BitAt(data, k)
  {
    hide Bit;
  }

  /** A masked write changes exactly the bits of its range that the mask selects. */
  lemma MaskWrittenBit(data: seq<byte>, offset: nat, bytes: seq<byte>, mask: seq<byte>, k: nat)
    requires offset + |bytes| <= |data| && |mask| == |bytes| && k < 8 * |data|
    ensures BitAt(MaskWritten(data, offset, bytes, mask), k) ==
      if 8 * offset <= k < 8 * (offset + |bytes|) && BitAt(mask, k - 8 * offset) then BitAt(bytes, k - 8 * offset)
      else BitAt(data, k)
  {
    hide Bit, Merge;
    var merged := seq(|bytes|, n requires 0 <= n < |bytes| => Merge(data[offset + n], bytes[n], mask[n]));
    WrittenBit(data, offset, merged, k);
    if 8 * offset <= k < 8 * (offset + |bytes|) {
      var n := k / 8 - offset;
      assert (k - 8 * offset) / 8 == n && (k - 8 * offset) % 8 == k % 8;
      MergeBit(data[offset + n], bytes[n], mask[n], k % 8);
    }
  }

  /** The copy loop of `tag_mask_write`. */
  method MergeInto(data: array<byte>, offset: nat, bytes: seq<byte>, mask: seq<byte>)
    requires offset + |bytes| <= data.Length && |mask| == |bytes|
    modifies data
    ensures data[..] == MaskWritten(old(data[..]), offset, bytes, mask)
  {
    hide Merge;
    for n := 0 to |bytes|
      invariant forall k :: 0 <= k < data.Length ==>
        data[k] ==
          if offset <= k < offset + n then Merge(old(data[k]), bytes[k - offset], mask[k - offset]) else old(data[k])
    {
      data[offset + n] := Merge(data[offset + n], bytes[n], mask[n]);
    }
  }

  /** `memcpy` of `tag_write`, byte by byte. */
  method CopyInto(data: array<byte>, offset: nat, bytes: seq<byte>)
    requires offset + |bytes| <= data.Length
    modifies data
    ensures data[..] == Written(old(data[..]), offset, bytes)
  {
    for n := 0 to |bytes|
      invariant forall k :: 0 <= k < data.Length ==>
        data[k] == if offset <= k < offset + n then bytes[k - offset] else old(data[k])
    {
      data[offset + n] := bytes[n];
    }
  }

  /** `a[byte] |= 0x01 << bit` */
  method SetBitIn(a: array<byte>, byte: nat, bit: nat, ghost p: nat)
    requires bit < 8 && p == 8 * byte + bit < 8 * a.Length
    modifies a
    ensures a[..] == WithBit(old(a[..]), p)
    ensures forall k :: 0 <= k < 8 * a.Length ==> BitAt(a[..], k) == (k == p || BitAt(old(a[..]), k))
  {
    hide Bit, Set;
    ghost var was := a[..];
    a[byte] := Set(a[byte], bit);
    assert a[..] == WithBit(was, p);
    forall k | 0 <= k < 8 * a.Length ensures BitAt(a[..], k) == (k == p || BitAt(was, k)) {
      OneBit(was, p, k);
    }
  }
}
