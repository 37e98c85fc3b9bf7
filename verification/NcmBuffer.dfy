/** A buffer of fixed capacity that is filled from the front: the part of struct sk_buff the driver uses. */
module NcmBuffer {
  import opened Bytes
  import opened NcmTx

  class Buffer {
    const data: array<Byte>
    var len: nat

    ghost predicate Valid()
      reads this
    {
      len <= data.Length
    }

    ghost function Contents(): (s: seq<Byte>)
      requires Valid()
      reads this, data
      ensures |s| == len
    {
      data[..len]
    }

    /** alloc_skb */
    constructor (size: nat)
      ensures Valid() && fresh(data) && data.Length == size && len == 0
    {
      data := new Byte[size](_ => 0);
      len := 0;
    }

    /** skb_put_zero */
    method PutZero(n: nat)
      requires Valid() && len + n <= data.Length
      modifies this, data
      ensures Valid() && Contents() == old(Contents()) + Zeros(n)
    {
      forall i | len <= i < len + n {
        data[i] := 0;
      }
      len := len + n;
    }

    /** skb_put_data */
    method PutData(s: seq<Byte>)
      requires Valid() && len + |s| <= data.Length
      modifies this, data
      ensures Valid() && Contents() == old(Contents()) + s
    {
      forall i | len <= i < len + |s| {
        data[i] := s[i - len];
      }
      len := len + |s|;
    }

    /** skb_put_data from another buffer */
    method CopyTo(to: Buffer)
      requires Valid() && to.Valid() && to != this && to.data != data && to.len + len <= to.data.Length
      modifies to, to.data
      ensures to.Valid() && to.Contents() == old(to.Contents()) + Contents()
    {
      to.PutData(data[..len]);
    }

    /** A store through a pointer into the buffer. */
    method Store(off: nat, s: seq<Byte>)
      requires Valid() && off + |s| <= len
      modifies data
      ensures Contents() == Patch(old(Contents()), off, s)
    {
      forall i | off <= i < off + |s| {
        data[i] := s[i - off];
      }
      assert Contents() == Patch(old(Contents()), off, s);
    }

    /** A load through a pointer into the buffer. */
    method Load(off: nat, w: nat) returns (v: nat)
      requires Valid() && off + w <= len
      ensures v == Field(Contents(), off, w)
    {
      v := FromLe(data[off..off + w]);
      assert data[off..off + w] == Contents()[off..off + w];
    }

    /** memset to zero */
    method Clear()
      requires Valid()
      modifies data
      ensures Contents() == Zeros(len)
    {
      forall i | 0 <= i < len {
        data[i] := 0;
      }
    }

    /** cdc_ncm_align_tail */
    method Align(modulus: nat, remainder: nat, max: int)
      requires Valid() && modulus > 0 && max <= data.Length
      modifies this, data
      ensures Valid() && Contents() == AlignTail(old(Contents()), modulus, remainder, max)
    {
      var align := AlignUp(len, modulus) - len + remainder;
      if len + align > max {
        align := max - len;
      }
      if align > 0 && data.Length - len >= align {
        PutZero(align);
      } else {
        assert Contents() + Zeros(0) == Contents();
      }
    }
  }
}
