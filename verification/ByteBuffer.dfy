/** `Buffer`: a first-in first-out queue of bytes in one allocated block. */
module ByteBuffer {
  import opened Bits
  import opened NetUtil
  import opened ByteStream
  import opened Framing

  class Buffer {
    var data: array<byte>
    var allocSize: nat
    var writeOffset: nat

    /** The block has the size the buffer believes it has, and what it holds fits. */
    ghost predicate Valid()
      reads this
    {
      writeOffset <= allocSize == data.Length <= MAX_BUF_SIZE
    }

    ghost function Contents(): (s: seq<byte>)
      requires Valid()
      reads this, data
      ensures |s| == writeOffset
    {
      data[..writeOffset]
    }

    constructor ()
      ensures Valid() && fresh(data) && Contents() == []
    {
      data := new byte[0];
      allocSize := 0;
      writeOffset := 0;
    }

    /** Makes room for `len` more bytes. Up to the maximal size there is room afterwards and the
        contents stay. Beyond it nothing is reallocated, since the test for a full buffer assigns
        and is therefore always true: then the buffer believes in room it does not have. */
    method Extend(len: nat)
      requires Valid() && writeOffset + len < 0x1_0000_0000
      modifies this`data, this`allocSize
      ensures writeOffset + len <= MAX_BUF_SIZE ==>
        Valid() && fresh(data) && RoundedUp(writeOffset + len, allocSize) && Contents() == old(Contents())
      ensures writeOffset + len > MAX_BUF_SIZE ==>
        data == old(data) && allocSize > MAX_BUF_SIZE && !Valid()
    {
      var rounded := Rounded(writeOffset + len);
      allocSize := rounded;
      if allocSize > MAX_BUF_SIZE {
        return;
      }
      var newData := new byte[allocSize];
      forall i | 0 <= i < data.Length && i < newData.Length {
        newData[i] := data[i];
      }
      data := newData;
    }

    /** The least power of two that is not below a size. */
    static ghost predicate RoundedUp(size: nat, rounded: nat) {
      size <= rounded && if size <= 1 then rounded == size else IsPowerOfTwo(rounded) && rounded < 2 * size
    }

    /** `min_pow` on a size, converted to an `int` and back. */
    static method Rounded(size: nat) returns (rounded: nat)
      requires size < 0x1_0000_0000
      ensures if size <= MAX_BUF_SIZE then RoundedUp(size, rounded) && rounded <= MAX_BUF_SIZE
        else rounded > MAX_BUF_SIZE
    {
      hide IsPowerOfTwo;
      var r := MinPow(AsInt32(size));
      if 1 < size <= MAX_BUF_SIZE {
        BigPowers();
        NextPowerWithin(size, r, MAX_BUF_SIZE);
      }
      rounded := if r < 0 then r + 0x1_0000_0000 else r;
    }

    /** Appends bytes. */
    method Write(buf: seq<byte>)
      requires Valid() && writeOffset + |buf| <= MAX_BUF_SIZE
      modifies this, data
      ensures Valid() && (data == old(data) || fresh(data))
      ensures Contents() == old(Contents()) + buf
    {
      ghost var before := Contents();
      if writeOffset + |buf| > allocSize {
        Extend(|buf|);
      }
      assert data[..writeOffset] == before;
      Put(buf);
      assert data[..writeOffset] == before;
      writeOffset := writeOffset + |buf|;
      assert data[..writeOffset] == before + buf;
    }

    /** `memcpy(m_buffer + m_write_offset, buf, len)`, also what `recv` does. */
    method Put(buf: seq<byte>)
      requires Valid() && writeOffset + |buf| <= allocSize
      modifies data
      ensures data[..writeOffset] == old(data[..writeOffset])
      ensures data[writeOffset..writeOffset + |buf|] == buf
    {
      forall i | 0 <= i < |buf| {
        data[writeOffset + i] := buf[i];
      }
    }

    method IncWriteOffset(len: nat)
      requires Valid() && writeOffset + len <= allocSize
      modifies this`writeOffset
      ensures Valid() && writeOffset == old(writeOffset) + len
      ensures Contents() == old(Contents()) + data[old(writeOffset)..writeOffset]
    {
      writeOffset := writeOffset + len;
    }

    /** Takes bytes off the front, at most as many as there are, and moves the others up. */
    method Read(len: nat) returns (bytes: seq<byte>)
      requires Valid()
      modifies this`writeOffset, data
      ensures Valid()
      ensures |bytes| == if len > old(writeOffset) then old(writeOffset) else len
      ensures bytes + Contents() == old(Contents())
    {
      ghost var before := data[..writeOffset];
      var n := if len > writeOffset then writeOffset else len;
      bytes := data[..n];
      writeOffset := writeOffset - n;
      forall i | 0 <= i < writeOffset {
        data[i] := data[n + i];
      }
      assert data[..writeOffset] == before[n..];
    }
  }
}
