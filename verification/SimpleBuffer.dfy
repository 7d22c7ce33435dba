/** CSimpleBuffer: a growable byte queue in one block of memory
    (c++/base/UtilPdu.cpp:14-72, c++/base/UtilPdu.h:24-42). */
module SimpleBuffer {
  import opened Options
  import opened Bytes

  class Buffer {
    var block: array<byte>
    var allocSize: nat
    var writeOffset: nat

    ghost predicate Valid()
      reads this
    {
      block.Length == allocSize && writeOffset <= allocSize
    }

    /** The bytes in the queue, first in first. */
    ghost function Contents(): (s: seq<byte>)
      requires Valid()
      reads this, block
      ensures |s| == writeOffset
    {
      block[..writeOffset]
    }

    constructor ()
      ensures Valid() && fresh(block) && Contents() == [] && allocSize == 0
    {
      block := new byte[0];
      allocSize, writeOffset := 0, 0;
    }

    /** Makes the block one quarter larger than the queue with `len` more bytes; realloc
        carries over as much as both blocks hold. */
    method Extend(len: nat)
      requires Valid()
      modifies this
      ensures Valid() && fresh(block) && Contents() == old(Contents())
      ensures writeOffset + len <= allocSize == (writeOffset + len) * 5 / 4
    {
      allocSize := writeOffset + len;
      allocSize := allocSize + allocSize / 4;
      var newBlock := new byte[allocSize];
      var kept := if block.Length < allocSize then block.Length else allocSize;
      forall i | 0 <= i < kept {
        newBlock[i] := block[i];
      }
      block := newBlock;
    }

    /** Appends; a null source makes room and leaves it as it is. */
    method Write(buf: Option<seq<byte>>, len: nat) returns (n: nat)
      requires Valid() && (buf.Some? ==> |buf.value| == len)
      modifies this, block
      ensures Valid() && (block == old(block) || fresh(block)) && n == len
      ensures |Contents()| == |old(Contents())| + len && Contents()[..old(writeOffset)] == old(Contents())
      ensures buf.Some? ==> Contents() == old(Contents()) + buf.value
      ensures allocSize >= old(allocSize)
    {
      if writeOffset + len > allocSize {
        Extend(len);
      }
      if buf.Some? {
        forall i | 0 <= i < len {
          block[writeOffset + i] := buf.value[i];
        }
      }
      writeOffset := writeOffset + len;
      n := len;
    }

    /** Takes bytes from the front, at most as many as there are, and moves the rest of
        the queue down. A null destination drops them. */
    method Read(buf: array?<byte>, len: nat) returns (n: nat)
      requires Valid() && (buf != null ==> len <= buf.Length && buf != block)
      modifies this`writeOffset, block, buf
      ensures Valid() && n == (if len > old(writeOffset) then old(writeOffset) else len)
      ensures Contents() == old(Contents())[n..]
      ensures buf != null ==> buf[..n] == old(Contents())[..n] && buf[n..] == old(buf[n..])
    {
      n := len;
      if n > writeOffset {
        n := writeOffset;
      }
      if buf != null {
        forall i | 0 <= i < n {
          buf[i] := block[i];
        }
      }
      writeOffset := writeOffset - n;
      forall i | 0 <= i < writeOffset {
        block[i] := block[n + i];
      }
    }

    /** Room for `len` more bytes was filled from outside. */
    method IncWriteOffset(len: nat)
      requires Valid() && writeOffset + len <= allocSize
      modifies this`writeOffset
      ensures Valid() && Contents() == block[..old(writeOffset) + len]
    {
      writeOffset := writeOffset + len;
    }
  }
}
