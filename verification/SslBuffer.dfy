/**
 The transport buffer of ssl_buffer.cc: bytes at an offset into an allocation. Offset, size and
 capacity are 16-bit fields.
 */
module SslBuffer {
  import opened Bytes

  const ALIGN_PAYLOAD: nat := 8
  const MAX_CAP: nat := 0xffff

  /** The contents after Consume, as bytes of the allocation. */
  function Consumed(mem: seq<byte>, offset: nat, size: nat, len: nat): seq<byte>
    requires offset < TWO_16 && len <= size && offset + size <= |mem|
  {
    var o := (offset + len) % TWO_16;
    mem[o..o + size - len]
  }

  class Buffer {
    var buf: array?<byte>
    var offset: nat
    var size: nat
    var cap: nat

    ghost predicate Valid()
      reads this, buf
    {
      && size <= cap <= MAX_CAP && offset < TWO_16
      && if buf == null then offset == 0 && cap == 0 else offset + cap <= buf.Length
    }

    ghost function Contents(): (s: seq<byte>)
      requires Valid()
      reads this, buf
      ensures |s| == size
    {
      if buf == null then [] else buf[offset..offset + size]
    }

    ghost function Repr(): set<object>
      reads this
    {
      {this} + if buf == null then {} else {buf}
    }

    constructor ()
      ensures Valid() && Contents() == [] && buf == null
    {
      buf, offset, size, cap := null, 0, 0, 0;
    }

    method Data() returns (data: seq<byte>)
      requires Valid()
      ensures data == Contents()
    {
      data := if buf == null then [] else buf[offset..offset + size];
    }

    method Clear()
      modifies this
      ensures Valid() && Contents() == [] && buf == null
    {
      buf, offset, size, cap := null, 0, 0, 0;
    }

    /**
     EnsureCap. `memory` is what the allocator has, if anything: how its address lies to the
     alignment, on which the offset of the record body depends.
     */
    method EnsureCap(newCap: nat, memory: Option<nat>) returns (ok: bool)
      requires Valid()
      modifies this
      ensures Valid() && Contents() == old(Contents()) && size == old(size)
      ensures ok <==> newCap <= MAX_CAP && (old(cap) >= newCap || memory.Some?)
      ensures !ok || old(cap) >= newCap ==> buf == old(buf) && offset == old(offset) && cap == old(cap)
      ensures ok && old(cap) < newCap ==>
        fresh(buf) && offset == memory.value % ALIGN_PAYLOAD && cap == newCap
    {
      if newCap > MAX_CAP {
        return false;
      }
      if cap >= newCap {
        return true;
      }
      if memory.None? {
        return false;
      }
      var newBuf := new byte[newCap + ALIGN_PAYLOAD - 1];
      var newOffset := memory.value % ALIGN_PAYLOAD;
      ghost var before := Contents();
      if buf != null {
        forall i | 0 <= i < size {
          newBuf[newOffset + i] := buf[offset + i];
        }
        assert newBuf[newOffset..newOffset + size] == before;
      }
      buf, offset, cap := newBuf, newOffset, newCap;
      return true;
    }

    /** Filling the remaining space from its front, and DidWrite. */
    method Append(bytes: seq<byte>)
      requires Valid() && |bytes| <= cap - size
      modifies this, buf
      ensures Valid() && Contents() == old(Contents()) + bytes
      ensures buf == old(buf) && cap == old(cap) && offset == old(offset) && size == old(size) + |bytes|
    {
      ghost var before := Contents();
      if buf != null {
        var start := offset + size;
        forall i | 0 <= i < |bytes| {
          buf[start + i] := bytes[i];
        }
        assert buf[offset..start] == before;
        assert buf[offset..start + |bytes|] == before + bytes;
      }
      size := size + |bytes|;
    }

    /**
     Consume: the front goes, unless the 16-bit offset runs over. Then the offset is back near
     the front of the allocation and the contents are whatever lies there.
     */
    method Consume(len: nat)
      requires Valid() && len <= size
      modifies this`offset, this`size, this`cap
      ensures Valid() && size == old(size) - len
      ensures old(offset) + len < TWO_16 || len == old(size) ==> Contents() == old(Contents())[len..]
      ensures buf != null ==> Contents() == Consumed(buf[..], old(offset), old(size), len)
      ensures offset == (old(offset) + len) % TWO_16
    {
      ghost var start, before := offset, Contents();
      offset := (offset + len) % TWO_16;
      size, cap := size - len, cap - len;
      if start + len < TWO_16 {
        assert Contents() == before[len..];
      } else if size == 0 {
        assert Contents() == [] == before[len..];
      }
    }
  }

  /** An allocation that tells one place from all others. */
  function Marker(n: nat, at: nat): (s: seq<byte>)
    ensures |s| == n && forall i :: 0 <= i < n ==> s[i] == if i == at then 1 else 0
  {
    seq(n, i => if i == at then 1 else 0)
  }

  /**
   Consuming the front keeps the rest, whatever the allocation holds, if and only if the offset
   stays within 16 bits or nothing is left.
   */
  lemma OffsetRunsOver(n: nat, offset: nat, size: nat, len: nat)
    requires offset < TWO_16 && len <= size && offset + size <= n
    ensures (forall mem: seq<byte> | |mem| == n ::
              Consumed(mem, offset, size, len) == mem[offset..offset + size][len..])
       <==> offset + len < TWO_16 || len == size
  {
    if offset + len < TWO_16 || len == size {
      forall mem: seq<byte> | |mem| == n
        ensures Consumed(mem, offset, size, len) == mem[offset..offset + size][len..]
      {
      }
    } else {
      var mem := Marker(n, offset + len);
      assert mem[offset..offset + size][len..][0] == 1;
      assert Consumed(mem, offset, size, len)[0] == 0;
    }
  }
}
