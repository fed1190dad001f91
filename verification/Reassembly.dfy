/**
 Reassembly of one incoming DTLS handshake message (d1_both.cc): the message buffer and the bit
 mask of received bytes, kept in step with the plain map of bytes received so far.
 */
module Reassembly {
  import opened Bytes
  import opened Fragments

  // ----- bits of a byte

  function Mask(k: nat): bv8
    requires k < 8
  {
    if k == 0 then 1 else if k == 1 then 2 else if k == 2 then 4 else if k == 3 then 8
    else if k == 4 then 16 else if k == 5 then 32 else if k == 6 then 64 else 128
  }

  predicate Bit(b: bv8, k: nat)
    requires k < 8
  {
    b & Mask(k) != 0
  }

  /** bit_range: bits `start`, inclusive, to `end`, exclusive. */
  function BitRange(start: nat, end: nat): (r: bv8)
    requires start <= end <= 8
    ensures forall k :: 0 <= k < 8 ==> (Bit(r, k) <==> start <= k < end)
  {
    ((!((1 as bv32 << start) - 1) & ((1 as bv32 << end) - 1)) & 0xff) as bv8
  }

  lemma OrBits(a: bv8, b: bv8)
    ensures forall k :: 0 <= k < 8 ==> (Bit(a | b, k) <==> Bit(a, k) || Bit(b, k))
  {
  }

  /** A byte is its eight bits. */
  lemma SameBits(a: bv8, b: bv8)
    requires forall k :: 0 <= k < 8 ==> Bit(a, k) == Bit(b, k)
    ensures a == b
  {
    assert Bit(a, 0) == Bit(b, 0) && Bit(a, 1) == Bit(b, 1) && Bit(a, 2) == Bit(b, 2);
    assert Bit(a, 3) == Bit(b, 3) && Bit(a, 4) == Bit(b, 4) && Bit(a, 5) == Bit(b, 5);
    assert Bit(a, 6) == Bit(b, 6) && Bit(a, 7) == Bit(b, 7);
  }

  lemma FullByte(b: bv8)
    ensures b == 0xff <==> forall k :: 0 <= k < 8 ==> Bit(b, k)
  {
    if forall k :: 0 <= k < 8 ==> Bit(b, k) {
      SameBits(b, 0xff);
    }
  }

  // ----- the mask

  /** Bit j of byte i says whether offset 8i + j was received. */
  ghost predicate Tracks(mask: seq<bv8>, got: set<nat>) {
    forall i, j {:trigger Bit(mask[i], j)} :: 0 <= i < |mask| && 0 <= j < 8 ==>
      (Bit(mask[i], j) <==> 8 * i + j in got)
  }

  function Range(start: nat, end: nat): (r: set<nat>)
    ensures forall k: nat :: k in r <==> start <= k < end
    decreases end - start
  {
    if start >= end then {} else {start} + Range(start + 1, end)
  }

  /** `b` becomes `b'` when the offsets in [start, end) are added to byte i. */
  ghost predicate ByteMarked(b: bv8, b': bv8, i: nat, start: nat, end: nat) {
    forall j :: 0 <= j < 8 ==> (Bit(b', j) <==> Bit(b, j) || start <= 8 * i + j < end)
  }

  lemma TracksMarked(mask: seq<bv8>, mask': seq<bv8>, got: set<nat>, start: nat, end: nat)
    requires Tracks(mask, got) && |mask| == |mask'|
    requires forall i :: 0 <= i < |mask| ==> ByteMarked(mask[i], mask'[i], i, start, end)
    ensures Tracks(mask', got + Range(start, end))
  {
    forall i, j | 0 <= i < |mask'| && 0 <= j < 8
      ensures Bit(mask'[i], j) <==> 8 * i + j in got + Range(start, end)
    {
      assert ByteMarked(mask[i], mask'[i], i, start, end);
      assert Bit(mask[i], j) <==> 8 * i + j in got;
    }
  }

  /** Or-ing in the bits of the range that fall in byte i. */
  lemma MarkByte(b: bv8, i: nat, s: nat, e: nat, start: nat, end: nat)
    requires s <= e <= 8
    requires s == if start <= 8 * i then 0 else start - 8 * i
    requires e == if 8 * i + 8 <= end then 8 else end - 8 * i
    ensures ByteMarked(b, b | BitRange(s, e), i, start, end)
  {
    var r := BitRange(s, e);
    OrBits(b, r);
    assert forall j :: 0 <= j < 8 ==> (Bit(r, j) <==> start <= 8 * i + j < end);
  }

  lemma MarkWholeByte(b: bv8, i: nat, start: nat, end: nat)
    requires start <= 8 * i && 8 * i + 8 <= end
    ensures ByteMarked(b, 0xff, i, start, end)
  {
    FullByte(0xff);
  }

  lemma MarkNothing(b: bv8, i: nat, start: nat, end: nat)
    requires 8 * i + 8 <= start || end <= 8 * i
    ensures ByteMarked(b, b, i, start, end)
  {
  }

  /** The bit writes of dtls1_hm_fragment_mark, for a nonempty range. */
  method MarkBits(mask: array<bv8>, start: nat, end: nat, ghost got: set<nat>)
    requires start < end <= 8 * mask.Length
    requires Tracks(mask[..], got)
    modifies mask
    ensures Tracks(mask[..], got + Range(start, end))
  {
    ghost var before := mask[..];
    var first, last := start / 8, end / 8;
    if first == last {
      MarkByte(mask[first], first, start % 8, end % 8, start, end);
      mask[first] := mask[first] | BitRange(start % 8, end % 8);
    } else {
      MarkByte(mask[first], first, start % 8, 8, start, end);
      mask[first] := mask[first] | BitRange(start % 8, 8);
      for i := first + 1 to last
        invariant mask[..first] == before[..first]
        invariant ByteMarked(before[first], mask[first], first, start, end)
        invariant forall k :: first < k < i ==> mask[k] == 0xff
        invariant mask[i..] == before[i..]
      {
        mask[i] := 0xff;
      }
      if end % 8 != 0 {
        assert mask[last] == before[last];
        MarkByte(mask[last], last, 0, end % 8, start, end);
        mask[last] := mask[last] | BitRange(0, end % 8);
      }
    }
    forall i | 0 <= i < mask.Length ensures ByteMarked(before[i], mask[..][i], i, start, end) {
      if first < i < last {
        MarkWholeByte(before[i], i, start, end);
      } else if i < first || i > last || (i == last && end % 8 == 0) {
        MarkNothing(before[i], i, start, end);
      }
    }
    TracksMarked(before, mask[..], got, start, end);
  }

  /** The completeness check of dtls1_hm_fragment_mark. */
  method MaskComplete(mask: array<bv8>, len: nat, ghost got: set<nat>) returns (complete: bool)
    requires mask.Length == (len + 7) / 8
    requires Tracks(mask[..], got) && got <= Range(0, len)
    ensures complete <==> got == Range(0, len)
  {
    for i := 0 to len / 8
      invariant forall k :: 0 <= k < 8 * i ==> k in got
    {
      FullByte(mask[i]);
      assert mask[i] == mask[..][i];
      if mask[i] != 0xff {
        var j :| 0 <= j < 8 && !Bit(mask[i], j);
        assert 8 * i + j !in got && 8 * i + j in Range(0, len);
        return false;
      }
      forall k | 8 * i <= k < 8 * i + 8 ensures k in got {
        assert Bit(mask[..][i], k - 8 * i);
      }
    }
    if len % 8 != 0 {
      var i := len / 8;
      assert mask[i] == mask[..][i];
      if mask[i] != BitRange(0, len % 8) {
        if got == Range(0, len) {
          SameBits(mask[i], BitRange(0, len % 8));
        }
        return false;
      }
      forall k | 8 * i <= k < len ensures k in got {
        assert Bit(mask[..][i], k - 8 * i);
      }
    }
    return true;
  }

  // ----- the message as the bytes received so far

  datatype Partial = Partial(typ: byte, seqNum: nat, len: nat, body: map<nat, byte>) {

    ghost predicate Valid() {
      seqNum < TWO_16 && len < TWO_24 && body.Keys <= Range(0, len)
    }

    predicate Complete() {
      body.Keys == Range(0, len)
    }

    /** Later bytes replace earlier ones, until the message is complete. */
    function Absorb(off: nat, bytes: seq<byte>): (r: Partial)
      ensures Valid() && off + |bytes| <= len ==> r.Valid()
    {
      if Complete() then this
      else
        this.(body := map k | k in body.Keys + Range(off, off + |bytes|) ::
          if off <= k < off + |bytes| then bytes[k - off] else body[k])
    }

    function Bytes(): (b: seq<byte>)
      requires Complete()
      ensures |b| == len && forall k :: 0 <= k < len ==> b[k] == body[k]
    {
      seq(len, k requires 0 <= k < len => body[k])
    }

    /** The message as a single fragment. */
    function Raw(): seq<byte>
      requires Valid() && Complete()
    {
      HmHeader(typ, len, seqNum, 0, len) + Bytes()
    }
  }

  class HmFragment {
    const typ: byte
    const seqNum: nat
    const msgLen: nat
    const data: array<byte>
    var reassembly: array?<bv8>
    ghost var value: Partial

    ghost function Repr(): set<object>
      reads this
    {
      {this, data} + if reassembly == null then {} else {reassembly}
    }

    ghost predicate Valid()
      reads this, Repr()
    {
      && value.Valid()
      && (value.typ, value.seqNum, value.len) == (typ, seqNum, msgLen)
      && data.Length == HM_HEADER_LENGTH + msgLen
      && data[..HM_HEADER_LENGTH] == HmHeader(typ, msgLen, seqNum, 0, msgLen)
      && (forall k :: k in value.body ==> data[HM_HEADER_LENGTH + k] == value.body[k])
      && (reassembly == null <==> value.Complete())
      && (reassembly != null ==>
            && reassembly.Length == (msgLen + 7) / 8
            && Tracks(reassembly[..], value.body.Keys))
    }

    lemma ValueIsValid()
      requires Valid()
      ensures value.Valid() && value.len == msgLen
    {
    }

    lemma CompleteIsNull()
      requires Valid()
      ensures reassembly == null <==> value.Complete()
    {
    }

    /** dtls1_hm_fragment_new. */
    constructor (typ: byte, seqNum: nat, msgLen: nat)
      requires seqNum < TWO_16 && msgLen < TWO_24
      ensures Valid() && fresh(Repr())
      ensures value == Partial(typ, seqNum, msgLen, map[])
    {
      this.typ, this.seqNum, this.msgLen := typ, seqNum, msgLen;
      value := Partial(typ, seqNum, msgLen, map[]);
      var header := HmHeader(typ, msgLen, seqNum, 0, msgLen);
      var buffer := new byte[HM_HEADER_LENGTH + msgLen];
      forall i | 0 <= i < HM_HEADER_LENGTH {
        buffer[i] := header[i];
      }
      data, reassembly := buffer, null;
      new;
      if msgLen > 0 {
        reassembly := new bv8[(msgLen + 7) / 8](_ => 0);
      }
      assert msgLen > 0 ==> 0 in Range(0, msgLen);
    }

    /** dtls1_hm_fragment_mark, with the bytes of the range already copied into `data`. */
    method Mark(start: nat, end: nat, ghost next: Partial)
      requires reassembly != null && msgLen > 0
      requires start <= end <= msgLen
      requires reassembly.Length == (msgLen + 7) / 8
      requires Tracks(reassembly[..], value.body.Keys)
      requires value.Valid() && value.len == msgLen && !value.Complete() && next.Valid()
      requires next.body.Keys == value.body.Keys + Range(start, end)
      requires next.len == msgLen
      modifies this`reassembly, reassembly
      ensures reassembly == null || reassembly == old(reassembly)
      ensures reassembly == null <==> next.Complete()
      ensures reassembly != null ==> Tracks(reassembly[..], next.body.Keys)
    {
      if start == end {
        assert next.body.Keys == value.body.Keys;
        return;
      }
      MarkBits(reassembly, start, end, value.body.Keys);
      var complete := MaskComplete(reassembly, msgLen, next.body.Keys);
      if complete {
        reassembly := null;
      }
    }

    /** Copying a fragment's bytes into a message that is not yet complete, and marking them. */
    method Receive(off: nat, bytes: seq<byte>)
      requires Valid() && off + |bytes| <= msgLen
      modifies Repr()
      ensures Valid() && Repr() <= old(Repr())
      ensures value == old(value).Absorb(off, bytes)
    {
      if reassembly == null {
        return;
      }
      forall k | 0 <= k < |bytes| {
        data[HM_HEADER_LENGTH + off + k] := bytes[k];
      }
      ghost var next := value.Absorb(off, bytes);
      Mark(off, off + |bytes|, next);
      value := next;
    }

    /** dtls1_get_message on a complete message. */
    method Raw() returns (raw: seq<byte>)
      requires Valid() && reassembly == null
      ensures raw == value.Raw()
    {
      raw := data[..];
    }
  }
}
