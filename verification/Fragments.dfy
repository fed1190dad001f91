/** DTLS handshake messages and the fragments they travel in (section 4.2.2 of RFC 6347). */
module Fragments {
  import opened Bytes

  const HM_HEADER_LENGTH: nat := 12
  const MAX_FLIGHT: nat := 7
  const MT_CCS: byte := 1

  function HmHeader(typ: byte, len: nat, seqNum: nat, off: nat, fragLen: nat): (h: seq<byte>)
    requires len < TWO_24 && seqNum < TWO_16 && off < TWO_24 && fragLen < TWO_24
    ensures |h| == HM_HEADER_LENGTH
  {
    [typ] + U24(len) + U16(seqNum) + U24(off) + U24(fragLen)
  }

  /** Section 4.2.2 of RFC 6347: type, length, number, and where the fragment lies; big-endian throughout. */
  lemma HeaderLayout(typ: byte, len: nat, seqNum: nat, off: nat, fragLen: nat)
    requires len < TWO_24 && seqNum < TWO_16 && off < TWO_24 && fragLen < TWO_24
    ensures var h := HmHeader(typ, len, seqNum, off, fragLen);
      && h[0] == typ && BigEndian(h[1..4]) == len && BigEndian(h[4..6]) == seqNum
      && BigEndian(h[6..9]) == off && BigEndian(h[9..12]) == fragLen
  {
    var h := HmHeader(typ, len, seqNum, off, fragLen);
    assert h[1..4] == U24(len);
    assert h[4..6] == U16(seqNum);
    assert h[6..9] == U24(off);
    assert h[9..12] == h[9..] == U24(fragLen);
    BigEndianOfThree(h[1..4]);
    BigEndianOfTwo(h[4..6]);
    BigEndianOfThree(h[6..9]);
    BigEndianOfThree(h[9..12]);
  }

  datatype Fragment = Fragment(typ: byte, len: nat, seqNum: nat, off: nat, bytes: seq<byte>) {

    predicate Encodable() {
      len < TWO_24 && seqNum < TWO_16 && off < TWO_24 && |bytes| < TWO_24
    }

    function Encode(): seq<byte>
      requires Encodable()
    {
      HmHeader(typ, len, seqNum, off, |bytes|) + bytes
    }
  }

  /** dtls1_parse_fragment: the first fragment of `input` and what follows it. */
  function ParseFragment(input: seq<byte>): (r: Option<(Fragment, seq<byte>)>)
    ensures r.Some? ==> r.value.0.Encodable() && |r.value.1| < |input|
  {
    if |input| < HM_HEADER_LENGTH then None
    else
      var fragLen := GetU24(input[9..12]);
      if |input| < HM_HEADER_LENGTH + fragLen then None
      else
        Some((Fragment(input[0], GetU24(input[1..4]), GetU16(input[4..6]), GetU24(input[6..9]),
                       input[HM_HEADER_LENGTH..HM_HEADER_LENGTH + fragLen]),
              input[HM_HEADER_LENGTH + fragLen..]))
  }

  lemma U24OfGetU24(s: seq<byte>)
    requires |s| == 3
    ensures U24(GetU24(s)) == s
  {
    var high := s[0] as int * 256 + s[1] as int;
    assert GetU24(s) == high * 256 + s[2] as int;
    assert GetU24(s) / 256 == high && GetU24(s) / 65536 == high / 256;
  }

  lemma U16OfGetU16(s: seq<byte>)
    requires |s| == 2
    ensures U16(GetU16(s)) == s
  {
  }

  lemma ParseEncoded(f: Fragment, rest: seq<byte>)
    requires f.Encodable()
    ensures ParseFragment(f.Encode() + rest) == Some((f, rest))
  {
    var input := f.Encode() + rest;
    assert input[1..4] == U24(f.len);
    assert input[4..6] == U16(f.seqNum);
    assert input[6..9] == U24(f.off);
    assert input[9..12] == U24(|f.bytes|);
    assert input[HM_HEADER_LENGTH..HM_HEADER_LENGTH + |f.bytes|] == f.bytes;
    assert input[HM_HEADER_LENGTH + |f.bytes|..] == rest;
  }

  /** What parses is nothing but the encoding of what it parses to. */
  lemma EncodeParsed(input: seq<byte>)
    requires ParseFragment(input).Some?
    ensures var (f, rest) := ParseFragment(input).value; f.Encode() + rest == input
  {
    U24OfGetU24(input[1..4]);
    U16OfGetU16(input[4..6]);
    U24OfGetU24(input[6..9]);
    U24OfGetU24(input[9..12]);
    var (f, rest) := ParseFragment(input).value;
    assert input == [input[0]] + input[1..4] + input[4..6] + input[6..9] + input[9..12] + input[12..];
    assert input[12..] == f.bytes + rest;
  }

  // ----- messages

  datatype Message = Message(typ: byte, body: seq<byte>) {

    /** The n-th message of a connection as one fragment: what the sender keeps and hashes. */
    function Raw(n: nat): seq<byte>
      requires n < TWO_16 && |body| < TWO_24
    {
      HmHeader(typ, |body|, n, 0, |body|) + body
    }

    function Slice(n: nat, off: nat, end: nat): Fragment
      requires off <= end <= |body|
    {
      Fragment(typ, |body|, n, off, body[off..end])
    }
  }

  ghost predicate Sendable(msgs: seq<Message>) {
    |msgs| < TWO_16 && forall n :: 0 <= n < |msgs| ==> |msgs[n].body| < TWO_24
  }

  /** `f` is a piece of the message it names. */
  ghost predicate Faithful(msgs: seq<Message>, f: Fragment) {
    && f.seqNum < |msgs|
    && f.off + |f.bytes| <= |msgs[f.seqNum].body|
    && f == msgs[f.seqNum].Slice(f.seqNum, f.off, f.off + |f.bytes|)
  }
}
