/**
 nanopb's decoder (pb_decode.c): what a byte string decodes to, and the input stream with its
 length-limited substreams that computes it.
 */
module PbDecode {
  import opened Bytes
  import opened PbIter
  import opened PbSchema
  import opened PbVarint

  // =====================================================================
  // What a byte string decodes to
  // =====================================================================

  /** `rest` is what is left of `input` after some of its front was read. */
  ghost predicate Suffix(rest: seq<byte>, input: seq<byte>) {
    |rest| <= |input| && rest == input[|input| - |rest|..]
  }

  datatype TagRead = Malformed | EndOfMessage(rest: seq<byte>) | Tagged(tag: nat, wireType: nat, rest: seq<byte>)

  /** pb_decode_tag on a nonempty stream; a zero ends the message. */
  function DecTag(input: seq<byte>): (r: TagRead)
    ensures !r.Malformed? ==> |r.rest| < |input| && Suffix(r.rest, input)
  {
    match Varint32(input)
    case None => Malformed
    case Some((t, rest)) => if t == 0 then EndOfMessage(rest) else Tagged(t / 8, t % 8, rest)
  }

  function Take(input: seq<byte>, n: nat): (r: Option<(seq<byte>, seq<byte>)>)
    ensures r.Some? ==> |r.value.1| + n == |input| && Suffix(r.value.1, input)
  {
    if n <= |input| then Some((input[..n], input[n..])) else None
  }

  /** pb_make_string_substream and closing it: the delimited part and what follows it. */
  function Split(input: seq<byte>): (r: Option<(seq<byte>, seq<byte>)>)
    ensures r.Some? ==> |r.value.0| + |r.value.1| < |input| && Suffix(r.value.1, input)
  {
    match Varint32(input)
    case None => None
    case Some((n, rest)) => Take(rest, n)
  }

  function SkipVarint(input: seq<byte>): (r: Option<seq<byte>>)
    ensures r.Some? ==> |r.value| < |input| && Suffix(r.value, input)
  {
    if input == [] then None
    else if input[0] >= 128 then SkipVarint(input[1..])
    else Some(input[1..])
  }

  /** pb_skip_field. */
  function Skip(input: seq<byte>, wireType: nat): (r: Option<seq<byte>>)
    ensures r.Some? ==> Suffix(r.value, input)
  {
    if wireType == WT_VARINT then SkipVarint(input)
    else
      var part := if wireType == WT_64BIT then Take(input, 8)
                  else if wireType == WT_32BIT then Take(input, 4)
                  else if wireType == WT_STRING then Split(input)
                  else None;
      match part
      case None => None
      case Some((_, rest)) => Some(rest)
  }

  /** The scalar decoders of PB_DECODERS. */
  function DecScalar(t: LType, input: seq<byte>): (r: Option<(Value, seq<byte>)>)
    ensures r.Some? ==> |r.value.1| < |input| && Suffix(r.value.1, input)
  {
    if t.Fixed32T? || t.Fixed64T? then
      match Take(input, if t.Fixed32T? then 4 else 8)
      case None => None
      case Some((b, rest)) => Some((Num(FromLittleEndian(b)), rest))
    else
      match Varint64(input, 0)
      case None => None
      case Some((raw, rest)) =>
        match ScalarOf(t, raw)
        case None => None
        case Some(v) => Some((v, rest))
  }

  /** The value of a raw varint in a field of this type, if the field can hold it. */
  function ScalarOf(t: LType, raw: nat): Option<Value> {
    match t
    case VarintT(size) =>
      if ValidSize(size) && FitsSigned(SignedOf(raw % TWO_64, size), size)
      then Some(Num(SignedOf(raw % TWO_64, size))) else None
    case UVarintT(size) => if ValidSize(size) && FitsUnsigned(raw, size) then Some(Num(raw)) else None
    case SVarintT(size) =>
      if ValidSize(size) && FitsSigned(UnZigZag(raw), size) then Some(Num(UnZigZag(raw))) else None
    case _ => None
  }

  /** The C string in a buffer. */
  function CString(b: seq<byte>): seq<byte> {
    if b == [] || b[0] == 0 then [] else [b[0]] + CString(b[1..])
  }

  function ZeroBytes(n: nat): (b: seq<byte>)
    ensures |b| == n
  {
    if n == 0 then [] else [0] + ZeroBytes(n - 1)
  }

  /** A length prefix and that many bytes, if `most` allows them. */
  function DecBlob(input: seq<byte>, most: nat): (r: Option<(seq<byte>, seq<byte>)>)
    ensures r.Some? ==> |r.value.0| <= most && |r.value.1| < |input| && Suffix(r.value.1, input)
  {
    match Varint32(input)
    case None => None
    case Some((n, rest)) => if n > most then None else Take(rest, n)
  }

  /** The submessage stored in `v`. */
  function Contents(fields: seq<Field>, v: Value): (slots: seq<Slot>)
    ensures |slots| == |fields|
  {
    if v.Msg? && |v.slots| == |fields| then v.slots else Initial(fields)
  }

  /** The field decoders of PB_DECODERS; a submessage is decoded over the contents of `dest`. */
  function DecValue(t: LType, dest: Value, input: seq<byte>): (r: Option<(Value, seq<byte>)>)
    ensures r.Some? ==> |r.value.1| < |input| && Suffix(r.value.1, input)
    decreases t
  {
    match t
    case BytesT(cap) =>
      (match DecBlob(input, Min(cap, PB_SIZE_MAX))
       case None => None
       case Some((b, rest)) => Some((Blob(b), rest)))
    case StringT(size) =>
      if size == 0 then None
      else
        (match DecBlob(input, size - 1)
         case None => None
         case Some((b, rest)) => Some((Blob(CString(b)), rest)))
    case FixedBytesT(size) =>
      (match DecBlob(input, PB_SIZE_MAX)
       case None => None
       case Some((b, rest)) =>
         if b == [] then Some((Blob(ZeroBytes(size)), rest))
         else if |b| == size then Some((Blob(b), rest)) else None)
    case SubmessageT(fields) =>
      (match Split(input)
       case None => None
       case Some((content, rest)) =>
         match DecFrom(fields, content, Contents(fields, dest), {}, 0)
         case None => None
         case Some((slots, _)) => Some((Msg(slots), rest)))
    case _ => DecScalar(t, input)
  }

  /** Packed items, until the substream is used up. */
  function DecItems(t: LType, cap: nat, items: seq<Value>, content: seq<byte>): Option<seq<Value>>
    decreases |content|
  {
    if content == [] then Some(items)
    else if |items| >= cap then None
    else
      match DecScalar(t, content)
      case None => None
      case Some((v, rest)) => DecItems(t, cap, items + [v], rest)
  }

  function Dest(s: Slot): Value {
    match s
    case One(v) => v
    case Opt(_, v) => v
    case _ => Num(0)
  }

  /** One value of a field; array entries and union members start from the initial contents. */
  function DecOne(f: Field, s: Slot, input: seq<byte>): (r: Option<(Value, seq<byte>)>)
    ensures r.Some? ==> |r.value.1| < |input| && Suffix(r.value.1, input)
    decreases f
  {
    var dest := if !(f.htype.Repeated? || f.htype.OneOf?) then Dest(s)
                else if f.ltype.SubmessageT? then Msg(Initial(f.ltype.fields)) else Num(0);
    DecValue(f.ltype, dest, input)
  }

  function ItemsOf(s: Slot): seq<Value> {
    if s.Rep? then s.items else []
  }

  /** Choosing field i of a union drops whatever other member was chosen. */
  function Choose(fields: seq<Field>, slots: seq<Slot>, i: nat, v: Value): (r: seq<Slot>)
    requires |slots| == |fields| && i < |fields|
    ensures |r| == |fields|
  {
    seq(|fields|, k requires 0 <= k < |fields| =>
      if k == i then Alt(Some(v)) else if SameUnion(fields[i], fields[k]) then Alt(None) else slots[k])
  }

  /** decode_static_field. */
  function DecField(fields: seq<Field>, slots: seq<Slot>, i: nat, wireType: nat, input: seq<byte>)
      : (r: Option<(seq<Slot>, seq<byte>)>)
    requires |slots| == |fields| && i < |fields|
    ensures r.Some? ==> |r.value.0| == |fields| && |r.value.1| < |input| && Suffix(r.value.1, input)
    decreases fields, |input|, 0
  {
    var f := fields[i];
    match f.htype
    case OneOf(_) =>
      (match DecOne(f, slots[i], input)
       case None => None
       case Some((v, rest)) => Some((Choose(fields, slots, i, v), rest)))
    case Repeated(cap) =>
      if wireType == WT_STRING && f.ltype.Packable() then
        match Split(input)
        case None => None
        case Some((content, rest)) =>
          match DecItems(f.ltype, cap, ItemsOf(slots[i]), content)
          case None => None
          case Some(items) => Some((slots[i := Rep(items)], rest))
      else if |ItemsOf(slots[i])| >= cap then None
      else
        (match DecOne(f, slots[i], input)
         case None => None
         case Some((v, rest)) => Some((slots[i := Rep(ItemsOf(slots[i]) + [v])], rest)))
    case _ =>
      match DecOne(f, slots[i], input)
      case None => None
      case Some((v, rest)) => Some((slots[i := if f.htype.Optional? then Opt(true, v) else One(v)], rest))
  }

  /** Every required field among the first 64 was seen. */
  predicate AllRequired(fields: seq<Field>, seen: set<nat>) {
    forall i :: 0 <= i < |fields| && Tracked(fields, i) ==> i in seen
  }

  predicate Tracked(fields: seq<Field>, i: nat)
    requires i < |fields|
  {
    fields[i].htype.Required? && RequiredBefore(fields, i) < PB_MAX_REQUIRED_FIELDS
  }

  /**
   pb_decode_noinit: fields in any order over the given contents, unknown ones skipped, until
   the input or a zero tag ends the message. Also returns what follows a zero tag.
   */
  function DecFrom(fields: seq<Field>, input: seq<byte>, slots: seq<Slot>, seen: set<nat>, pos: nat)
      : (r: Option<(seq<Slot>, seq<byte>)>)
    requires |slots| == |fields| && pos <= |fields|
    ensures r.Some? ==> |r.value.0| == |fields| && Suffix(r.value.1, input)
    decreases fields, |input|, 1
  {
    if input == [] then (if AllRequired(fields, seen) then Some((slots, [])) else None)
    else
      match DecTag(input)
      case Malformed => None
      case EndOfMessage(rest) => if AllRequired(fields, seen) then Some((slots, rest)) else None
      case Tagged(tag, wireType, rest) =>
        // The terminator of an empty descriptor has tag 0 and a size no decoder accepts.
        if fields == [] && tag == 0 then None
        else
          match Find(fields, pos, tag)
          case None =>
            (match Skip(rest, wireType)
             case None => None
             case Some(rest') => DecFrom(fields, rest', slots, seen, pos))
          case Some(i) =>
            match DecField(fields, slots, i, wireType, rest)
            case None => None
            case Some((slots', rest')) => DecFrom(fields, rest', slots', seen + {i}, i)
  }

  /** pb_decode. */
  function Decode(fields: seq<Field>, input: seq<byte>): Option<(seq<Slot>, seq<byte>)> {
    DecFrom(fields, input, Initial(fields), {}, 0)
  }

  // =====================================================================
  // The input stream
  // =====================================================================

  class IStream {
    const data: seq<byte>
    var state: nat
    var bytesLeft: nat

    ghost predicate Valid()
      reads this
    {
      End() <= |data|
    }

    /** Position plus bytes left: what every successful read keeps. */
    ghost function End(): nat
      reads this
    {
      state + bytesLeft
    }

    ghost function Rest(): seq<byte>
      requires Valid()
      reads this
    {
      data[state..End()]
    }

    /** pb_istream_from_buffer, at a position in the buffer. */
    constructor FromBuffer(data: seq<byte>, state: nat, bytesLeft: nat)
      requires state + bytesLeft <= |data|
      ensures Valid() && this.data == data && this.state == state && this.bytesLeft == bytesLeft
    {
      this.data, this.state, this.bytesLeft := data, state, bytesLeft;
    }

    /** pb_readbyte. */
    method ReadByte() returns (ok: bool, b: byte)
      requires Valid()
      modifies this
      ensures Valid() && End() == old(End())
      ensures ok <==> old(Rest()) != []
      ensures ok ==> b == old(Rest())[0] && Rest() == old(Rest())[1..] && bytesLeft == old(bytesLeft) - 1
      ensures !ok ==> Rest() == old(Rest())
    {
      if bytesLeft == 0 {
        return false, 0;
      }
      b := data[state];
      state, bytesLeft := state + 1, bytesLeft - 1;
      return true, b;
    }

    /** pb_read. */
    method Read(count: nat) returns (ok: bool, bytes: seq<byte>)
      requires Valid()
      modifies this
      ensures Valid() && End() == old(End())
      ensures ok <==> Take(old(Rest()), count).Some?
      ensures ok ==> Take(old(Rest()), count) == Some((bytes, Rest()))
    {
      if bytesLeft < count {
        return false, [];
      }
      bytes := data[state..state + count];
      assert bytes == Rest()[..count] && data[state + count..End()] == Rest()[count..];
      state, bytesLeft := state + count, bytesLeft - count;
      return true, bytes;
    }

    /** pb_decode_varint. */
    method DecodeVarint() returns (ok: bool, value: nat)
      requires Valid()
      modifies this
      ensures Valid() && End() == old(End())
      ensures ok <==> Varint64(old(Rest()), 0).Some?
      ensures ok ==> Varint64(old(Rest()), 0) == Some((value, Rest())) && value < TWO_64
    {
      hide Varint64, Pow128, Rest, Suffix;
      ghost var input := Rest();
      var k, factor := 0, 1;
      value := 0;
      FirstPower128();
      while true
        invariant Valid() && End() == old(End()) && k <= MAX_VARINT
        invariant factor == Pow128(k)
        invariant Varint64(input, 0) ==
          match Varint64(Rest(), k) case None => None case Some((v, rest)) => Some((value + factor * v, rest))
        decreases bytesLeft
      {
        Varint64Unfold(Rest(), k);
        if k >= MAX_VARINT {
          return false, 0;
        }
        var more, b := ReadByte();
        if !more {
          return false, 0;
        }
        // Shifting the tenth digit into place keeps only its lowest bit.
        var digit := if k == 9 then b as nat % 2 else b as nat % 128;
        if Varint64(Rest(), k + 1).Some? {
          Regroup(value, factor, digit, Varint64(Rest(), k + 1).value.0);
        }
        PowerStep(k);
        value := value + factor * digit;
        factor := factor * 128;
        k := k + 1;
        if b < 128 {
          FirstDigitBound(input);
          return true, value;
        }
      }
      assert false;
    }

    /** pb_decode_varint32_eof. */
    method DecodeVarint32() returns (ok: bool, value: nat, eof: bool)
      requires Valid()
      modifies this
      ensures Valid() && End() == old(End())
      ensures ok <==> Varint32(old(Rest())).Some?
      ensures ok ==> Varint32(old(Rest())) == Some((value, Rest())) && value < TWO_32
      ensures eof <==> old(Rest()) == []
    {
      hide Varint32Digits, AddDigit;
      var b;
      ok, b := ReadByte();
      if !ok {
        return false, 0, bytesLeft == 0;
      }
      if b < 128 {
        return true, b, false;
      }
      ghost var input := old(Rest());
      var k := 1;
      value := b as nat % 128;
      while true
        invariant Valid() && End() == old(End()) && k >= 1 && value < TWO_32
        invariant Varint32Digits(Rest(), k, value) == Varint32(input)
        decreases bytesLeft
      {
        DigitsUnfold(Rest(), k, value);
        ok, b := ReadByte();
        if !ok {
          return false, 0, false;
        }
        if k >= 5 {
          // The varint could have trailing zero digits, or the sign extension of a negative number.
          var signExtension := if 7 * k < 63 then 0xFF else 0x01;
          if b % 128 != 0 && (value < TWO_31 || b != signExtension) {
            return false, 0, false;
          }
        } else {
          value := AddDigit(value, b, k);
        }
        k := k + 1;
        if b < 128 {
          // Of the digit at bit 28 only four bits fit.
          if k == 5 && b / 16 % 8 != 0 {
            return false, 0, false;
          }
          return true, value, false;
        }
      }
      assert false;
    }

    /** pb_decode_tag, on a stream that is not empty. */
    method DecodeTag() returns (ok: bool, tag: nat, wireType: nat, eof: bool)
      requires Valid() && bytesLeft > 0
      modifies this
      ensures Valid() && End() == old(End())
      ensures match DecTag(old(Rest()))
        case Malformed => !ok && !eof
        case EndOfMessage(rest) => !ok && eof && Rest() == rest
        case Tagged(t, w, rest) => ok && !eof && tag == t && wireType == w && Rest() == rest
    {
      hide Varint32;
      tag, wireType := 0, 0;
      var temp;
      ok, temp, eof := DecodeVarint32();
      if !ok {
        return;
      }
      if temp == 0 {
        // Zero-terminated messages are allowed.
        return false, 0, 0, true;
      }
      tag, wireType := temp / 8, temp % 8;
    }

    /** pb_skip_field. */
    method SkipField(wireType: nat) returns (ok: bool)
      requires Valid()
      modifies this
      ensures Valid() && End() == old(End())
      ensures ok <==> Skip(old(Rest()), wireType).Some?
      ensures ok ==> Skip(old(Rest()), wireType) == Some(Rest())
    {
      hide Varint32;
      var bytes, size, eof;
      if wireType == WT_VARINT {
        ok := PassVarint();
      } else if wireType == WT_64BIT {
        ok, bytes := Read(8);
      } else if wireType == WT_STRING {
        ok, size, eof := DecodeVarint32();
        if ok {
          ok, bytes := Read(size);
        }
      } else if wireType == WT_32BIT {
        ok, bytes := Read(4);
      } else {
        ok := false;
      }
    }

    /** pb_skip_varint. */
    method PassVarint() returns (ok: bool)
      requires Valid()
      modifies this
      ensures Valid() && End() == old(End())
      ensures ok <==> SkipVarint(old(Rest())).Some?
      ensures ok ==> SkipVarint(old(Rest())) == Some(Rest())
    {
      var b: byte := 128;
      ok := true;
      while b >= 128
        invariant Valid() && End() == old(End()) && ok
        invariant SkipVarint(old(Rest())) == if b >= 128 then SkipVarint(Rest()) else Some(Rest())
        decreases b >= 128, bytesLeft
      {
        ok, b := ReadByte();
        if !ok {
          return;
        }
      }
    }

    /**
     pb_make_string_substream: the substream covers the delimited part. Until it is closed the
     parent has given up those bytes without having moved past them.
     */
    method MakeSubstream() returns (ok: bool, sub: IStream)
      requires Valid()
      modifies this
      ensures ok <==> Split(old(Rest())).Some?
      ensures ok ==>
        && fresh(sub) && sub.Valid() && sub.data == data
        && sub.Rest() == Split(old(Rest())).value.0
        && sub.state == state && state + bytesLeft + sub.bytesLeft == old(End())
        && bytesLeft == |Split(old(Rest())).value.1|
      ensures Valid() && state + bytesLeft <= old(End())
    {
      hide Varint32;
      sub := this;
      var size, eof;
      ok, size, eof := DecodeVarint32();
      if !ok {
        return;
      }
      if bytesLeft < size {
        return false, this;
      }
      sub := new IStream.FromBuffer(data, state, size);
      assert sub.Rest() == Rest()[..size];
      bytesLeft := bytesLeft - size;
    }

    /** pb_close_string_substream: the parent ends up right past the substream, however much was read. */
    method CloseSubstream(sub: IStream)
      requires sub != this && sub.Valid() && sub.data == data && sub.End() + bytesLeft <= |data|
      modifies this, sub
      ensures Valid() && state == old(sub.End()) && bytesLeft == old(bytesLeft)
    {
      if sub.bytesLeft > 0 {
        var ok, bytes := sub.Read(sub.bytesLeft);
      }
      state := sub.state;
    }
  }

  lemma DigitsUnfold(input: seq<byte>, k: nat, result: nat)
    requires result < TWO_32
    ensures Varint32Digits(input, k, result) ==
      if input == [] then None
      else
        var b := input[0];
        if k >= 5 && b % 128 != 0 && (result < TWO_31 || b != (if 7 * k < 63 then 0xFF else 0x01)) then None
        else
          var next := if k >= 5 then result else AddDigit(result, b, k);
          if b >= 128 then Varint32Digits(input[1..], k + 1, next)
          else if k == 4 && b / 16 % 8 != 0 then None
          else Some((next, input[1..]))
  {
  }

  lemma FirstPower128()
    ensures Pow128(0) == 1
  {
  }

  lemma FirstDigitBound(input: seq<byte>)
    ensures Varint64(input, 0).Some? ==> Varint64(input, 0).value.0 < TWO_64
  {
    if Varint64(input, 0).Some? {
      Varint64Bound(input, 0);
    }
  }

  lemma Regroup(value: nat, factor: nat, digit: nat, v: nat)
    ensures value + factor * digit + factor * 128 * v == value + factor * (digit + 128 * v)
  {
  }

  lemma Varint64Unfold(input: seq<byte>, k: nat)
    ensures Varint64(input, k) ==
      if k >= MAX_VARINT || input == [] then None
      else
        var digit := if k == 9 then input[0] as nat % 2 else input[0] as nat % 128;
        if input[0] < 128 then Some((digit, input[1..]))
        else
          match Varint64(input[1..], k + 1)
          case None => None
          case Some((v, rest)) => Some((digit + 128 * v, rest))
  {
  }

  // =====================================================================
  // Decoding
  // =====================================================================

  /** After closing the substream the parent is where Split says. */
  lemma ClosedWhere(s: IStream, input: seq<byte>, end: nat)
    requires s.Valid() && s.End() == end <= |s.data| && |input| <= end
    requires input == s.data[end - |input|..end]
    requires Split(input).Some? && s.bytesLeft == |Split(input).value.1|
    ensures s.Rest() == Split(input).value.1
  {
    hide Split;
    var rest := Split(input).value.1;
    assert Suffix(rest, input);
    assert s.data[end - |rest|..end] == input[|input| - |rest|..];
  }

  /** The scalar decoders of PB_DECODERS. */
  method DecodeScalar(s: IStream, t: LType) returns (ok: bool, v: Value)
    requires s.Valid() && t.Packable()
    modifies s
    ensures s.Valid() && s.End() == old(s.End())
    ensures ok <==> DecScalar(t, old(s.Rest())).Some?
    ensures ok ==> DecScalar(t, old(s.Rest())) == Some((v, s.Rest()))
  {
    hide Varint64, Take;
    v := Num(0);
    if t.Fixed32T? || t.Fixed64T? {
      var bytes;
      ok, bytes := s.Read(if t.Fixed32T? then 4 else 8);
      if ok {
        var n := JoinBytes(bytes);
        v := Num(n);
      }
      return;
    }
    var raw;
    ok, raw := s.DecodeVarint();
    if !ok {
      return;
    }
    if !ValidSize(t.size) {
      return false, v;
    }
    SmallMod(raw);
    var n: int;
    if t.VarintT? {
      // Fields of at most 32 bits are cast to int32_t first to get the sign right.
      n := SignedOf(raw, t.size);
    } else if t.UVarintT? {
      n := raw;
    } else {
      n := UnZigZagBits(raw);
    }
    // Storing into the field and comparing tells whether it was cut off.
    ok := if t.UVarintT? then FitsUnsigned(n, t.size) else FitsSigned(n, t.size);
    v := Num(n);
  }

  lemma SmallMod(n: nat)
    ensures n < TWO_64 ==> n % TWO_64 == n
  {
  }

  /** The shifts of pb_decode_fixed32 and pb_decode_fixed64. */
  method JoinBytes(bytes: seq<byte>) returns (n: nat)
    ensures n == FromLittleEndian(bytes)
  {
    n := 0;
    var i := |bytes|;
    while i > 0
      invariant 0 <= i <= |bytes| && n == FromLittleEndian(bytes[i..])
    {
      i := i - 1;
      assert bytes[i..][1..] == bytes[i + 1..];
      n := bytes[i] as nat + 256 * n;
    }
    assert bytes[0..] == bytes;
  }

  /** The common part of pb_dec_bytes, pb_dec_string and pb_dec_fixed_length_bytes. */
  method DecodeBlob(s: IStream, most: nat) returns (ok: bool, bytes: seq<byte>)
    requires s.Valid()
    modifies s
    ensures s.Valid() && s.End() == old(s.End())
    ensures ok <==> DecBlob(old(s.Rest()), most).Some?
    ensures ok ==> DecBlob(old(s.Rest()), most) == Some((bytes, s.Rest()))
  {
    hide Varint32, Take;
    bytes := [];
    var size, eof;
    ok, size, eof := s.DecodeVarint32();
    if !ok {
      return;
    }
    if size > most {
      return false, [];
    }
    ok, bytes := s.Read(size);
  }

  /** The field decoders of PB_DECODERS. */
  method DecodeValue(s: IStream, t: LType, dest: Value) returns (ok: bool, v: Value)
    requires s.Valid() && NonzeroTags(t)
    modifies s
    ensures s.Valid() && (ok ==> s.End() == old(s.End()))
    ensures ok <==> DecValue(t, dest, old(s.Rest())).Some?
    ensures ok ==> DecValue(t, dest, old(s.Rest())) == Some((v, s.Rest()))
    decreases t
  {
    hide DecBlob, DecScalar, DecFrom, Split;
    v := dest;
    var bytes;
    if t.BytesT? {
      ok, bytes := DecodeBlob(s, Min(t.cap, PB_SIZE_MAX));
      v := Blob(bytes);
    } else if t.StringT? {
      if t.size == 0 {
        // Not even the terminator fits.
        return false, dest;
      }
      ok, bytes := DecodeBlob(s, t.size - 1);
      v := Blob(CString(bytes));
    } else if t.FixedBytesT? {
      ok, bytes := DecodeBlob(s, PB_SIZE_MAX);
      // An empty string stands for all zeros.
      v := Blob(if |bytes| == 0 then ZeroBytes(t.size) else bytes);
      ok := ok && (|bytes| == 0 || |bytes| == t.size);
    } else if t.SubmessageT? {
      ok, v := DecodeSubmessage(s, t.fields, dest);
    } else {
      ok, v := DecodeScalar(s, t);
    }
  }

  /** pb_dec_submessage: decoding never leaves the substream. */
  method DecodeSubmessage(s: IStream, fields: seq<Field>, dest: Value) returns (ok: bool, v: Value)
    requires s.Valid() && AllNonzeroTags(fields)
    modifies s
    ensures s.Valid() && (ok ==> s.End() == old(s.End()))
    ensures ok <==> DecValue(SubmessageT(fields), dest, old(s.Rest())).Some?
    ensures ok ==> DecValue(SubmessageT(fields), dest, old(s.Rest())) == Some((v, s.Rest()))
    decreases fields, 3
  {
    hide DecFrom, Split, Contents, AllNonzeroTags;
    v := dest;
    ghost var input, end := s.Rest(), s.End();
    var sub;
    ok, sub := s.MakeSubstream();
    if !ok {
      return;
    }
    var slots;
    ok, slots := DecodeNoinit(sub, fields, Contents(fields, dest));
    if !ok {
      return;
    }
    s.CloseSubstream(sub);
    ClosedWhere(s, input, end);
    v := Msg(slots);
  }

  predicate NonzeroTags(t: LType)
    decreases t
  {
    t.SubmessageT? ==> AllNonzeroTags(t.fields)
  }

  /** No field has the terminator's tag. */
  predicate AllNonzeroTags(fields: seq<Field>)
    decreases fields
  {
    forall i :: 0 <= i < |fields| ==> NonzeroTag(fields[i])
  }

  predicate NonzeroTag(f: Field)
    decreases f
  {
    f.tag != 0 && NonzeroTags(f.ltype)
  }

  method DecodeOne(s: IStream, f: Field, slot: Slot) returns (ok: bool, v: Value)
    requires s.Valid() && NonzeroTag(f)
    modifies s
    ensures s.Valid() && (ok ==> s.End() == old(s.End()))
    ensures ok <==> DecOne(f, slot, old(s.Rest())).Some?
    ensures ok ==> DecOne(f, slot, old(s.Rest())) == Some((v, s.Rest()))
    decreases f
  {
    hide DecValue;
    var dest := if !(f.htype.Repeated? || f.htype.OneOf?) then Dest(slot)
                else if f.ltype.SubmessageT? then Msg(Initial(f.ltype.fields)) else Num(0);
    ok, v := DecodeValue(s, f.ltype, dest);
  }

  /** The loop over a packed array. */
  method DecodePacked(s: IStream, f: Field, items: seq<Value>) returns (ok: bool, all: seq<Value>)
    requires s.Valid() && f.htype.Repeated? && f.ltype.Packable()
    modifies s
    ensures s.Valid() && (ok ==> s.End() == old(s.End()))
    ensures ok <==> Split(old(s.Rest())).Some? &&
                    DecItems(f.ltype, f.htype.cap, items, Split(old(s.Rest())).value.0).Some?
    ensures ok ==> s.Rest() == Split(old(s.Rest())).value.1 &&
                   DecItems(f.ltype, f.htype.cap, items, Split(old(s.Rest())).value.0) == Some(all)
  {
    hide Split, DecScalar;
    all := items;
    ghost var input, end := s.Rest(), s.End();
    var sub;
    ok, sub := s.MakeSubstream();
    if !ok {
      return;
    }
    ghost var content := Split(input).value.0;
    label After:
    var status := true;
    while sub.bytesLeft > 0 && |all| < f.htype.cap
      invariant sub.Valid() && sub.End() == old@After(sub.End()) && unchanged@After(s)
      invariant DecItems(f.ltype, f.htype.cap, items, content) == DecItems(f.ltype, f.htype.cap, all, sub.Rest())
      decreases sub.bytesLeft
    {
      var v;
      status, v := DecodeScalar(sub, f.ltype);
      if !status {
        break;
      }
      all := all + [v];
    }
    if !status || sub.bytesLeft != 0 {
      return false, all;
    }
    s.CloseSubstream(sub);
    ClosedWhere(s, input, end);
  }

  /** decode_static_field. */
  method DecodeField(s: IStream, fields: seq<Field>, slots: seq<Slot>, i: nat, wireType: nat)
    returns (ok: bool, slots': seq<Slot>)
    requires s.Valid() && |slots| == |fields| && i < |fields| && AllNonzeroTags(fields)
    modifies s
    ensures s.Valid() && (ok ==> s.End() == old(s.End()))
    ensures ok <==> DecField(fields, slots, i, wireType, old(s.Rest())).Some?
    ensures ok ==> DecField(fields, slots, i, wireType, old(s.Rest())) == Some((slots', s.Rest()))
    decreases fields, 1
  {
    hide DecOne, DecItems, Split, NonzeroTag;
    var f := fields[i];
    slots' := slots;
    if f.htype.Repeated? && wireType == WT_STRING && f.ltype.Packable() {
      var items;
      ok, items := DecodePacked(s, f, ItemsOf(slots[i]));
      slots' := slots[i := Rep(items)];
      return;
    }
    if f.htype.Repeated? && |ItemsOf(slots[i])| >= f.htype.cap {
      return false, slots;
    }
    var v;
    ok, v := DecodeOne(s, f, slots[i]);
    slots' := match f.htype
      case OneOf(_) => Choose(fields, slots, i, v)
      case Repeated(_) => slots[i := Rep(ItemsOf(slots[i]) + [v])]
      case Optional => slots[i := Opt(true, v)]
      case _ => slots[i := One(v)];
  }

  /** The bit set records exactly the tracked fields seen. */
  ghost predicate BitsAgree(fields: seq<Field>, bits: set<nat>, seen: set<nat>) {
    && (forall k :: k in bits ==> k < PB_MAX_REQUIRED_FIELDS && k < RequiredBefore(fields, |fields|))
    && (forall i :: 0 <= i < |fields| && Tracked(fields, i) ==> (i in seen <==> RequiredBefore(fields, i) in bits))
  }

  lemma BitsAdd(fields: seq<Field>, bits: set<nat>, seen: set<nat>, i: nat)
    requires BitsAgree(fields, bits, seen) && i < |fields|
    ensures Tracked(fields, i) ==> BitsAgree(fields, bits + {RequiredBefore(fields, i)}, seen + {i})
    ensures !Tracked(fields, i) ==> BitsAgree(fields, bits, seen + {i})
  {
    RequiredMonotone(fields, i, |fields|);
    forall j | 0 <= j < |fields| && Tracked(fields, j) && j != i && Tracked(fields, i)
      ensures RequiredBefore(fields, j) != RequiredBefore(fields, i)
    {
      if j < i { RequiredMonotone(fields, j, i); } else { RequiredMonotone(fields, i, j); }
    }
  }

  /** The final check passes exactly when every tracked field was seen. */
  lemma BitsDecide(fields: seq<Field>, bits: set<nat>, seen: set<nat>)
    requires BitsAgree(fields, bits, seen)
    ensures (forall k :: 0 <= k < Min(RequiredBefore(fields, |fields|), PB_MAX_REQUIRED_FIELDS) ==> k in bits)
       <==> AllRequired(fields, seen)
  {
    var n := Min(RequiredBefore(fields, |fields|), PB_MAX_REQUIRED_FIELDS);
    if forall k :: 0 <= k < n ==> k in bits {
      forall i | 0 <= i < |fields| && Tracked(fields, i) ensures i in seen {
        RequiredMonotone(fields, i, |fields|);
      }
    }
    if AllRequired(fields, seen) {
      forall k | 0 <= k < n ensures k in bits {
        var i := RequiredExists(fields, |fields|, k);
        assert Tracked(fields, i);
      }
    }
  }

  /** How many required fields the bit set keeps track of, found by iterating to the end. */
  method RequiredCount(iter: FieldIter) returns (count: nat)
    requires iter.Valid() && forall i :: 0 <= i < |iter.fields| ==> iter.fields[i].tag != 0
    modifies iter
    ensures count == Min(RequiredBefore(iter.fields, |iter.fields|), PB_MAX_REQUIRED_FIELDS)
  {
    var lastRequired := false;
    count := 0;
    var more := true;
    while more
      invariant iter.Valid()
      invariant !more && iter.fields != [] ==>
        count + (if lastRequired then 1 else 0) == RequiredBefore(iter.fields, |iter.fields|)
      invariant !more && iter.fields == [] ==> count == 0
      decreases more, |iter.fields| - iter.pos
    {
      count := if iter.fields == [] then 0 else iter.requiredFieldIndex;
      // The terminator's type is zero, which reads as required.
      lastRequired := iter.TagAt(iter.pos) == 0 || iter.fields[iter.pos].htype.Required?;
      more := iter.Next();
    }
    if lastRequired && iter.TagAt(iter.pos) != 0 {
      count := count + 1;
    }
    if count > PB_MAX_REQUIRED_FIELDS {
      count := PB_MAX_REQUIRED_FIELDS;
    }
  }

  lemma NonzeroAt(fields: seq<Field>)
    requires AllNonzeroTags(fields)
    ensures forall i :: 0 <= i < |fields| ==> fields[i].tag != 0
  {
    forall i | 0 <= i < |fields| ensures fields[i].tag != 0 {
      assert NonzeroTag(fields[i]);
    }
  }

  /** What DecFrom does with one field of the input. */
  function DecStep(fields: seq<Field>, input: seq<byte>, slots: seq<Slot>, seen: set<nat>, pos: nat)
      : Option<(seq<Slot>, seq<byte>)>
    requires |slots| == |fields| && pos <= |fields| && DecTag(input).Tagged?
  {
    var t := DecTag(input);
    if fields == [] && t.tag == 0 then None
    else
      match Find(fields, pos, t.tag)
      case None =>
        (match Skip(t.rest, t.wireType)
         case None => None
         case Some(rest) => DecFrom(fields, rest, slots, seen, pos))
      case Some(i) =>
        match DecField(fields, slots, i, t.wireType, t.rest)
        case None => None
        case Some((slots', rest)) => DecFrom(fields, rest, slots', seen + {i}, i)
  }

  function Finish(fields: seq<Field>, slots: seq<Slot>, seen: set<nat>, rest: seq<byte>)
      : Option<(seq<Slot>, seq<byte>)>
  {
    if AllRequired(fields, seen) then Some((slots, rest)) else None
  }

  lemma DecFromUnfold(fields: seq<Field>, input: seq<byte>, slots: seq<Slot>, seen: set<nat>, pos: nat)
    requires |slots| == |fields| && pos <= |fields|
    ensures DecFrom(fields, input, slots, seen, pos) ==
      if input == [] then Finish(fields, slots, seen, [])
      else
        match DecTag(input)
        case Malformed => None
        case EndOfMessage(rest) => Finish(fields, slots, seen, rest)
        case Tagged(_, _, _) => DecStep(fields, input, slots, seen, pos)
  {
  }

  /**
   pb_decode_noinit: the fields that are there are decoded over `slots`, and the message is
   complete only if every tracked required field was among them.
   */
  method DecodeNoinit(s: IStream, fields: seq<Field>, slots: seq<Slot>) returns (ok: bool, slots': seq<Slot>)
    requires s.Valid() && |slots| == |fields| && AllNonzeroTags(fields)
    modifies s
    ensures s.Valid() && (ok ==> s.End() == old(s.End()))
    ensures ok <==> DecFrom(fields, old(s.Rest()), slots, {}, 0).Some?
    ensures ok ==> DecFrom(fields, old(s.Rest()), slots, {}, 0) == Some((slots', s.Rest()))
    decreases fields, 2
  {
    hide DecFrom, DecTag, DecField, Find, Skip, AllNonzeroTags, AllRequired, BitsAgree, FieldIter.Valid,
      RequiredBits.Valid;
    NonzeroAt(fields);
    ghost var seen: set<nat> := {};
    ghost var input, goal := s.Rest(), DecFrom(fields, s.Rest(), slots, {}, 0);
    var bits := new RequiredBits();
    var iter := new FieldIter(fields);
    NoBits(fields);
    slots' := slots;
    var done := false;
    while s.bytesLeft > 0 && !done
      invariant s.Valid() && s.End() == old(s.End())
      invariant iter.Valid() && iter.fields == fields && iter.pos <= |fields|
      invariant bits.Valid() && fresh(iter) && fresh(bits) && fresh(bits.words)
      invariant BitsAgree(fields, bits.seen, seen)
      invariant |slots'| == |fields|
      invariant goal == if done then Finish(fields, slots', seen, s.Rest())
                        else DecFrom(fields, s.Rest(), slots', seen, iter.pos)
      decreases s.bytesLeft, !done
    {
      DecFromUnfold(fields, s.Rest(), slots', seen, iter.pos);
      ghost var t := DecTag(s.Rest());
      var tag, wireType, eof;
      ok, tag, wireType, eof := s.DecodeTag();
      if !ok {
        if !eof {
          return;
        }
        done := true;
      } else {
        // An empty descriptor's terminator matches tag 0, and its size is refused.
        if |fields| == 0 && tag == 0 {
          return false, slots';
        }
        var found := FindField(iter, tag);
        if !found {
          // No match found, skip data.
          ok := s.SkipField(wireType);
          if !ok {
            return;
          }
        } else {
          var i := iter.pos;
          BitsAdd(fields, bits.seen, seen, i);
          if fields[i].htype.Required? && iter.requiredFieldIndex < PB_MAX_REQUIRED_FIELDS {
            bits.Mark(iter.requiredFieldIndex);
          }
          seen := seen + {i};
          ok, slots' := DecodeField(s, fields, slots', i, wireType);
          if !ok {
            return;
          }
        }
      }
    }
    if !done {
      DecFromUnfold(fields, s.Rest(), slots', seen, iter.pos);
    }
    // Check that all required fields were present.
    var count := RequiredCount(iter);
    BitsBound(fields, bits.seen, seen);
    BitsDecide(fields, bits.seen, seen);
    ok := bits.AllSeen(count);
  }

  lemma NoBits(fields: seq<Field>)
    ensures BitsAgree(fields, {}, {})
  {
  }

  lemma BitsBound(fields: seq<Field>, bits: set<nat>, seen: set<nat>)
    requires BitsAgree(fields, bits, seen)
    ensures forall k :: k in bits ==> k < Min(RequiredBefore(fields, |fields|), PB_MAX_REQUIRED_FIELDS)
  {
  }

  /** The search, which on a descriptor with fields never takes tag 0 for the terminator's. */
  method FindField(iter: FieldIter, tag: nat) returns (found: bool)
    requires iter.Valid() && iter.pos <= |iter.fields|
    requires iter.fields == [] ==> tag != 0
    requires forall i :: 0 <= i < |iter.fields| ==> iter.fields[i].tag != 0
    modifies iter
    ensures iter.Valid() && iter.pos <= |iter.fields|
    ensures found <==> Find(iter.fields, old(iter.pos), tag).Some?
    ensures iter.pos == if found then Find(iter.fields, old(iter.pos), tag).value else old(iter.pos)
    ensures found ==> iter.requiredFieldIndex == RequiredBefore(iter.fields, iter.pos)
  {
    found := iter.FindTag(tag);
  }

  /** pb_decode: the initial contents first, then the input over them. */
  method DecodeMessage(s: IStream, fields: seq<Field>) returns (ok: bool, slots: seq<Slot>)
    requires s.Valid() && AllNonzeroTags(fields)
    modifies s
    ensures s.Valid() && (ok ==> s.End() == old(s.End()))
    ensures ok <==> Decode(fields, old(s.Rest())).Some?
    ensures ok ==> Decode(fields, old(s.Rest())) == Some((slots, s.Rest()))
  {
    ok, slots := DecodeNoinit(s, fields, Initial(fields));
  }
}
