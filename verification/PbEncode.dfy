/**
 nanopb's encoder (pb_encode.c): what a message encodes to, and the output stream that either
 writes it into a buffer or only counts its bytes.
 */
module PbEncode {
  import opened Bytes
  import opened PbSchema
  import opened PbVarint

  // =====================================================================
  // What a message encodes to
  // =====================================================================

  function Cat(a: Option<seq<byte>>, b: Option<seq<byte>>): Option<seq<byte>> {
    if a.Some? && b.Some? then Some(a.value + b.value) else None
  }

  function Tag(tag: nat, wireType: nat): seq<byte> {
    Varint(tag * 8 + wireType)
  }

  /** A length prefix and the bytes it counts. */
  function Delimited(bytes: Option<seq<byte>>): Option<seq<byte>> {
    if bytes.Some? && |bytes.value| < TWO_64 then Some(Varint(|bytes.value|) + bytes.value) else None
  }

  function EncValue(t: LType, v: Value): Option<seq<byte>>
    decreases t, 0
  {
    match (t, v)
    case (VarintT(size), Num(n)) => if ValidSize(size) then Some(Varint(ToUnsigned64(n))) else None
    case (UVarintT(size), Num(n)) => if ValidSize(size) then Some(Varint(ToUnsigned64(n))) else None
    case (SVarintT(size), Num(n)) => if ValidSize(size) then Some(Varint(ZigZag(n))) else None
    case (Fixed32T, Num(n)) => Some(LittleEndian(ToUnsigned64(n), 4))
    case (Fixed64T, Num(n)) => Some(LittleEndian(ToUnsigned64(n), 8))
    case (BytesT(cap), Blob(b)) => if |b| <= cap then Delimited(Some(b)) else None
    case (StringT(_), Blob(b)) => Delimited(Some(b))
    case (FixedBytesT(_), Blob(b)) => Delimited(Some(b))
    case (SubmessageT(fields), Msg(slots)) =>
      if |slots| == |fields| then Delimited(EncMsg(fields, slots, |fields|)) else None
    case _ => None
  }

  /** The first n items one after another, each behind `prefix`. */
  function EncItems(prefix: seq<byte>, t: LType, items: seq<Value>, n: nat): Option<seq<byte>>
    requires n <= |items|
    decreases t, 1, n
  {
    if n == 0 then Some([])
    else Cat(EncItems(prefix, t, items, n - 1), Cat(Some(prefix), EncValue(t, items[n - 1])))
  }

  function EncField(f: Field, s: Slot): Option<seq<byte>>
    decreases f
  {
    var tag := Tag(f.tag, f.ltype.WireType());
    match (f.htype, s)
    case (Required, One(v)) => Cat(Some(tag), EncValue(f.ltype, v))
    case (Singular, One(v)) => if IsDefault(f, s) then Some([]) else Cat(Some(tag), EncValue(f.ltype, v))
    case (Optional, Opt(has, v)) => if has then Cat(Some(tag), EncValue(f.ltype, v)) else Some([])
    case (OneOf(_), Alt(chosen)) =>
      if chosen.Some? then Cat(Some(tag), EncValue(f.ltype, chosen.value)) else Some([])
    case (Repeated(cap), Rep(items)) =>
      if items == [] then Some([])
      else if |items| > cap then None
      else if f.ltype.Packable() then
        Cat(Some(Tag(f.tag, WT_STRING)), Delimited(EncItems([], f.ltype, items, |items|)))
      else EncItems(tag, f.ltype, items, |items|)
    case _ => None
  }

  /** The first n fields in order. */
  function EncMsg(fields: seq<Field>, slots: seq<Slot>, n: nat): Option<seq<byte>>
    requires n <= |fields| == |slots|
    decreases fields, n
  {
    if n == 0 then Some([])
    else Cat(EncMsg(fields, slots, n - 1), EncField(fields[n - 1], slots[n - 1]))
  }

  function Encoding(fields: seq<Field>, slots: seq<Slot>): Option<seq<byte>>
    requires |fields| == |slots|
  {
    EncMsg(fields, slots, |fields|)
  }

  // =====================================================================
  // The output stream
  // =====================================================================

  /** A stream's state as a value: its memory (None when it only counts), position and output. */
  datatype View = View(mem: Option<seq<byte>>, state: nat, written: nat, maxSize: nat, out: seq<byte>) {

    ghost predicate Valid() {
      && written == |out|
      && (mem.Some? ==>
            && written <= maxSize && written <= state && Limit() <= |mem.value|
            && mem.value[state - written..state] == out)
    }

    /** The end of the part of the memory the stream may use. */
    ghost function Limit(): int {
      state + maxSize - written
    }

    ghost predicate Fits(bytes: seq<byte>) {
      mem.Some? ==> written + |bytes| <= maxSize
    }

    /** The stream after writing `bytes`. */
    ghost function Put(bytes: seq<byte>): (r: View)
      requires Valid() && Fits(bytes)
      ensures r.Valid()
    {
      var r := this.(written := written + |bytes|, out := out + bytes);
      if mem.None? then r
      else
        var m, end := mem.value, state + |bytes|;
        var m' := m[..state] + bytes + m[end..];
        assert m'[state - written..end] == m[state - written..state] + bytes;
        r.(mem := Some(m'), state := end)
    }

    /** Nothing before the position and nothing past the limit differs. */
    ghost predicate Frames(r: View)
      requires Valid()
    {
      && r.Valid() && r.maxSize == maxSize && r.mem.Some? == mem.Some?
      && (mem.Some? ==>
            && r.Limit() == Limit() && |r.mem.value| == |mem.value|
            && state <= r.state
            && forall k :: 0 <= k < |mem.value| && (k < state || Limit() <= k) ==>
                 r.mem.value[k] == mem.value[k])
    }
  }

  lemma FitsBoth(v: View, a: seq<byte>, b: seq<byte>)
    requires v.Valid()
    ensures v.Fits(a + b) <==> v.Fits(a) && v.Put(a).Fits(b)
    ensures v.Fits(a + b) ==> v.Put(a).Put(b) == v.Put(a + b)
  {
    if v.Fits(a + b) && v.mem.Some? {
      var m, mid := v.mem.value, v.state + |a|;
      var m' := m[..v.state] + a + m[mid..];
      assert m'[..mid] == m[..v.state] + a;
      assert m'[mid + |b|..] == m[mid + |b|..];
      assert m'[..mid] + b + m'[mid + |b|..] == m[..v.state] + (a + b) + m[mid + |b|..];
    }
    assert v.out + a + b == v.out + (a + b);
  }

  lemma PutFrames(v: View, a: seq<byte>)
    requires v.Valid() && v.Fits(a)
    ensures v.Frames(v.Put(a))
  {
  }

  lemma PutNothing(v: View)
    requires v.Valid()
    ensures v.Fits([]) && v.Put([]) == v
  {
    assert v.out + [] == v.out;
    if v.mem.Some? {
      assert v.mem.value[..v.state] + [] + v.mem.value[v.state..] == v.mem.value;
    }
  }

  lemma FramesTransitive(a: View, b: View, c: View)
    requires a.Valid() && a.Frames(b) && b.Frames(c)
    ensures a.Frames(c)
  {
  }

  /** What an encoding method does: all of `e`, or failure within the stream's part of the memory. */
  ghost predicate Emits(before: View, after: View, ok: bool, e: Option<seq<byte>>)
    requires before.Valid()
  {
    && after.Valid() && before.Frames(after)
    && (ok <==> e.Some? && before.Fits(e.value))
    && (ok ==> after == before.Put(e.value))
  }

  /** Writing one thing and then another is writing both. */
  lemma EmitsBoth(a: View, b: View, c: View, ok: bool, x: seq<byte>, y: Option<seq<byte>>)
    requires a.Valid() && Emits(a, b, true, Some(x)) && Emits(b, c, ok, y)
    ensures Emits(a, c, ok, Cat(Some(x), y))
  {
    if y.Some? {
      FitsBoth(a, x, y.value);
    }
    FramesTransitive(a, b, c);
  }

  /** Failing to write the first part is failing to write the whole. */
  lemma EmitsNot(a: View, b: View, x: Option<seq<byte>>, y: Option<seq<byte>>)
    requires a.Valid() && Emits(a, b, false, x)
    ensures Emits(a, b, false, Cat(x, y))
  {
    if x.Some? && y.Some? {
      FitsBoth(a, x.value, y.value);
    }
  }

  class OStream {
    /** null for a stream that only counts. */
    const buffer: array?<byte>
    const maxSize: nat
    var state: nat
    var bytesWritten: nat
    /** What has been written so far. */
    ghost var out: seq<byte>

    ghost function Repr(): set<object> {
      {this} + if buffer == null then {} else {buffer}
    }

    ghost function V(): View
      reads Repr()
    {
      View(if buffer == null then None else Some(buffer[..]), state, bytesWritten, maxSize, out)
    }

    ghost predicate Valid()
      reads Repr()
    {
      V().Valid()
    }

    constructor FromBuffer(buf: array<byte>, start: nat, size: nat)
      requires start + size <= buf.Length
      ensures Valid() && buffer == buf
      ensures V() == View(Some(buf[..]), start, 0, size, [])
    {
      buffer, maxSize, state, bytesWritten, out := buf, size, start, 0, [];
    }

    constructor Sizing()
      ensures Valid() && buffer == null && V() == View(None, 0, 0, 0, [])
    {
      buffer, maxSize, state, bytesWritten, out := null, 0, 0, 0, [];
    }

    /** pb_write. */
    method Write(bytes: seq<byte>) returns (ok: bool)
      requires Valid()
      modifies Repr()
      ensures Emits(old(V()), V(), ok, Some(bytes))
    {
      if buffer != null {
        if bytesWritten + |bytes| > maxSize {
          return false;
        }
        var dest := state;
        state := state + |bytes|;
        for i := 0 to |bytes|
          invariant forall j :: 0 <= j < i ==> buffer[dest + j] == bytes[j]
          invariant forall k :: 0 <= k < buffer.Length && (k < dest || dest + |bytes| <= k) ==>
            buffer[k] == old(buffer[k])
          modifies buffer
        {
          buffer[dest + i] := bytes[i];
        }
        assert buffer[..] == old(buffer[..state]) + bytes + old(buffer[state + |bytes|..]);
      }
      bytesWritten := bytesWritten + |bytes|;
      out := out + bytes;
      PutFrames(old(V()), bytes);
      return true;
    }

    /** pb_write without data, on a stream that only counts. */
    method Count(size: nat, ghost bytes: seq<byte>)
      requires Valid() && buffer == null && |bytes| == size
      modifies this
      ensures Emits(old(V()), V(), true, Some(bytes))
    {
      bytesWritten := bytesWritten + size;
      out := out + bytes;
    }
  }

  // =====================================================================
  // Encoding
  // =====================================================================

  method EncodeVarint(s: OStream, n: nat) returns (ok: bool)
    requires s.Valid() && n < TWO_64
    modifies s.Repr()
    ensures Emits(old(s.V()), s.V(), ok, Some(Varint(n)))
  {
    var bytes := VarintBytes(n);
    ok := s.Write(bytes);
  }

  method EncodeTag(s: OStream, wireType: nat, tag: nat) returns (ok: bool)
    requires s.Valid() && tag < TWO_32 && wireType < 8
    modifies s.Repr()
    ensures Emits(old(s.V()), s.V(), ok, Some(Tag(tag, wireType)))
  {
    ok := EncodeVarint(s, tag * 8 + wireType);
  }

  function Length(size: nat): Option<seq<byte>> {
    if size < TWO_64 then Some(Varint(size)) else None
  }

  /** A length prefix; a size_t holds every size that occurs. */
  method EncodeSize(s: OStream, size: nat) returns (ok: bool)
    requires s.Valid()
    modifies s.Repr()
    ensures Emits(old(s.V()), s.V(), ok, Length(size))
  {
    if size >= TWO_64 {
      return false;
    }
    ok := EncodeVarint(s, size);
  }

  lemma DelimitedIs(bytes: Option<seq<byte>>)
    ensures Delimited(bytes) == if bytes.Some? then Cat(Length(|bytes.value|), bytes) else None
  {
  }

  /** pb_encode_string. */
  method EncodeString(s: OStream, bytes: seq<byte>) returns (ok: bool)
    requires s.Valid()
    modifies s.Repr()
    ensures Emits(old(s.V()), s.V(), ok, Delimited(Some(bytes)))
  {
    hide Length, Delimited, Emits, View.Put, View.Valid;
    DelimitedIs(Some(bytes));
    ghost var v0 := s.V();
    ok := EncodeSize(s, |bytes|);
    ghost var v1 := s.V();
    EmitsValid(v0, v1, ok, Length(|bytes|));
    if !ok {
      EmitsNot(v0, v1, Length(|bytes|), Some(bytes));
      return false;
    }
    ok := s.Write(bytes);
    EmitsBoth(v0, v1, s.V(), ok, Length(|bytes|).value, Some(bytes));
  }

  /** pb_encode_fixed32 and pb_encode_fixed64. */
  method EncodeFixed(s: OStream, value: nat, len: nat) returns (ok: bool)
    requires s.Valid()
    modifies s.Repr()
    ensures Emits(old(s.V()), s.V(), ok, Some(LittleEndian(value, len)))
  {
    var bytes: seq<byte>, rest := [], value;
    for i := 0 to len
      invariant LittleEndian(value, len) == bytes + LittleEndian(rest, len - i)
    {
      bytes, rest := bytes + [rest % 256], rest / 256;
    }
    assert bytes == LittleEndian(value, len);
    ok := s.Write(bytes);
  }

  /** The scalar encoders of PB_ENCODERS. */
  method EncodeScalar(s: OStream, t: LType, v: Value) returns (ok: bool)
    requires s.Valid() && t.Packable() && Holds(t, v)
    modifies s.Repr()
    ensures Emits(old(s.V()), s.V(), ok, EncValue(t, v))
  {
    hide Emits, View.Valid;
    EmitsNone(s.V());
    match t {
      case VarintT(size) =>
        if !ValidSize(size) {
          return false;
        }
        ok := EncodeVarint(s, ToUnsigned64(v.n));
      case UVarintT(size) =>
        if !ValidSize(size) {
          return false;
        }
        ok := EncodeVarint(s, ToUnsigned64(v.n));
      case SVarintT(size) =>
        if !ValidSize(size) {
          return false;
        }
        var zigzagged := ZigZagBits(v.n);
        ok := EncodeVarint(s, zigzagged);
      case Fixed32T => ok := EncodeFixed(s, ToUnsigned64(v.n), 4);
      case Fixed64T => ok := EncodeFixed(s, ToUnsigned64(v.n), 8);
    }
  }

  /** The field encoders of PB_ENCODERS. */
  method EncodeValue(s: OStream, t: LType, v: Value) returns (ok: bool)
    requires s.Valid() && Holds(t, v) && (t.SubmessageT? ==> TagsFit(t.fields))
    modifies s.Repr()
    ensures Emits(old(s.V()), s.V(), ok, EncValue(t, v))
    decreases t, 0
  {
    hide Emits, View.Valid, Delimited;
    if t.Packable() {
      ok := EncodeScalar(s, t, v);
      return;
    }
    if t.BytesT? && |v.bytes| > t.cap {
      EmitsNone(s.V());
      return false;
    }
    if t.SubmessageT? {
      ok := EncodeSubmessage(s, t.fields, v.slots);
    } else {
      ok := EncodeString(s, v.bytes);
    }
  }

  /**
   pb_encode_submessage: the size from a counting pass, then the message itself into exactly
   that much room. The second pass cannot come out any other size.
   */
  method EncodeSubmessage(s: OStream, fields: seq<Field>, slots: seq<Slot>) returns (ok: bool)
    requires s.Valid() && HoldsAll(fields, slots) && TagsFit(fields)
    modifies s.Repr()
    ensures Emits(old(s.V()), s.V(), ok, Delimited(Encoding(fields, slots)))
    decreases fields, 2
  {
    hide Emits, View.Valid, View.Put, Delimited, TagsFit, Encoding, Length;
    ghost var v0 := s.V();
    EmitsNone(v0);
    DelimitedIs(Encoding(fields, slots));
    var sizing := new OStream.Sizing();
    ok := Encode(sizing, fields, slots);
    CountingEmits(sizing.V(), ok, Encoding(fields, slots));
    if !ok {
      return false;
    }
    var size := sizing.bytesWritten;
    ghost var e := Encoding(fields, slots);
    ok := EncodeSize(s, size);
    ghost var v1 := s.V();
    EmitsValid(v0, v1, ok, Length(size));
    if !ok {
      EmitsNot(v0, v1, Length(size), e);
      return false;
    }
    if s.buffer == null {
      s.Count(size, e.value);
      EmitsBoth(v0, v1, s.V(), true, Length(size).value, e);
      return true;
    }
    if s.bytesWritten + size > s.maxSize {
      EmitsFull(v1, e.value);
      EmitsBoth(v0, v1, v1, false, Length(size).value, e);
      return false;
    }
    ok := EncodeWithin(s, fields, slots, size);
    EmitsBoth(v0, v1, s.V(), ok, Length(size).value, e);
  }

  /** The second pass of pb_encode_submessage, on a substream of the first pass's size. */
  method EncodeWithin(s: OStream, fields: seq<Field>, slots: seq<Slot>, size: nat) returns (ok: bool)
    requires s.Valid() && s.buffer != null && HoldsAll(fields, slots) && TagsFit(fields)
    requires s.bytesWritten + size <= s.maxSize
    requires Encoding(fields, slots).Some? && |Encoding(fields, slots).value| == size
    modifies s.Repr()
    ensures Emits(old(s.V()), s.V(), ok, Encoding(fields, slots)) && ok
    decreases fields, 1
  {
    hide TagsFit, Encoding, Emits, View.Put, View.Valid;
    ghost var v0 := s.V();
    ghost var e := Encoding(fields, slots).value;
    SubstreamPut(v0, e);
    var sub := new OStream.FromBuffer(s.buffer, s.state, size);
    ghost var sub0 := sub.V();
    ok := Encode(sub, fields, slots);
    EmitsFits(sub0, sub.V(), ok, e);
    // Only a callback could make the second pass differ from the first.
    s.bytesWritten := s.bytesWritten + sub.bytesWritten;
    s.state := sub.state;
    s.out := s.out + sub.out;
    assert s.V() == v0.Put(e);
    if sub.bytesWritten != size {
      return false;
    }
  }

  /** Writing through a substream is writing through its parent. */
  lemma SubstreamPut(v: View, e: seq<byte>)
    requires v.Valid() && v.mem.Some? && v.Fits(e)
    ensures var sub := View(v.mem, v.state, 0, |e|, []);
      && sub.Valid() && sub.Fits(e) && v.state + |e| <= |v.mem.value|
      && v.Put(e) == View(sub.Put(e).mem, sub.Put(e).state, v.written + sub.Put(e).written, v.maxSize,
                          v.out + sub.Put(e).out)
      && sub.Put(e).written == |e|
    ensures Emits(v, v.Put(e), true, Some(e))
  {
    assert [] + e == e;
    PutFrames(v, e);
  }

  lemma EmitsFits(a: View, b: View, ok: bool, e: seq<byte>)
    requires a.Valid() && Emits(a, b, ok, Some(e)) && a.Fits(e)
    ensures ok && b == a.Put(e)
  {
  }

  /** pb_encode. */
  method Encode(s: OStream, fields: seq<Field>, slots: seq<Slot>) returns (ok: bool)
    requires s.Valid() && HoldsAll(fields, slots) && TagsFit(fields)
    modifies s.Repr()
    ensures Emits(old(s.V()), s.V(), ok, Encoding(fields, slots))
    decreases fields, 0
  {
    hide Emits, View.Valid, View.Put, EncField, HoldsSlot, TagFits;
    ghost var v0 := s.V();
    EmitsNothing(v0);
    for i := 0 to |fields|
      invariant EncMsg(fields, slots, i).Some? && s.Valid()
      invariant Emits(v0, s.V(), true, EncMsg(fields, slots, i))
    {
      FieldsPrefix(fields, slots, i + 1, |fields|);
      ghost var v1, x, y := s.V(), EncMsg(fields, slots, i), EncField(fields[i], slots[i]);
      ok := EncodeField(s, fields[i], slots[i]);
      EmitsValid(v1, s.V(), ok, y);
      EmitsBoth(v0, v1, s.V(), ok, x.value, y);
      if !ok {
        EmitsLess(v0, s.V(), EncMsg(fields, slots, i + 1), Encoding(fields, slots));
        return false;
      }
    }
    return true;
  }

  /** pb_get_encoded_size. */
  method GetEncodedSize(fields: seq<Field>, slots: seq<Slot>) returns (size: Option<nat>)
    requires HoldsAll(fields, slots) && TagsFit(fields)
    ensures size.Some? <==> Encoding(fields, slots).Some?
    ensures size.Some? ==> size.value == |Encoding(fields, slots).value|
  {
    var stream := new OStream.Sizing();
    var ok := Encode(stream, fields, slots);
    CountingEmits(stream.V(), ok, Encoding(fields, slots));
    size := if ok then Some(stream.bytesWritten) else None;
  }

  /**
   Both passes, one after the other: what the counting pass answers is what the writing pass needs.
   Writing succeeds exactly when the count is there and fits, writes exactly that many bytes, and
   touches nothing else.
   */
  method EncodeCounted(buf: array<byte>, start: nat, size: nat, fields: seq<Field>, slots: seq<Slot>)
    returns (counted: Option<nat>, ok: bool, written: nat)
    requires start + size <= buf.Length && HoldsAll(fields, slots) && TagsFit(fields)
    modifies buf
    ensures counted.Some? <==> Encoding(fields, slots).Some?
    ensures ok <==> counted.Some? && counted.value <= size
    ensures ok ==> written == counted.value && buf[start..start + written] == Encoding(fields, slots).value
    ensures forall k :: 0 <= k < buf.Length && !(start <= k < start + (if ok then written else size)) ==>
      buf[k] == old(buf[k])
  {
    hide Encoding, TagsFit;
    counted := GetEncodedSize(fields, slots);
    var stream := new OStream.FromBuffer(buf, start, size);
    ghost var v := stream.V();
    ok := Encode(stream, fields, slots);
    written := stream.bytesWritten;
    WrittenPart(v, stream.V(), ok, Encoding(fields, slots));
  }

  /** What a pass over a fresh stream leaves in the memory. */
  lemma WrittenPart(v: View, v': View, ok: bool, e: Option<seq<byte>>)
    requires v.Valid() && v.mem.Some? && v.written == 0 && Emits(v, v', ok, e)
    ensures ok <==> e.Some? && |e.value| <= v.maxSize
    ensures |v'.mem.value| == |v.mem.value|
    ensures ok ==> v'.written == |e.value| && v'.mem.value[v.state..v.state + |e.value|] == e.value
    ensures var m, m', n := v.mem.value, v'.mem.value, if ok then |e.value| else v.maxSize;
      forall k :: 0 <= k < |m| && !(v.state <= k < v.state + n) ==> m'[k] == m[k]
  {
  }

  /** encode_basic_field. */
  method EncodeField(s: OStream, f: Field, slot: Slot) returns (ok: bool)
    requires s.Valid() && HoldsSlot(f, slot) && TagFits(f)
    modifies s.Repr()
    ensures Emits(old(s.V()), s.V(), ok, EncField(f, slot))
    decreases f, 2
  {
    hide Emits, View.Valid, Tag, EncValue, Holds, IsDefault;
    EmitsNothing(s.V());
    match f.htype {
      case Required => ok := EncodeTagged(s, f, slot.v);
      case Singular =>
        var isDefault := CheckDefault(f, slot);
        if isDefault {
          return true;
        }
        ok := EncodeTagged(s, f, slot.v);
      case Optional =>
        if !slot.has {
          return true;
        }
        ok := EncodeTagged(s, f, slot.v);
      case OneOf(_) =>
        if slot.chosen.None? {
          return true;
        }
        ok := EncodeTagged(s, f, slot.chosen.value);
      case Repeated(_) => ok := EncodeArray(s, f, slot.items);
    }
  }

  /** pb_encode_tag_for_field and the field's encoder. */
  method EncodeTagged(s: OStream, f: Field, v: Value) returns (ok: bool)
    requires s.Valid() && Holds(f.ltype, v) && TagFits(f)
    modifies s.Repr()
    ensures Emits(old(s.V()), s.V(), ok, Cat(Some(Tag(f.tag, f.ltype.WireType())), EncValue(f.ltype, v)))
    decreases f, 0
  {
    hide Emits, View.Valid, View.Put, Tag, EncValue, Holds;
    ghost var v0, x, y := s.V(), Tag(f.tag, f.ltype.WireType()), EncValue(f.ltype, v);
    ok := EncodeTag(s, f.ltype.WireType(), f.tag);
    ghost var v1 := s.V();
    EmitsValid(v0, v1, ok, Some(x));
    if !ok {
      EmitsNot(v0, v1, Some(x), y);
      return false;
    }
    ok := EncodeValue(s, f.ltype, v);
    EmitsBoth(v0, v1, s.V(), ok, x, y);
  }

  /** encode_array. */
  method EncodeArray(s: OStream, f: Field, items: seq<Value>) returns (ok: bool)
    requires s.Valid() && f.htype.Repeated? && HoldsSlot(f, Rep(items)) && TagFits(f)
    modifies s.Repr()
    ensures Emits(old(s.V()), s.V(), ok, EncField(f, Rep(items)))
    decreases f, 1
  {
    hide Emits, View.Valid, View.Put, Tag, EncValue, Holds, Delimited;
    ghost var v0, tag := s.V(), Tag(f.tag, f.ltype.WireType());
    EmitsNothing(v0);
    EmitsNone(v0);
    if |items| == 0 {
      return true;
    }
    if |items| > f.htype.cap {
      return false;
    }
    if f.ltype.Packable() {
      ok := EncodePacked(s, f, items);
      return;
    }
    for i := 0 to |items|
      invariant EncItems(tag, f.ltype, items, i).Some? && s.Valid()
      invariant Emits(v0, s.V(), true, EncItems(tag, f.ltype, items, i))
    {
      ItemsPrefix(tag, f.ltype, items, i + 1, |items|);
      ghost var v1, x := s.V(), EncItems(tag, f.ltype, items, i);
      ghost var y := Cat(Some(tag), EncValue(f.ltype, items[i]));
      ok := EncodeTagged(s, f, items[i]);
      EmitsValid(v1, s.V(), ok, y);
      EmitsBoth(v0, v1, s.V(), ok, x.value, y);
      if !ok {
        EmitsLess(v0, s.V(), EncItems(tag, f.ltype, items, i + 1), EncItems(tag, f.ltype, items, |items|));
        return false;
      }
    }
    return true;
  }

  /** The items of a packed array, without tags. */
  method EncodeAll(s: OStream, t: LType, items: seq<Value>) returns (ok: bool)
    requires s.Valid() && t.Packable()
    requires forall k :: 0 <= k < |items| ==> Holds(t, items[k])
    modifies s.Repr()
    ensures Emits(old(s.V()), s.V(), ok, EncItems([], t, items, |items|))
  {
    hide Emits, View.Valid, View.Put, EncValue, Holds;
    ghost var v0 := s.V();
    EmitsNothing(v0);
    for i := 0 to |items|
      invariant EncItems([], t, items, i).Some? && s.Valid()
      invariant Emits(v0, s.V(), true, EncItems([], t, items, i))
    {
      ItemsPrefix([], t, items, i + 1, |items|);
      ghost var v1, x := s.V(), EncItems([], t, items, i);
      ghost var y := EncValue(t, items[i]);
      ok := EncodeScalar(s, t, items[i]);
      EmitsValid(v1, s.V(), ok, y);
      EmitsBoth(v0, v1, s.V(), ok, x.value, y);
      assert Cat(Some([]), y) == y by { assert y.Some? ==> [] + y.value == y.value; }
      if !ok {
        EmitsLess(v0, s.V(), EncItems([], t, items, i + 1), EncItems([], t, items, |items|));
        return false;
      }
    }
    return true;
  }

  /** The size of a packed array, computed or counted. */
  method PackedSize(t: LType, items: seq<Value>) returns (ok: bool, size: nat)
    requires t.Packable()
    requires forall k :: 0 <= k < |items| ==> Holds(t, items[k])
    ensures ok <==> EncItems([], t, items, |items|).Some?
    ensures ok ==> size == |EncItems([], t, items, |items|).value|
  {
    if t.Fixed32T? {
      FixedSize(t, items, |items|);
      return true, 4 * |items|;
    } else if t.Fixed64T? {
      FixedSize(t, items, |items|);
      return true, 8 * |items|;
    }
    hide Emits, Holds, EncValue;
    var sizing := new OStream.Sizing();
    ok := EncodeAll(sizing, t, items);
    CountingEmits(sizing.V(), ok, EncItems([], t, items, |items|));
    size := sizing.bytesWritten;
  }

  /** The packed branch of encode_array: the size first, then the items. */
  method EncodePacked(s: OStream, f: Field, items: seq<Value>) returns (ok: bool)
    requires s.Valid() && f.ltype.Packable() && f.tag < TWO_32
    requires forall k :: 0 <= k < |items| ==> Holds(f.ltype, items[k])
    modifies s.Repr()
    ensures Emits(old(s.V()), s.V(), ok, Cat(Some(Tag(f.tag, WT_STRING)),
                                             Delimited(EncItems([], f.ltype, items, |items|))))
  {
    hide Emits, View.Valid, View.Put, Tag, EncItems, EncValue, Holds, Delimited, Length;
    ghost var v0, tag, e := s.V(), Tag(f.tag, WT_STRING), EncItems([], f.ltype, items, |items|);
    DelimitedIs(e);
    ok := EncodeTag(s, WT_STRING, f.tag);
    ghost var v1 := s.V();
    EmitsValid(v0, v1, ok, Some(tag));
    if !ok {
      EmitsNot(v0, v1, Some(tag), Delimited(e));
      return false;
    }
    EmitsNone(v1);
    var size;
    ok, size := PackedSize(f.ltype, items);
    if !ok {
      EmitsBoth(v0, v1, v1, false, tag, Delimited(e));
      return false;
    }
    ok := EncodeSize(s, size);
    ghost var v2 := s.V();
    EmitsValid(v1, v2, ok, Length(size));
    if !ok {
      EmitsNot(v1, v2, Length(size), e);
      EmitsBoth(v0, v1, v2, false, tag, Delimited(e));
      return false;
    }
    if s.buffer == null {
      s.Count(size, e.value);
      ok := true;
    } else {
      ok := EncodeAll(s, f.ltype, items);
    }
    EmitsBoth(v1, v2, s.V(), ok, Length(size).value, e);
    EmitsBoth(v0, v1, s.V(), ok, tag, Delimited(e));
  }

  // ----- lemmas on Emits

  lemma EmitsValid(a: View, b: View, ok: bool, e: Option<seq<byte>>)
    requires a.Valid() && Emits(a, b, ok, e)
    ensures b.Valid() && (ok ==> e.Some?)
  {
  }

  lemma EmitsNothing(v: View)
    requires v.Valid()
    ensures Emits(v, v, true, Some([]))
  {
    PutNothing(v);
  }

  lemma EmitsNone(v: View)
    requires v.Valid()
    ensures Emits(v, v, false, None)
  {
  }

  lemma EmitsFull(v: View, e: seq<byte>)
    requires v.Valid() && v.mem.Some? && v.written + |e| > v.maxSize
    ensures Emits(v, v, false, Some(e))
  {
  }

  /** If a prefix could not be written, neither could the whole. */
  lemma EmitsLess(a: View, b: View, x: Option<seq<byte>>, whole: Option<seq<byte>>)
    requires a.Valid() && Emits(a, b, false, x)
    requires whole.Some? ==> x.Some? && x.value <= whole.value
    ensures Emits(a, b, false, whole)
  {
  }

  lemma CountingEmits(v: View, ok: bool, e: Option<seq<byte>>)
    requires Emits(View(None, 0, 0, 0, []), v, ok, e)
    ensures ok <==> e.Some?
    ensures ok ==> v.written == |e.value|
  {
  }

  lemma {:induction false} FieldsPrefix(fields: seq<Field>, slots: seq<Slot>, m: nat, n: nat)
    requires m <= n <= |fields| == |slots|
    ensures EncMsg(fields, slots, n).Some? ==>
      EncMsg(fields, slots, m).Some? && EncMsg(fields, slots, m).value <= EncMsg(fields, slots, n).value
  {
    if m < n {
      FieldsPrefix(fields, slots, m, n - 1);
    }
  }

  lemma {:induction false} ItemsPrefix(prefix: seq<byte>, t: LType, items: seq<Value>, m: nat, n: nat)
    requires m <= n <= |items|
    ensures EncItems(prefix, t, items, n).Some? ==>
      && EncItems(prefix, t, items, m).Some?
      && EncItems(prefix, t, items, m).value <= EncItems(prefix, t, items, n).value
  {
    if m < n {
      ItemsPrefix(prefix, t, items, m, n - 1);
    }
  }

  lemma {:induction false} FixedSize(t: LType, items: seq<Value>, n: nat)
    requires (t.Fixed32T? || t.Fixed64T?) && n <= |items|
    requires forall k :: 0 <= k < |items| ==> Holds(t, items[k])
    ensures EncItems([], t, items, n).Some?
    ensures |EncItems([], t, items, n).value| == (if t.Fixed32T? then 4 else 8) * n
  {
    if n > 0 {
      FixedSize(t, items, n - 1);
      assert Holds(t, items[n - 1]);
    }
  }

  /** pb_check_proto3_default_value. */
  method CheckDefault(f: Field, slot: Slot) returns (r: bool)
    requires HoldsSlot(f, slot)
    ensures r == IsDefault(f, slot)
    decreases f
  {
    match f.htype {
      case Required => return false;
      case Optional => return !slot.has;
      case Repeated(_) => return |slot.items| == 0;
      case OneOf(_) => return slot.chosen.None?;
      case Singular =>
        if f.ltype.BytesT? || f.ltype.StringT? {
          return |slot.v.bytes| == 0;
        } else if f.ltype.FixedBytesT? {
          return f.ltype.size == 0;
        } else if f.ltype.SubmessageT? {
          assert Holds(f.ltype, slot.v);
          r := CheckAllDefault(f.ltype.fields, slot.v.slots);
          return;
        }
        return slot.v.n == 0;
    }
  }

  method CheckAllDefault(fields: seq<Field>, slots: seq<Slot>) returns (r: bool)
    requires HoldsAll(fields, slots)
    ensures r == AllDefault(fields, slots)
    decreases fields
  {
    for i := 0 to |fields|
      invariant forall k :: 0 <= k < i ==> IsDefault(fields[k], slots[k])
    {
      var d := CheckDefault(fields[i], slots[i]);
      if !d {
        return false;
      }
    }
    return true;
  }
}
