/**
 Decoding any bytes: what comes out fits the struct it is decoded into, and what the descriptor
 does not know is passed over.
 */
module PbBounds {
  import opened Bytes
  import opened PbDecode
  import opened PbEncode
  import opened PbIter
  import opened PbSchema
  import opened PbVarint

  // ----- what the struct has room for

  ghost predicate Sits(t: LType, v: Value)
    decreases t
  {
    match t
    case VarintT(size) => v.Num? && ValidSize(size) && FitsSigned(v.n, size)
    case SVarintT(size) => v.Num? && ValidSize(size) && FitsSigned(v.n, size)
    case UVarintT(size) => v.Num? && ValidSize(size) && FitsUnsigned(v.n, size)
    case Fixed32T => v.Num? && 0 <= v.n < TWO_32
    case Fixed64T => v.Num? && 0 <= v.n < TWO_64
    case BytesT(cap) => v.Blob? && |v.bytes| <= cap
    // A string leaves room for its terminator.
    case StringT(size) => v.Blob? && |v.bytes| < size && 0 !in v.bytes
    case FixedBytesT(size) => v.Blob? && |v.bytes| == size
    case SubmessageT(fields) => v.Msg? && AllSit(fields, v.slots)
  }

  ghost predicate SitsSlot(f: Field, s: Slot)
    decreases f
  {
    match f.htype
    case Required => s.One? && Sits(f.ltype, s.v)
    case Singular => s.One? && Sits(f.ltype, s.v)
    case Optional => s.Opt? && Sits(f.ltype, s.v)
    case Repeated(cap) => s.Rep? && |s.items| <= cap && forall k :: 0 <= k < |s.items| ==> Sits(f.ltype, s.items[k])
    case OneOf(_) => s.Alt? && (s.chosen.Some? ==> Sits(f.ltype, s.chosen.value))
  }

  /** Every part fits, and of each union at most one member is chosen. */
  ghost predicate AllSit(fields: seq<Field>, slots: seq<Slot>)
    decreases fields
  {
    && |slots| == |fields|
    && (forall i :: 0 <= i < |fields| ==> SitsSlot(fields[i], slots[i]))
    && (forall i, j :: 0 <= i < j < |fields| && SameUnion(fields[i], fields[j]) ==>
          Unchosen(slots[i]) || Unchosen(slots[j]))
  }

  /** The initial contents fit, at every depth. */
  ghost predicate StartsFit(fields: seq<Field>)
    decreases fields
  {
    AllSit(fields, Initial(fields)) && forall i :: 0 <= i < |fields| ==> SubStartsFit(fields[i])
  }

  ghost predicate SubStartsFit(f: Field)
    decreases f
  {
    f.ltype.SubmessageT? ==> StartsFit(f.ltype.fields)
  }

  // ----- decoding

  lemma CStringFits(b: seq<byte>)
    ensures |CString(b)| <= |b| && 0 !in CString(b)
  {
  }

  lemma ScalarSits(t: LType, input: seq<byte>)
    requires t.Packable() && DecScalar(t, input).Some?
    ensures Sits(t, DecScalar(t, input).value.0)
  {
    hide Varint64, SignedOf, UnZigZag, FromLittleEndian;
    if t.Fixed32T? {
      FixedBound(input[..4]);
    } else if t.Fixed64T? {
      FixedBound(input[..8]);
    }
  }

  lemma FixedBound(b: seq<byte>)
    requires |b| == 4 || |b| == 8
    ensures FromLittleEndian(b) < if |b| == 4 then TWO_32 else TWO_64
  {
    LittleEndianBound(b);
    assert Pow256(1) == 256 && Pow256(2) == 256 * Pow256(1) && Pow256(3) == 256 * Pow256(2);
    assert Pow256(4) == 256 * Pow256(3) && Pow256(5) == 256 * Pow256(4) && Pow256(6) == 256 * Pow256(5);
    assert Pow256(7) == 256 * Pow256(6) && Pow256(8) == 256 * Pow256(7);
  }

  lemma {:induction false} LittleEndianBound(b: seq<byte>)
    ensures FromLittleEndian(b) < Pow256(|b|)
  {
    if b != [] {
      LittleEndianBound(b[1..]);
    }
  }

  lemma {:induction false} ItemsSit(t: LType, cap: nat, items: seq<Value>, content: seq<byte>)
    requires t.Packable() && |items| <= cap && forall k :: 0 <= k < |items| ==> Sits(t, items[k])
    requires DecItems(t, cap, items, content).Some?
    ensures var r := DecItems(t, cap, items, content).value;
      |r| <= cap && forall k :: 0 <= k < |r| ==> Sits(t, r[k])
    decreases |content|
  {
    hide DecScalar, Sits;
    if content != [] {
      ScalarSits(t, content);
      var (v, rest) := DecScalar(t, content).value;
      ItemsSit(t, cap, items + [v], rest);
    }
  }

  /** A value fits its field, and a submessage what it was decoded over. */
  lemma {:induction false} ValueSits(t: LType, dest: Value, input: seq<byte>)
    requires DecValue(t, dest, input).Some?
    requires t.SubmessageT? ==> StartsFit(t.fields) && (dest.Msg? && |dest.slots| == |t.fields| ==> Sits(t, dest))
    ensures Sits(t, DecValue(t, dest, input).value.0)
    decreases t, 0
  {
    hide DecFrom, DecBlob, Split, DecScalar, Initial, AllSit;
    match t {
      case StringT(size) => CStringFits(DecBlob(input, size - 1).value.0);
      case SubmessageT(fields) =>
        var content, start := Split(input).value.0, Contents(fields, dest);
        assert AllSit(fields, start);
        FromSits(fields, content, start, {}, 0);
      case BytesT(_) =>
      case FixedBytesT(_) =>
      case _ => ScalarSits(t, input);
    }
  }

  lemma OneSits(f: Field, s: Slot, input: seq<byte>)
    requires DecOne(f, s, input).Some? && SitsSlot(f, s)
    requires f.ltype.SubmessageT? ==> StartsFit(f.ltype.fields)
    ensures Sits(f.ltype, DecOne(f, s, input).value.0)
    decreases f, 1
  {
    hide DecValue, Initial, AllSit;
    var dest := if !(f.htype.Repeated? || f.htype.OneOf?) then Dest(s)
                else if f.ltype.SubmessageT? then Msg(Initial(f.ltype.fields)) else Num(0);
    ValueSits(f.ltype, dest, input);
  }

  lemma ChosenSits(fields: seq<Field>, slots: seq<Slot>, i: nat, v: Value)
    requires AllSit(fields, slots) && i < |fields| && fields[i].htype.OneOf? && Sits(fields[i].ltype, v)
    ensures AllSit(fields, Choose(fields, slots, i, v))
  {
    hide Sits;
    var r := Choose(fields, slots, i, v);
    forall k | 0 <= k < |fields| ensures SitsSlot(fields[k], r[k]) {
      assert SitsSlot(fields[k], slots[k]);
    }
  }

  lemma PutSits(fields: seq<Field>, slots: seq<Slot>, i: nat, s: Slot)
    requires AllSit(fields, slots) && i < |fields| && !fields[i].htype.OneOf? && SitsSlot(fields[i], s)
    ensures AllSit(fields, slots[i := s])
  {
    hide SitsSlot;
  }

  lemma FieldSits(fields: seq<Field>, slots: seq<Slot>, i: nat, wireType: nat, input: seq<byte>)
    requires StartsFit(fields) && AllSit(fields, slots) && i < |fields| == |slots|
    requires DecField(fields, slots, i, wireType, input).Some?
    ensures AllSit(fields, DecField(fields, slots, i, wireType, input).value.0)
    decreases fields, 1
  {
    hide DecOne, DecItems, Split, Choose, Sits, AllSit, Initial;
    var f, s := fields[i], slots[i];
    SlotSits(fields, slots, i);
    assert SubStartsFit(f);
    if f.htype.Repeated? && wireType == WT_STRING && f.ltype.Packable() {
      var content := Split(input).value.0;
      ItemsSit(f.ltype, f.htype.cap, ItemsOf(s), content);
      PutSits(fields, slots, i, Rep(DecItems(f.ltype, f.htype.cap, ItemsOf(s), content).value));
    } else {
      OneSits(f, s, input);
      var v := DecOne(f, s, input).value.0;
      if f.htype.OneOf? {
        ChosenSits(fields, slots, i, v);
      } else {
        PutSits(fields, slots, i, if f.htype.Repeated? then Rep(ItemsOf(s) + [v])
                                  else if f.htype.Optional? then Opt(true, v) else One(v));
      }
    }
  }

  lemma SlotSits(fields: seq<Field>, slots: seq<Slot>, i: nat)
    requires AllSit(fields, slots) && i < |fields|
    ensures |slots| == |fields| && SitsSlot(fields[i], slots[i])
  {
  }

  lemma {:induction false} FromSits(fields: seq<Field>, input: seq<byte>, slots: seq<Slot>, seen: set<nat>, pos: nat)
    requires StartsFit(fields) && AllSit(fields, slots) && |slots| == |fields| && pos <= |fields|
    requires DecFrom(fields, input, slots, seen, pos).Some?
    ensures AllSit(fields, DecFrom(fields, input, slots, seen, pos).value.0)
    decreases fields, 2, |input|
  {
    hide DecTag, DecField, Find, Skip, AllSit, AllRequired, StartsFit;
    if input != [] && DecTag(input).Tagged? {
      var t := DecTag(input);
      match Find(fields, pos, t.tag) {
        case None => FromSits(fields, Skip(t.rest, t.wireType).value, slots, seen, pos);
        case Some(i) =>
          FieldSits(fields, slots, i, t.wireType, t.rest);
          var (next, rest) := DecField(fields, slots, i, t.wireType, t.rest).value;
          FromSits(fields, rest, next, seen + {i}, i);
      }
    }
  }

  /**
   Whatever the bytes: if they decode at all, every array is within its capacity, every number in
   its range, every string terminated, and of each union one member is chosen at most.
   */
  lemma DecodedFits(fields: seq<Field>, input: seq<byte>)
    requires StartsFit(fields) && Decode(fields, input).Some?
    ensures AllSit(fields, Decode(fields, input).value.0)
  {
    FromSits(fields, input, Initial(fields), {}, 0);
  }

  // ----- unknown fields

  /** A field that the descriptor does not know is passed over by its wire type, and nothing else changes. */
  lemma UnknownIsSkipped(fields: seq<Field>, tag: nat, wireType: nat, body: seq<byte>, rest: seq<byte>,
                         slots: seq<Slot>, seen: set<nat>, pos: nat)
    requires |slots| == |fields| && pos <= |fields| && Find(fields, pos, tag).None?
    requires 1 <= tag < 0x2000_0000 && wireType < 8 && Skip(body + rest, wireType) == Some(rest)
    ensures DecFrom(fields, Tag(tag, wireType) + body + rest, slots, seen, pos)
         == DecFrom(fields, rest, slots, seen, pos)
  {
    hide DecField, Varint32, Find, Varint, Skip;
    var n := tag * 8 + wireType;
    var input := Varint(n) + (body + rest);
    assert Tag(tag, wireType) + body + rest == input;
    Varint32RoundTrip(n, body + rest);
    assert DecTag(input) == Tagged(tag, wireType, body + rest);
  }
}
