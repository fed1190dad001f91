/**
 nanopb message descriptors and the messages they describe (pb.h): field types, repetition
 rules, stored values, and what a message looks like before anything is decoded into it.
 */
module PbSchema {
  import opened Bytes
  import opened PbVarint

  /** The largest pb_size_t: the build sets PB_FIELD_32BIT. */
  const PB_SIZE_MAX: nat := 0xffff_ffff
  const PB_MAX_REQUIRED_FIELDS: nat := 64

  const WT_VARINT: nat := 0
  const WT_64BIT: nat := 1
  const WT_STRING: nat := 2
  const WT_32BIT: nat := 5

  datatype LType =
    | VarintT(size: nat)
    | UVarintT(size: nat)
    | SVarintT(size: nat)
    | Fixed32T
    | Fixed64T
    | BytesT(cap: nat)
    | StringT(size: nat)
    | SubmessageT(fields: seq<Field>)
    | FixedBytesT(size: nat)
  {
    /** LTYPE up to LAST_PACKABLE. */
    predicate Packable() {
      VarintT? || UVarintT? || SVarintT? || Fixed32T? || Fixed64T?
    }

    function WireType(): nat {
      if VarintT? || UVarintT? || SVarintT? then WT_VARINT
      else if Fixed32T? then WT_32BIT
      else if Fixed64T? then WT_64BIT
      else WT_STRING
    }
  }

  /** Optional has a has_ flag; Singular is proto3's, without one. */
  datatype HType = Required | Optional | Singular | Repeated(cap: nat) | OneOf(group: nat)

  /**
   Where the field lies in the struct: `dataOffset` after the end of the previous field, its
   count or flag at `sizeOffset` from its data, and the size of one item.
   */
  datatype Layout = Layout(dataOffset: nat, sizeOffset: int, dataSize: nat)

  datatype Field = Field(tag: nat, htype: HType, ltype: LType, init: Value, layout: Layout)

  datatype Value = Num(n: int) | Blob(bytes: seq<byte>) | Msg(slots: seq<Slot>)

  /** The part of the struct that belongs to one field. */
  datatype Slot = One(v: Value) | Opt(has: bool, v: Value) | Rep(items: seq<Value>) | Alt(chosen: Option<Value>)

  predicate ValidSize(size: nat) {
    size == 1 || size == 2 || size == 4 || size == 8
  }

  // ----- what the C types can hold

  ghost predicate Holds(t: LType, v: Value)
    decreases t
  {
    match t
    case VarintT(size) => v.Num? && FitsSigned(v.n, if ValidSize(size) then size else 8)
    case SVarintT(size) => v.Num? && FitsSigned(v.n, if ValidSize(size) then size else 8)
    case UVarintT(size) => v.Num? && FitsUnsigned(v.n, if ValidSize(size) then size else 8)
    case Fixed32T => v.Num? && 0 <= v.n < TWO_32
    case Fixed64T => v.Num? && 0 <= v.n < TWO_64
    case BytesT(_) => v.Blob? && |v.bytes| <= PB_SIZE_MAX
    case StringT(size) => v.Blob? && |v.bytes| <= size && 0 !in v.bytes
    case FixedBytesT(size) => v.Blob? && |v.bytes| == size
    case SubmessageT(fields) => v.Msg? && HoldsAll(fields, v.slots)
  }

  ghost predicate HoldsSlot(f: Field, s: Slot)
    decreases f
  {
    match f.htype
    case Required => s.One? && Holds(f.ltype, s.v)
    case Singular => s.One? && Holds(f.ltype, s.v)
    case Optional => s.Opt? && Holds(f.ltype, s.v)
    case Repeated(_) => s.Rep? && forall k :: 0 <= k < |s.items| ==> Holds(f.ltype, s.items[k])
    case OneOf(_) => s.Alt? && (s.chosen.Some? ==> Holds(f.ltype, s.chosen.value))
  }

  ghost predicate HoldsAll(fields: seq<Field>, slots: seq<Slot>)
    decreases fields
  {
    && |slots| == |fields|
    && (forall i :: 0 <= i < |fields| ==> HoldsSlot(fields[i], slots[i]))
    && (forall i, j :: 0 <= i < j < |fields| && SameUnion(fields[i], fields[j]) ==>
          Unchosen(slots[i]) || Unchosen(slots[j]))
  }

  predicate SameUnion(f: Field, g: Field) {
    f.htype.OneOf? && g.htype.OneOf? && f.htype.group == g.htype.group
  }

  predicate Unchosen(s: Slot) {
    s.Alt? ==> s.chosen.None?
  }

  // ----- initial contents

  /** pb_field_set_to_default: the initial value, or the submessage's initial contents. */
  function InitialValue(f: Field): Value
    decreases f, 0
  {
    if f.ltype.SubmessageT? then Msg(Initial(f.ltype.fields)) else f.init
  }

  function InitialSlot(f: Field): Slot
    decreases f, 1
  {
    match f.htype
    case Required => One(InitialValue(f))
    case Singular => One(InitialValue(f))
    case Optional => Opt(false, InitialValue(f))
    case Repeated(_) => Rep([])
    case OneOf(_) => Alt(None)
  }

  /** pb_message_set_to_defaults. */
  function Initial(fields: seq<Field>): (slots: seq<Slot>)
    ensures |slots| == |fields|
    ensures forall i :: 0 <= i < |fields| ==> slots[i] == InitialSlot(fields[i])
    decreases fields
  {
    if fields == [] then []
    else Initial(fields[..|fields| - 1]) + [InitialSlot(fields[|fields| - 1])]
  }

  // ----- proto3 presence

  /** pb_check_proto3_default_value: nothing need be sent. */
  predicate IsDefault(f: Field, s: Slot)
    decreases f
  {
    match f.htype
    case Required => false
    case Optional => s.Opt? && !s.has
    case Repeated(_) => s.Rep? && s.items == []
    case OneOf(_) => s.Alt? && s.chosen.None?
    case Singular => s.One? && IsZero(f.ltype, s.v)
  }

  predicate IsZero(t: LType, v: Value)
    decreases t
  {
    match t
    case BytesT(_) => v.Blob? && v.bytes == []
    case StringT(_) => v.Blob? && v.bytes == []
    case FixedBytesT(size) => size == 0
    case SubmessageT(fields) => v.Msg? && |v.slots| == |fields| && AllDefault(fields, v.slots)
    case _ => v.Num? && v.n == 0
  }

  predicate AllDefault(fields: seq<Field>, slots: seq<Slot>)
    requires |fields| == |slots|
    decreases fields
  {
    forall i :: 0 <= i < |fields| ==> IsDefault(fields[i], slots[i])
  }

  // ----- what descriptors can hold

  /** A tag, with its wire type, is a 32-bit number on the wire. */
  predicate TagFits(f: Field)
    decreases f
  {
    1 <= f.tag < 0x2000_0000 && (f.ltype.SubmessageT? ==> TagsFit(f.ltype.fields))
  }

  predicate TagsFit(fields: seq<Field>)
    decreases fields
  {
    forall i :: 0 <= i < |fields| ==> TagFits(fields[i])
  }
}
