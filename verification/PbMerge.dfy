/**
 Fields that come more than once, as other encoders may send them: the last value wins, the last
 member of a union wins, array items add up, and it does not matter whether they are packed.
 */
module PbMerge {
  import opened Bytes
  import opened PbDecode
  import opened PbEncode
  import opened PbIter
  import opened PbRoundTrip
  import opened PbSchema
  import opened PbVarint

  /** A value of a field that is no message, as a reader gets to see it. */
  ghost predicate Readable(f: Field, v: Value) {
    && 1 <= f.tag < 0x2000_0000 && !f.ltype.SubmessageT?
    && WellFormedType(f.ltype) && Holds(f.ltype, v) && Terminated(f.ltype, v)
    && EncValue(f.ltype, v).Some? && |EncValue(f.ltype, v).value| < TWO_32
  }

  /** A field's tag and one value. */
  function Copy(f: Field, v: Value): seq<byte>
    requires EncValue(f.ltype, v).Some?
  {
    Tag(f.tag, f.ltype.WireType()) + EncValue(f.ltype, v).value
  }

  lemma CopyIsRead(f: Field, s: Slot, v: Value, rest: seq<byte>)
    requires Readable(f, v)
    ensures DecOne(f, s, EncValue(f.ltype, v).value + rest) == Some((v, rest))
  {
    hide DecValue, EncValue, Holds, Terminated, Restored, WellFormedType;
    var dest := if !(f.htype.Repeated? || f.htype.OneOf?) then Dest(s) else Num(0);
    ValueRoundTrip(f.ltype, v, dest, rest);
    RestoredPlain(f.ltype, v);
  }

  // =====================================================================
  // Single values
  // =====================================================================

  function Single(f: Field, v: Value): Slot { if f.htype.Optional? then Opt(true, v) else One(v) }

  /** Whatever the field held, it holds the value now, and no other field differs. */
  lemma ValueIsTaken(fields: seq<Field>, slots: seq<Slot>, i: nat, v: Value, rest: seq<byte>, seen: set<nat>, pos: nat)
    requires DistinctTags(fields) && |slots| == |fields| && i < |fields| && pos <= |fields| && Readable(fields[i], v)
    requires fields[i].htype.Required? || fields[i].htype.Optional? || fields[i].htype.Singular?
    ensures DecFrom(fields, Copy(fields[i], v) + rest, slots, seen, pos)
         == DecFrom(fields, rest, slots[i := Single(fields[i], v)], seen + {i}, i)
  {
    hide DecFrom, EncValue, DecOne, Tag, DistinctTags;
    var f := fields[i];
    CopyIsRead(f, slots[i], v, rest);
    OneTag(fields, i, f.ltype.WireType(), EncValue(f.ltype, v).value, slots, slots[i := Single(f, v)], seen, pos, rest);
  }

  /** Of two copies of a field only the second counts. */
  lemma LastOneWins(fields: seq<Field>, slots: seq<Slot>, i: nat, v: Value, w: Value, rest: seq<byte>,
                    seen: set<nat>, pos: nat)
    requires DistinctTags(fields) && |slots| == |fields| && i < |fields| && pos <= |fields|
    requires Readable(fields[i], v) && Readable(fields[i], w)
    requires fields[i].htype.Required? || fields[i].htype.Optional? || fields[i].htype.Singular?
    ensures DecFrom(fields, Copy(fields[i], v) + (Copy(fields[i], w) + rest), slots, seen, pos)
         == DecFrom(fields, Copy(fields[i], w) + rest, slots, seen, pos)
  {
    hide DecFrom, DistinctTags, WellFormedType, Holds, Terminated, EncValue, Tag;
    var one := slots[i := Single(fields[i], v)];
    ValueIsTaken(fields, slots, i, v, Copy(fields[i], w) + rest, seen, pos);
    ValueIsTaken(fields, one, i, w, rest, seen + {i}, i);
    ValueIsTaken(fields, slots, i, w, rest, seen, pos);
    assert one[i := Single(fields[i], w)] == slots[i := Single(fields[i], w)];
    assert seen + {i} + {i} == seen + {i};
  }

  // =====================================================================
  // Unions
  // =====================================================================

  /** The member that came is chosen, the others of its union are not, and all other fields are as they were. */
  ghost predicate Chose(fields: seq<Field>, slots: seq<Slot>, i: nat, v: Value, r: seq<Slot>)
    requires |slots| == |fields| == |r| && i < |fields|
  {
    && r[i] == Alt(Some(v))
    && forall k :: 0 <= k < |fields| && k != i ==>
         r[k] == if SameUnion(fields[i], fields[k]) then Alt(None) else slots[k]
  }

  lemma MemberIsTaken(fields: seq<Field>, slots: seq<Slot>, i: nat, v: Value, rest: seq<byte>, seen: set<nat>, pos: nat)
    returns (r: seq<Slot>)
    requires DistinctTags(fields) && |slots| == |fields| && i < |fields| && pos <= |fields| && Readable(fields[i], v)
    requires fields[i].htype.OneOf?
    ensures |r| == |fields| && Chose(fields, slots, i, v, r)
    ensures DecFrom(fields, Copy(fields[i], v) + rest, slots, seen, pos) == DecFrom(fields, rest, r, seen + {i}, i)
  {
    hide DecFrom, EncValue, DecOne, Tag, DistinctTags;
    var f := fields[i];
    CopyIsRead(f, slots[i], v, rest);
    r := Choose(fields, slots, i, v);
    OneTag(fields, i, f.ltype.WireType(), EncValue(f.ltype, v).value, slots, r, seen, pos, rest);
  }

  /** Of two members of a union, in either order of the descriptor, the one that comes last is the one chosen. */
  lemma LastMemberWins(fields: seq<Field>, slots: seq<Slot>, i: nat, j: nat, v: Value, w: Value, rest: seq<byte>,
                       seen: set<nat>, pos: nat) returns (r: seq<Slot>)
    requires DistinctTags(fields) && |slots| == |fields| && i < |fields| && j < |fields| && pos <= |fields|
    requires Readable(fields[i], v) && Readable(fields[j], w) && SameUnion(fields[i], fields[j])
    ensures |r| == |fields| && Chose(fields, slots, j, w, r)
    ensures DecFrom(fields, Copy(fields[i], v) + (Copy(fields[j], w) + rest), slots, seen, pos)
         == DecFrom(fields, rest, r, seen + {i} + {j}, j)
  {
    hide DecFrom, DistinctTags, WellFormedType, Holds, Terminated, EncValue, Tag;
    var one := MemberIsTaken(fields, slots, i, v, Copy(fields[j], w) + rest, seen, pos);
    r := MemberIsTaken(fields, one, j, w, rest, seen + {i}, i);
  }

  // =====================================================================
  // Arrays
  // =====================================================================

  lemma ItemIsTaken(fields: seq<Field>, slots: seq<Slot>, i: nat, v: Value, rest: seq<byte>, seen: set<nat>, pos: nat)
    requires DistinctTags(fields) && |slots| == |fields| && i < |fields| && pos <= |fields| && Readable(fields[i], v)
    requires fields[i].htype.Repeated? && slots[i].Rep? && |slots[i].items| < fields[i].htype.cap
    ensures DecFrom(fields, Copy(fields[i], v) + rest, slots, seen, pos)
         == DecFrom(fields, rest, slots[i := Rep(slots[i].items + [v])], seen + {i}, i)
  {
    hide DecFrom, EncValue, DecOne, Tag, DistinctTags;
    var f := fields[i];
    CopyIsRead(f, slots[i], v, rest);
    OneTag(fields, i, f.ltype.WireType(), EncValue(f.ltype, v).value, slots,
           slots[i := Rep(slots[i].items + [v])], seen, pos, rest);
  }

  /** Items with a tag each add to what the array held, as long as there is room. */
  lemma {:induction false} ItemsAreTaken(fields: seq<Field>, slots: seq<Slot>, i: nat, items: seq<Value>, n: nat,
                                         rest: seq<byte>, seen: set<nat>, pos: nat)
    requires DistinctTags(fields) && |slots| == |fields| && i < |fields| && pos <= |fields|
    requires fields[i].htype.Repeated? && slots[i].Rep?
    requires 1 <= n <= |items| && |slots[i].items| + n <= fields[i].htype.cap
    requires forall k :: 0 <= k < |items| ==> Readable(fields[i], items[k])
    ensures var e := EncItems(Tag(fields[i].tag, fields[i].ltype.WireType()), fields[i].ltype, items, n);
      e.Some? && DecFrom(fields, e.value + rest, slots, seen, pos)
              == DecFrom(fields, rest, slots[i := Rep(slots[i].items + items[..n])], seen + {i}, i)
  {
    hide DecFrom, EncValue, DistinctTags, Tag;
    var f, v := fields[i], items[n - 1];
    var tag := Tag(f.tag, f.ltype.WireType());
    assert Readable(f, v);
    var last := Copy(f, v);
    if n == 1 {
      assert EncItems(tag, f.ltype, items, 0) == Some([]);
      assert [] + last == last && items[..1] == [v];
      ItemIsTaken(fields, slots, i, v, rest, seen, pos);
    } else {
      ItemsAreTaken(fields, slots, i, items, n - 1, last + rest, seen, pos);
      var before := EncItems(tag, f.ltype, items, n - 1).value;
      assert before + last + rest == before + (last + rest);
      var some_ := slots[i := Rep(slots[i].items + items[..n - 1])];
      ItemIsTaken(fields, some_, i, v, rest, seen + {i}, i);
      assert slots[i].items + items[..n - 1] + [v] == slots[i].items + items[..n];
      assert some_[i := Rep(slots[i].items + items[..n])] == slots[i := Rep(slots[i].items + items[..n])];
      assert seen + {i} + {i} == seen + {i};
    }
  }

  lemma {:induction false} ItemsAdd(t: LType, items: seq<Value>, n: nat, cap: nat, done: seq<Value>, tail: seq<byte>)
    requires t.Packable() && WellFormedType(t) && n <= |items| && |done| + n <= cap
    requires forall k :: 0 <= k < |items| ==> Holds(t, items[k])
    ensures EncItems([], t, items, n).Some?
    ensures DecItems(t, cap, done, EncItems([], t, items, n).value + tail) == DecItems(t, cap, done + items[..n], tail)
  {
    hide DecItems, DecScalar, EncValue, Holds;
    if n == 0 {
      assert [] + tail == tail && done + items[..0] == done;
    } else {
      var v := items[n - 1];
      ScalarRoundTrip(t, v, tail);
      var e := EncValue(t, v).value;
      ItemsAdd(t, items, n - 1, cap, done, e + tail);
      var before := EncItems([], t, items, n - 1).value;
      assert EncItems([], t, items, n).value == before + ([] + e);
      assert before + ([] + e) + tail == before + (e + tail);
      DecItemsOne(t, cap, done + items[..n - 1], e + tail, v, tail);
      assert done + items[..n - 1] + [v] == done + items[..n];
    }
  }

  /** The same items in one packed entry. */
  function Packed(f: Field, items: seq<Value>): Option<seq<byte>> {
    Cat(Some(Tag(f.tag, WT_STRING)), Delimited(EncItems([], f.ltype, items, |items|)))
  }

  lemma PackedIsTaken(fields: seq<Field>, slots: seq<Slot>, i: nat, items: seq<Value>, rest: seq<byte>,
                      seen: set<nat>, pos: nat)
    requires DistinctTags(fields) && |slots| == |fields| && i < |fields| && pos <= |fields|
    requires fields[i].htype.Repeated? && fields[i].ltype.Packable() && slots[i].Rep?
    requires |slots[i].items| + |items| <= fields[i].htype.cap
    requires 1 <= fields[i].tag < 0x2000_0000 && WellFormedType(fields[i].ltype)
    requires forall k :: 0 <= k < |items| ==> Holds(fields[i].ltype, items[k])
    requires Packed(fields[i], items).Some? && |Packed(fields[i], items).value| < TWO_32
    ensures DecFrom(fields, Packed(fields[i], items).value + rest, slots, seen, pos)
         == DecFrom(fields, rest, slots[i := Rep(slots[i].items + items)], seen + {i}, i)
  {
    hide DecFrom, Tag, DistinctTags, EncItems, Split, DecItems, Varint, Holds;
    var f, next := fields[i], slots[i := Rep(slots[i].items + items)];
    ItemsAdd(f.ltype, items, |items|, f.htype.cap, slots[i].items, []);
    AllDecoded(f.ltype, f.htype.cap, slots[i].items + items);
    var e := EncItems([], f.ltype, items, |items|).value;
    assert e + [] == e && items[..|items|] == items;
    SplitDelimited(e, rest);
    assert DecField(fields, slots, i, WT_STRING, Varint(|e|) + e + rest) == Some((next, rest));
    assert Tag(f.tag, WT_STRING) + (Varint(|e|) + e) + rest == Packed(f, items).value + rest;
    OneTag(fields, i, WT_STRING, Varint(|e|) + e, slots, next, seen, pos, rest);
  }

  /** A packable array is decoded the same whether its items are packed or carry a tag each. */
  lemma PackedOrNot(fields: seq<Field>, slots: seq<Slot>, i: nat, items: seq<Value>, rest: seq<byte>,
                    seen: set<nat>, pos: nat)
    requires DistinctTags(fields) && |slots| == |fields| && i < |fields| && pos <= |fields|
    requires fields[i].htype.Repeated? && fields[i].ltype.Packable() && slots[i].Rep?
    requires items != [] && |slots[i].items| + |items| <= fields[i].htype.cap
    requires forall k :: 0 <= k < |items| ==> Readable(fields[i], items[k])
    requires Packed(fields[i], items).Some? && |Packed(fields[i], items).value| < TWO_32
    ensures var e := EncItems(Tag(fields[i].tag, fields[i].ltype.WireType()), fields[i].ltype, items, |items|);
      e.Some? && DecFrom(fields, e.value + rest, slots, seen, pos)
              == DecFrom(fields, Packed(fields[i], items).value + rest, slots, seen, pos)
  {
    hide DecFrom, Tag, DistinctTags, EncItems, Packed, EncValue;
    assert Readable(fields[i], items[0]);
    ItemsAreTaken(fields, slots, i, items, |items|, rest, seen, pos);
    assert items[..|items|] == items;
    PackedIsTaken(fields, slots, i, items, rest, seen, pos);
  }

  /** An array that is full takes no more, packed or not. */
  lemma FullArrayRefuses(fields: seq<Field>, slots: seq<Slot>, i: nat, v: Value, rest: seq<byte>,
                         seen: set<nat>, pos: nat)
    requires DistinctTags(fields) && |slots| == |fields| && i < |fields| && pos <= |fields| && Readable(fields[i], v)
    requires fields[i].htype.Repeated? && slots[i].Rep? && |slots[i].items| >= fields[i].htype.cap
    ensures DecFrom(fields, Copy(fields[i], v) + rest, slots, seen, pos).None?
    ensures fields[i].ltype.Packable() && Packed(fields[i], [v]).Some? && |Packed(fields[i], [v]).value| < TWO_32 ==>
      DecFrom(fields, Packed(fields[i], [v]).value + rest, slots, seen, pos).None?
  {
    hide DecFrom, EncValue, Tag, DistinctTags, Split, Varint, DecScalar;
    var f := fields[i];
    OneTagRefused(fields, i, f.ltype.WireType(), EncValue(f.ltype, v).value, slots, seen, pos, rest);
    if f.ltype.Packable() && Packed(f, [v]).Some? && |Packed(f, [v]).value| < TWO_32 {
      var e := EncItems([], f.ltype, [v], 1).value;
      ScalarRoundTrip(f.ltype, v, []);
      assert e == [] + ([] + EncValue(f.ltype, v).value) && e != [];
      SplitDelimited(e, rest);
      assert Tag(f.tag, WT_STRING) + (Varint(|e|) + e) + rest == Packed(f, [v]).value + rest;
      OneTagRefused(fields, i, WT_STRING, Varint(|e|) + e, slots, seen, pos, rest);
    }
  }

  // =====================================================================
  // Messages inside, and the end
  // =====================================================================

  /** A second copy of a message inside adds to the first: with nothing in it, it leaves everything as it was. */
  lemma EmptyCopyKeeps(fields: seq<Field>, slots: seq<Slot>, i: nat, inner: seq<Slot>, rest: seq<byte>,
                       seen: set<nat>, pos: nat)
    requires DistinctTags(fields) && |slots| == |fields| && i < |fields| && pos <= |fields|
    requires 1 <= fields[i].tag < 0x2000_0000 && fields[i].ltype.SubmessageT?
    requires |inner| == |fields[i].ltype.fields| && slots[i] == Single(fields[i], Msg(inner))
    requires fields[i].htype.Required? || fields[i].htype.Optional? || fields[i].htype.Singular?
    requires forall k :: 0 <= k < |fields[i].ltype.fields| ==> !fields[i].ltype.fields[k].htype.Required?
    ensures DecFrom(fields, Tag(fields[i].tag, WT_STRING) + [0] + rest, slots, seen, pos)
         == DecFrom(fields, rest, slots, seen + {i}, i)
  {
    hide Tag, DistinctTags, DecFrom, DecValue;
    var f := fields[i];
    EmptyInside(f.ltype.fields, inner, rest);
    assert slots[i := Single(f, Msg(inner))] == slots;
    assert DecField(fields, slots, i, WT_STRING, [0] + rest) == Some((slots, rest));
    OneTag(fields, i, WT_STRING, [0], slots, slots, seen, pos, rest);
  }

  lemma EmptyInside(fields: seq<Field>, inner: seq<Slot>, rest: seq<byte>)
    requires |inner| == |fields| && forall k :: 0 <= k < |fields| ==> !fields[k].htype.Required?
    ensures DecValue(SubmessageT(fields), Msg(inner), [0] + rest) == Some((Msg(inner), rest))
  {
    hide Varint32;
    assert Split([0] + rest) == Some(([], rest)) by {
      SplitDelimited([], rest);
      assert Varint(0) + [] + rest == [0] + rest;
    }
    assert DecFrom(fields, [], inner, {}, 0) == Some((inner, []));
  }

  /** A zero tag ends the message, whatever follows. */
  lemma ZeroTagEnds(fields: seq<Field>, slots: seq<Slot>, rest: seq<byte>, seen: set<nat>, pos: nat)
    requires |slots| == |fields| && pos <= |fields|
    ensures DecFrom(fields, [0] + rest, slots, seen, pos)
         == if DecFrom(fields, [], slots, seen, pos).Some? then Some((slots, rest)) else None
  {
    assert ([0] + rest)[1..] == rest;
    assert DecTag([0] + rest) == EndOfMessage(rest);
  }

  /** A field without a value: its initial value, and nothing present. */
  ghost predicate Unset(f: Field, s: Slot) {
    match s
    case Rep(items) => f.htype.Repeated? && items == []
    case Alt(chosen) => f.htype.OneOf? && chosen.None?
    case Opt(has, v) => f.htype.Optional? && !has && (f.ltype.SubmessageT? || v == f.init)
    case One(v) => (f.htype.Required? || f.htype.Singular?) && (f.ltype.SubmessageT? || v == f.init)
  }

  /** A message of no bytes has nothing set. */
  lemma NoBytesSetNothing(fields: seq<Field>)
    requires forall k :: 0 <= k < |fields| ==> !fields[k].htype.Required?
    ensures Decode(fields, []).Some?
    ensures forall k :: 0 <= k < |fields| ==> Unset(fields[k], Decode(fields, []).value.0[k])
  {
    assert Decode(fields, []) == Some((Initial(fields), []));
    forall k | 0 <= k < |fields| ensures Unset(fields[k], Initial(fields)[k]) {
      InitialIsUnset(fields[k]);
    }
  }

  lemma InitialIsUnset(f: Field)
    ensures Unset(f, InitialSlot(f))
  {
  }

  /** Bytes of a fixed length may come as none at all, and are zeros then. */
  lemma NoFixedBytesAreZeros(size: nat, dest: Value, rest: seq<byte>)
    ensures DecValue(FixedBytesT(size), dest, [0] + rest) == Some((Blob(seq(size, i => 0)), rest))
  {
    AllZero(size);
    assert Varint32([0] + rest) == Some((0, rest)) by {
      assert ([0] + rest)[1..] == rest;
    }
    assert rest[..0] == [];
  }

  lemma {:induction false} AllZero(n: nat)
    ensures ZeroBytes(n) == seq(n, i => 0)
  {
    if n > 0 {
      AllZero(n - 1);
      assert seq(n, i => 0 as byte) == [0] + seq(n - 1, i => 0 as byte);
    }
  }
}
