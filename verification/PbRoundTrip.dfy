/** Decoding what was encoded gives back the message: presence, counts and values. */
module PbRoundTrip {
  import opened Bytes
  import opened PbDecode
  import opened PbEncode
  import opened PbIter
  import opened PbSchema
  import opened PbVarint

  // =====================================================================
  // Descriptors and messages
  // =====================================================================

  /** What the generator guarantees of a descriptor. */
  ghost predicate WellFormed(fields: seq<Field>)
    decreases fields
  {
    DistinctTags(fields) && TagsFit(fields) && forall i :: 0 <= i < |fields| ==> WellFormedField(fields[i])
  }

  ghost predicate WellFormedField(f: Field)
    decreases f
  {
    && WellFormedType(f.ltype)
    // A field without presence has no initial value of its own.
    && (f.htype.Singular? && !f.ltype.SubmessageT? && !f.ltype.FixedBytesT? ==> IsZero(f.ltype, f.init))
    && (f.htype.Singular? && f.ltype.FixedBytesT? ==> f.ltype.size > 0)
  }

  ghost predicate WellFormedType(t: LType)
    decreases t
  {
    match t
    case VarintT(size) => ValidSize(size)
    case UVarintT(size) => ValidSize(size)
    case SVarintT(size) => ValidSize(size)
    case BytesT(cap) => cap <= PB_SIZE_MAX
    case FixedBytesT(size) => size <= PB_SIZE_MAX
    case SubmessageT(fields) => WellFormed(fields)
    case _ => true
  }

  /** Every string has room for its terminator. */
  ghost predicate Terminated(t: LType, v: Value)
    decreases t
  {
    match t
    case StringT(size) => v.Blob? && |v.bytes| < size
    case SubmessageT(fields) => v.Msg? && |v.slots| == |fields| && AllTerminated(fields, v.slots)
    case _ => true
  }

  ghost predicate TerminatedSlot(f: Field, s: Slot)
    decreases f
  {
    match s
    case One(v) => (f.htype.Singular? && IsDefault(f, s)) || Terminated(f.ltype, v)
    case Opt(has, v) => has ==> Terminated(f.ltype, v)
    case Rep(items) => forall k :: 0 <= k < |items| ==> Terminated(f.ltype, items[k])
    case Alt(chosen) => chosen.Some? ==> Terminated(f.ltype, chosen.value)
  }

  ghost predicate AllTerminated(fields: seq<Field>, slots: seq<Slot>)
    requires |fields| == |slots|
    decreases fields
  {
    forall i :: 0 <= i < |fields| ==> TerminatedSlot(fields[i], slots[i])
  }

  // =====================================================================
  // What comes back
  // =====================================================================

  /** The value with everything absent reset to its initial contents. */
  ghost function Restored(t: LType, v: Value): Value
    decreases t
  {
    if t.SubmessageT? && v.Msg? && |v.slots| == |t.fields| then Msg(RestoredAll(t.fields, v.slots)) else v
  }

  ghost function RestoredSlot(f: Field, s: Slot): Slot
    decreases f
  {
    match s
    case One(v) =>
      if f.htype.Singular? && IsDefault(f, s) then InitialSlot(f) else One(Restored(f.ltype, v))
    case Opt(has, v) => if has then Opt(true, Restored(f.ltype, v)) else InitialSlot(f)
    case Rep(items) => Rep(seq(|items|, k requires 0 <= k < |items| => Restored(f.ltype, items[k])))
    case Alt(chosen) => Alt(if chosen.Some? then Some(Restored(f.ltype, chosen.value)) else None)
  }

  ghost function RestoredAll(fields: seq<Field>, slots: seq<Slot>): (r: seq<Slot>)
    requires |fields| == |slots|
    ensures |r| == |fields|
    decreases fields
  {
    seq(|fields|, i requires 0 <= i < |fields| => RestoredSlot(fields[i], slots[i]))
  }

  /** Same presence, same counts, same values where present. */
  ghost predicate Same(t: LType, v: Value, w: Value)
    decreases t
  {
    if t.SubmessageT? then
      && v.Msg? && w.Msg? && |v.slots| == |w.slots| == |t.fields|
      && SameAll(t.fields, v.slots, w.slots)
    else v == w
  }

  ghost predicate SameSlot(f: Field, s: Slot, r: Slot)
    decreases f
  {
    match (s, r)
    case (One(v), One(w)) => Same(f.ltype, v, w)
    case (Opt(has, v), Opt(has', w)) => has == has' && (has ==> Same(f.ltype, v, w))
    case (Rep(vs), Rep(ws)) =>
      |vs| == |ws| && forall k :: 0 <= k < |vs| ==> Same(f.ltype, vs[k], ws[k])
    case (Alt(c), Alt(d)) => c.Some? == d.Some? && (c.Some? ==> Same(f.ltype, c.value, d.value))
    case _ => false
  }

  ghost predicate SameAll(fields: seq<Field>, slots: seq<Slot>, slots': seq<Slot>)
    requires |fields| == |slots| == |slots'|
    decreases fields
  {
    forall i :: 0 <= i < |fields| ==> SameSlot(fields[i], slots[i], slots'[i])
  }

  /** Restoring keeps everything that is there. */
  lemma {:induction false} RestoredIsSame(t: LType, v: Value)
    requires WellFormedType(t) && Holds(t, v)
    ensures Same(t, v, Restored(t, v))
    decreases t
  {
    if t.SubmessageT? {
      forall i | 0 <= i < |t.fields|
        ensures SameSlot(t.fields[i], v.slots[i], RestoredSlot(t.fields[i], v.slots[i]))
      {
        RestoredSlotIsSame(t.fields[i], v.slots[i]);
      }
    }
  }

  lemma {:induction false} RestoredSlotIsSame(f: Field, s: Slot)
    requires WellFormedField(f) && HoldsSlot(f, s)
    ensures SameSlot(f, s, RestoredSlot(f, s))
    decreases f
  {
    match s {
      case One(v) =>
        if f.htype.Singular? && IsDefault(f, s) {
          ZeroIsInitial(f, v);
        } else {
          RestoredIsSame(f.ltype, v);
        }
      case Opt(has, v) => if has { RestoredIsSame(f.ltype, v); }
      case Rep(items) =>
        forall k | 0 <= k < |items| ensures Same(f.ltype, items[k], Restored(f.ltype, items[k])) {
          RestoredIsSame(f.ltype, items[k]);
        }
      case Alt(chosen) => if chosen.Some? { RestoredIsSame(f.ltype, chosen.value); }
    }
  }

  /** A value that counts as zero is the same as the initial one. */
  lemma {:induction false} ZeroIsInitial(f: Field, v: Value)
    requires WellFormedField(f) && f.htype.Singular? && IsZero(f.ltype, v)
    ensures Same(f.ltype, v, InitialValue(f))
    decreases f
  {
    if f.ltype.SubmessageT? {
      var sub := f.ltype.fields;
      forall i | 0 <= i < |sub| ensures SameSlot(sub[i], v.slots[i], InitialSlot(sub[i])) {
        assert IsDefault(sub[i], v.slots[i]);
        assert WellFormedType(f.ltype) && WellFormed(sub) && WellFormedField(sub[i]);
        if sub[i].htype.Singular? {
          ZeroIsInitial(sub[i], v.slots[i].v);
        }
      }
    }
  }

  // =====================================================================
  // Single values
  // =====================================================================

  lemma {:induction false} NoZeroInside(b: seq<byte>)
    requires 0 !in b
    ensures CString(b) == b
  {
    if b != [] {
      assert b[0] in b;
      forall x | x in b[1..] ensures x in b {
      }
      NoZeroInside(b[1..]);
      assert b == [b[0]] + b[1..];
    }
  }

  lemma TakeFront(b: seq<byte>, rest: seq<byte>)
    ensures Take(b + rest, |b|) == Some((b, rest))
  {
  }

  lemma SplitDelimited(b: seq<byte>, rest: seq<byte>)
    requires |b| < TWO_32
    ensures Split(Varint(|b|) + b + rest) == Some((b, rest))
  {
    hide Varint, Varint32, Take, Split;
    var input := Varint(|b|) + (b + rest);
    assert Varint(|b|) + b + rest == input;
    Varint32RoundTrip(|b|, b + rest);
    TakeFront(b, rest);
    SplitIs(input, |b|, b + rest);
  }

  lemma SplitIs(input: seq<byte>, n: nat, rest: seq<byte>)
    requires Varint32(input) == Some((n, rest))
    ensures Split(input) == Take(rest, n)
  {
    hide Varint32, Take;
  }

  lemma BlobDelimited(b: seq<byte>, most: nat, rest: seq<byte>)
    requires |b| < TWO_32
    ensures DecBlob(Varint(|b|) + b + rest, most) == if |b| <= most then Some((b, rest)) else None
  {
    hide Varint, Varint32, Take;
    assert Varint(|b|) + b + rest == Varint(|b|) + (b + rest);
    Varint32RoundTrip(|b|, b + rest);
    TakeFront(b, rest);
  }

  lemma Pow256Values()
    ensures Pow256(4) == TWO_32 && Pow256(8) == TWO_64
  {
    assert Pow256(1) == 256 * Pow256(0);
    assert Pow256(2) == 256 * Pow256(1);
    assert Pow256(3) == 256 * Pow256(2);
    assert Pow256(4) == 256 * Pow256(3);
    assert Pow256(5) == 256 * Pow256(4);
    assert Pow256(6) == 256 * Pow256(5);
    assert Pow256(7) == 256 * Pow256(6);
    assert Pow256(8) == 256 * Pow256(7);
  }

  lemma FixedRoundTrip(n: nat, len: nat, rest: seq<byte>)
    requires (len == 4 && n < TWO_32) || (len == 8 && n < TWO_64)
    ensures Take(LittleEndian(n, len) + rest, len) == Some((LittleEndian(n, len), rest))
    ensures FromLittleEndian(LittleEndian(n, len)) == n
  {
    Pow256Values();
    LittleEndianRoundTrip(n, len);
    var e := LittleEndian(n, len);
    assert (e + rest)[..len] == e && (e + rest)[len..] == rest;
  }

  lemma RawRoundTrip(t: LType, n: int)
    requires WellFormedType(t) && Holds(t, Num(n)) && (t.VarintT? || t.UVarintT? || t.SVarintT?)
    ensures var raw := if t.SVarintT? then ZigZag(n) else ToUnsigned64(n);
      raw < TWO_64 && ScalarOf(t, raw) == Some(Num(n))
  {
    match t {
      case VarintT(size) => SignedRoundTrip(n, size);
      case UVarintT(size) => assert ToUnsigned64(n) == n;
      case SVarintT(size) => ZigZagRoundTrip(n);
    }
  }

  lemma ScalarRoundTrip(t: LType, v: Value, rest: seq<byte>)
    requires t.Packable() && WellFormedType(t) && Holds(t, v)
    ensures EncValue(t, v).Some? && EncValue(t, v).value != []
    ensures DecScalar(t, EncValue(t, v).value + rest) == Some((v, rest))
  {
    hide Varint64, Varint, LittleEndian, FromLittleEndian, Take, ScalarOf, ZigZag, ToUnsigned64;
    if t.Fixed32T? || t.Fixed64T? {
      SmallIsItself(v.n);
      FixedRoundTrip(v.n, if t.Fixed32T? then 4 else 8, rest);
    } else {
      RawRoundTrip(t, v.n);
      var raw := if t.SVarintT? then ZigZag(v.n) else ToUnsigned64(v.n);
      FirstPower();
      Varint64RoundTrip(raw, 0, rest);
    }
  }

  lemma SmallIsItself(n: int)
    ensures 0 <= n < TWO_64 ==> ToUnsigned64(n) == n
  {
  }

  lemma FirstPower()
    ensures Pow128(0) == 1
  {
  }

  lemma DecItemsOne(t: LType, cap: nat, done: seq<Value>, content: seq<byte>, v: Value, rest: seq<byte>)
    requires content != [] && |done| < cap && DecScalar(t, content) == Some((v, rest))
    ensures DecItems(t, cap, done, content) == DecItems(t, cap, done + [v], rest)
  {
  }

  /** Packed items come back one by one. */
  lemma {:induction false} PackedRoundTrip(t: LType, items: seq<Value>, n: nat, cap: nat, tail: seq<byte>)
    requires t.Packable() && WellFormedType(t) && n <= |items| <= cap
    requires forall k :: 0 <= k < |items| ==> Holds(t, items[k])
    ensures EncItems([], t, items, n).Some?
    ensures DecItems(t, cap, [], EncItems([], t, items, n).value + tail) == DecItems(t, cap, items[..n], tail)
  {
    hide DecItems, DecScalar, EncValue, Holds;
    if n == 0 {
      assert [] + tail == tail && items[..0] == [];
    } else {
      var v := items[n - 1];
      ScalarRoundTrip(t, v, tail);
      var e := EncValue(t, v).value;
      PackedRoundTrip(t, items, n - 1, cap, e + tail);
      var before := EncItems([], t, items, n - 1).value;
      assert EncItems([], t, items, n).value == before + ([] + e);
      assert before + ([] + e) + tail == before + (e + tail);
      DecItemsOne(t, cap, items[..n - 1], e + tail, v, tail);
      assert items[..n] == items[..n - 1] + [v];
    }
  }

  // =====================================================================
  // Fields and messages
  // =====================================================================

  predicate Sends(f: Field, s: Slot) {
    match s
    case One(_) => !(f.htype.Singular? && IsDefault(f, s))
    case Opt(has, _) => has
    case Rep(items) => items != []
    case Alt(chosen) => chosen.Some?
  }

  /** The contents when the fields before n have been decoded. */
  ghost function StateAt(fields: seq<Field>, slots: seq<Slot>, n: nat): (r: seq<Slot>)
    requires |fields| == |slots|
    ensures |r| == |fields|
  {
    seq(|fields|, k requires 0 <= k < |fields| =>
      if k < n then RestoredSlot(fields[k], slots[k]) else InitialSlot(fields[k]))
  }

  function SentBefore(fields: seq<Field>, slots: seq<Slot>, n: nat): set<nat>
    requires n <= |fields| == |slots|
  {
    if n == 0 then {}
    else SentBefore(fields, slots, n - 1) + (if Sends(fields[n - 1], slots[n - 1]) then {n - 1} else {})
  }

  function LastSent(fields: seq<Field>, slots: seq<Slot>, n: nat): (i: nat)
    requires n <= |fields| == |slots|
    ensures i <= |fields|
  {
    if n == 0 then 0
    else if Sends(fields[n - 1], slots[n - 1]) then n - 1 else LastSent(fields, slots, n - 1)
  }

  /** A message whose first n fields have room for their strings' terminators. */
  ghost predicate Sendable(fields: seq<Field>, slots: seq<Slot>, n: nat) {
    && WellFormed(fields) && HoldsAll(fields, slots) && n <= |fields|
    && forall i :: 0 <= i < n ==> TerminatedSlot(fields[i], slots[i])
  }

  /** A tag is read back, and finds its field. */
  lemma OneTag(fields: seq<Field>, i: nat, wireType: nat, body: seq<byte>,
               slots: seq<Slot>, slots': seq<Slot>, seen: set<nat>, pos: nat, rest: seq<byte>)
    requires |slots| == |fields| == |slots'| && i < |fields| && pos <= |fields|
    requires DistinctTags(fields) && 1 <= fields[i].tag < 0x2000_0000 && wireType < 8
    requires DecField(fields, slots, i, wireType, body + rest) == Some((slots', rest))
    ensures DecFrom(fields, Tag(fields[i].tag, wireType) + body + rest, slots, seen, pos)
         == DecFrom(fields, rest, slots', seen + {i}, i)
  {
    hide DecField, Varint32, Find, DistinctTags, Varint;
    var n := fields[i].tag * 8 + wireType;
    var input := Varint(n) + (body + rest);
    assert Tag(fields[i].tag, wireType) + body + rest == input;
    Varint32RoundTrip(n, body + rest);
    FindFromAnywhere(fields, pos, i);
    assert DecTag(input) == Tagged(fields[i].tag, wireType, body + rest);
  }

  lemma {:induction false} ValueRoundTrip(t: LType, v: Value, dest: Value, rest: seq<byte>)
    requires WellFormedType(t) && Holds(t, v) && Terminated(t, v)
    requires EncValue(t, v).Some? && |EncValue(t, v).value| < TWO_32
    requires t.SubmessageT? ==> Contents(t.fields, dest) == Initial(t.fields)
    ensures DecValue(t, dest, EncValue(t, v).value + rest) == Some((Restored(t, v), rest))
    decreases t, 0
  {
    hide Varint, DecScalar, DecBlob, DecFrom, CString, Restored, EncMsg, Split;
    RestoredPlain(t, v);
    if t.Packable() {
      ScalarRoundTrip(t, v, rest);
    } else if t.BytesT? {
      BlobDelimited(v.bytes, Min(t.cap, PB_SIZE_MAX), rest);
    } else if t.StringT? {
      BlobDelimited(v.bytes, t.size - 1, rest);
      NoZeroInside(v.bytes);
    } else if t.FixedBytesT? {
      BlobDelimited(v.bytes, PB_SIZE_MAX, rest);
    } else {
      SubmessageRoundTrip(t.fields, v, dest, rest);
    }
  }

  lemma RestoredPlain(t: LType, v: Value)
    ensures !t.SubmessageT? ==> Restored(t, v) == v
    ensures t.SubmessageT? && v.Msg? && |v.slots| == |t.fields| ==>
      Restored(t, v) == Msg(RestoredAll(t.fields, v.slots))
  {
  }

  lemma {:induction false} SubmessageRoundTrip(fields: seq<Field>, v: Value, dest: Value, rest: seq<byte>)
    requires v.Msg? && Sendable(fields, v.slots, |fields|) && Contents(fields, dest) == Initial(fields)
    requires Delimited(Encoding(fields, v.slots)).Some?
    requires |Delimited(Encoding(fields, v.slots)).value| < TWO_32
    ensures DecValue(SubmessageT(fields), dest, Delimited(Encoding(fields, v.slots)).value + rest)
         == Some((Msg(RestoredAll(fields, v.slots)), rest))
    decreases fields, 4
  {
    hide DecFrom, Split, Encoding, Sendable, Initial, RestoredAll;
    SendableLengths(fields, v.slots, |fields|);
    var e := Encoding(fields, v.slots).value;
    SplitDelimited(e, rest);
    MessageRoundTrip(fields, v.slots);
  }

  /** A message comes back whole. */
  lemma {:induction false} MessageRoundTrip(fields: seq<Field>, slots: seq<Slot>)
    requires Sendable(fields, slots, |fields|)
    requires Encoding(fields, slots).Some? && |Encoding(fields, slots).value| < TWO_32
    ensures DecFrom(fields, Encoding(fields, slots).value, Initial(fields), {}, 0)
         == Some((RestoredAll(fields, slots), []))
    decreases fields, 3
  {
    hide Sendable, EncMsg, Initial, WellFormed, HoldsAll, AllTerminated;
    SendableLengths(fields, slots, |fields|);
    FieldsRoundTrip(fields, slots, |fields|, []);
    var e := Encoding(fields, slots).value;
    assert e + [] == e;
    assert StateAt(fields, slots, |fields|) == RestoredAll(fields, slots);
    RequiredAreSent(fields, slots);
  }

  lemma SendableLengths(fields: seq<Field>, slots: seq<Slot>, n: nat)
    requires Sendable(fields, slots, n)
    ensures |fields| == |slots|
  {
  }

  lemma RequiredAreSent(fields: seq<Field>, slots: seq<Slot>)
    requires Sendable(fields, slots, |fields|)
    ensures AllRequired(fields, SentBefore(fields, slots, |fields|))
  {
    forall i | 0 <= i < |fields| && Tracked(fields, i) ensures i in SentBefore(fields, slots, |fields|) {
      assert HoldsSlot(fields[i], slots[i]);
      SentIsKept(fields, slots, i, |fields|);
    }
  }

  lemma {:induction false} SentIsKept(fields: seq<Field>, slots: seq<Slot>, i: nat, n: nat)
    requires i < n <= |fields| == |slots| && Sends(fields[i], slots[i])
    ensures i in SentBefore(fields, slots, n)
  {
    if i < n - 1 {
      SentIsKept(fields, slots, i, n - 1);
    }
  }

  lemma {:induction false} FieldsRoundTrip(fields: seq<Field>, slots: seq<Slot>, n: nat, rest: seq<byte>)
    requires Sendable(fields, slots, n) && n <= |fields| == |slots|
    requires EncMsg(fields, slots, n).Some? && |EncMsg(fields, slots, n).value| < TWO_32
    ensures DecFrom(fields, EncMsg(fields, slots, n).value + rest, Initial(fields), {}, 0)
         == DecFrom(fields, rest, StateAt(fields, slots, n), SentBefore(fields, slots, n), LastSent(fields, slots, n))
    decreases fields, 2, n
  {
    hide Sendable, DecFrom, EncField, Sends, RestoredSlot;
    if n == 0 {
      assert [] + rest == rest;
      assert StateAt(fields, slots, 0) == Initial(fields);
    } else {
      var before, e := EncMsg(fields, slots, n - 1).value, EncField(fields[n - 1], slots[n - 1]).value;
      assert before + e + rest == before + (e + rest);
      SendableLess(fields, slots, n);
      FieldsRoundTrip(fields, slots, n - 1, e + rest);
      FieldStep(fields, slots, n - 1, rest, SentBefore(fields, slots, n - 1), LastSent(fields, slots, n - 1));
      assert SentBefore(fields, slots, n - 1) + {} == SentBefore(fields, slots, n - 1);
    }
  }

  lemma StateNext(fields: seq<Field>, slots: seq<Slot>, i: nat)
    requires i < |fields| == |slots|
    ensures StateAt(fields, slots, i)[i] == InitialSlot(fields[i])
    ensures StateAt(fields, slots, i)[i := RestoredSlot(fields[i], slots[i])] == StateAt(fields, slots, i + 1)
  {
    hide RestoredSlot, InitialSlot;
  }

  /** In a union at most one member is chosen, so choosing it drops nothing that was decoded. */
  lemma ChooseNext(fields: seq<Field>, slots: seq<Slot>, i: nat, v: Value)
    requires HoldsAll(fields, slots) && i < |fields|
    requires fields[i].htype.OneOf? && slots[i] == Alt(Some(v))
    ensures Choose(fields, StateAt(fields, slots, i), i, Restored(fields[i].ltype, v))
         == StateAt(fields, slots, i + 1)
  {
    hide Restored, Holds;
    var r := Choose(fields, StateAt(fields, slots, i), i, Restored(fields[i].ltype, v));
    var next := StateAt(fields, slots, i + 1);
    forall k | 0 <= k < |fields| ensures r[k] == next[k] {
      if k != i && SameUnion(fields[i], fields[k]) {
        assert HoldsSlot(fields[k], slots[k]) && HoldsSlot(fields[i], slots[i]);
        if k < i { assert SameUnion(fields[k], fields[i]); }
        assert Unchosen(slots[k]);
      }
    }
  }

  lemma SendableLess(fields: seq<Field>, slots: seq<Slot>, n: nat)
    requires Sendable(fields, slots, n) && n > 0
    ensures Sendable(fields, slots, n - 1)
  {
  }

  lemma SendableField(fields: seq<Field>, slots: seq<Slot>, n: nat, i: nat)
    requires Sendable(fields, slots, n) && i < |fields|
    ensures |fields| == |slots| && DistinctTags(fields) && HoldsAll(fields, slots)
    ensures WellFormedField(fields[i]) && HoldsSlot(fields[i], slots[i])
    ensures i < n ==> TerminatedSlot(fields[i], slots[i])
    ensures 1 <= fields[i].tag < 0x2000_0000
  {
    assert TagFits(fields[i]);
  }

  /** One value of a field, decoded where it belongs. */
  lemma {:induction false} OneRoundTrip(f: Field, s: Slot, v: Value, rest: seq<byte>)
    requires WellFormedField(f) && Holds(f.ltype, v) && Terminated(f.ltype, v)
    requires EncValue(f.ltype, v).Some? && |EncValue(f.ltype, v).value| < TWO_32
    requires f.htype.Repeated? || f.htype.OneOf? || s == InitialSlot(f)
    ensures DecOne(f, s, EncValue(f.ltype, v).value + rest) == Some((Restored(f.ltype, v), rest))
    decreases f
  {
    hide EncValue, Holds, Terminated, Restored, DecValue, Initial;
    var dest := if !(f.htype.Repeated? || f.htype.OneOf?) then Dest(s)
                else if f.ltype.SubmessageT? then Msg(Initial(f.ltype.fields)) else Num(0);
    if f.ltype.SubmessageT? {
      InitialLength(f.ltype.fields);
    }
    ValueRoundTrip(f.ltype, v, dest, rest);
  }

  lemma InitialLength(fields: seq<Field>)
    ensures |Initial(fields)| == |fields|
  {
  }

  /** A field that sends one tagged value. */
  lemma {:induction false} TaggedStep(
      fields: seq<Field>, slots: seq<Slot>, i: nat, v: Value, rest: seq<byte>, seen: set<nat>, pos: nat)
    requires Sendable(fields, slots, i + 1) && i < |fields| == |slots| && pos <= |fields|
    requires slots[i] == One(v) || slots[i] == Opt(true, v) || slots[i] == Alt(Some(v))
    requires Sends(fields[i], slots[i])
    requires EncField(fields[i], slots[i]).Some? && |EncField(fields[i], slots[i]).value| < TWO_32
    ensures DecFrom(fields, EncField(fields[i], slots[i]).value + rest, StateAt(fields, slots, i), seen, pos)
         == DecFrom(fields, rest, StateAt(fields, slots, i + 1), seen + {i}, i)
    decreases fields, 0
  {
    hide Sendable, DecFrom, EncValue, DecOne, Holds, Terminated, Restored, WellFormedField, IsDefault, DistinctTags,
      StateAt, Choose, HoldsAll, Tag;
    SendableField(fields, slots, i + 1, i);
    var f, state, next := fields[i], StateAt(fields, slots, i), StateAt(fields, slots, i + 1);
    var e := EncValue(f.ltype, v).value;
    StateNext(fields, slots, i);
    OneRoundTrip(f, state[i], v, rest);
    if f.htype.OneOf? {
      ChooseNext(fields, slots, i, v);
    }
    assert DecField(fields, state, i, f.ltype.WireType(), e + rest) == Some((next, rest));
    OneTag(fields, i, f.ltype.WireType(), e, state, next, seen, pos, rest);
  }

  /** A packed array. */
  lemma {:induction false} PackedStep(
      fields: seq<Field>, slots: seq<Slot>, i: nat, rest: seq<byte>, seen: set<nat>, pos: nat)
    requires Sendable(fields, slots, i) && i < |fields| == |slots| && pos <= |fields|
    requires fields[i].htype.Repeated? && fields[i].ltype.Packable() && slots[i].Rep? && slots[i].items != []
    requires EncField(fields[i], slots[i]).Some? && |EncField(fields[i], slots[i]).value| < TWO_32
    ensures DecFrom(fields, EncField(fields[i], slots[i]).value + rest, StateAt(fields, slots, i), seen, pos)
         == DecFrom(fields, rest, StateAt(fields, slots, i + 1), seen + {i}, i)
  {
    hide Sendable, DecFrom, EncValue, DecOne, Holds, Terminated, Restored, DistinctTags, StateAt, HoldsAll, Tag,
      EncItems, DecItems, Split, Varint;
    SendableField(fields, slots, i, i);
    var f, items := fields[i], slots[i].items;
    var state, next := StateAt(fields, slots, i), StateAt(fields, slots, i + 1);
    var e := EncItems([], f.ltype, items, |items|).value;
    StateNext(fields, slots, i);
    SplitDelimited(e, rest);
    PackedRoundTrip(f.ltype, items, |items|, f.htype.cap, []);
    AllDecoded(f.ltype, f.htype.cap, items);
    assert e + [] == e && items[..|items|] == items;
    PackedRestored(f, items);
    assert DecField(fields, state, i, WT_STRING, Varint(|e|) + e + rest) == Some((next, rest));
    OneTag(fields, i, WT_STRING, Varint(|e|) + e, state, next, seen, pos, rest);
  }

  lemma AllDecoded(t: LType, cap: nat, items: seq<Value>)
    ensures DecItems(t, cap, items, []) == Some(items)
  {
  }

  lemma PackedRestored(f: Field, items: seq<Value>)
    requires f.ltype.Packable()
    ensures RestoredSlot(f, Rep(items)) == Rep(items)
  {
  }

  /** The first k entries of an array whose entries carry a tag each. */
  lemma {:induction false} EntriesStep(
      fields: seq<Field>, slots: seq<Slot>, i: nat, k: nat, rest: seq<byte>, seen: set<nat>, pos: nat)
    requires Sendable(fields, slots, i) && i < |fields| == |slots| && pos <= |fields|
    requires fields[i].htype.Repeated? && !fields[i].ltype.Packable() && slots[i].Rep?
    requires 1 <= k <= |slots[i].items| <= fields[i].htype.cap
    requires forall j :: 0 <= j < k ==> Terminated(fields[i].ltype, slots[i].items[j])
    requires var tag := Tag(fields[i].tag, fields[i].ltype.WireType());
      EncItems(tag, fields[i].ltype, slots[i].items, k).Some? &&
      |EncItems(tag, fields[i].ltype, slots[i].items, k).value| < TWO_32
    ensures var tag := Tag(fields[i].tag, fields[i].ltype.WireType());
      DecFrom(fields, EncItems(tag, fields[i].ltype, slots[i].items, k).value + rest,
              StateAt(fields, slots, i), seen, pos)
      == DecFrom(fields, rest, StateAt(fields, slots, i)[i := RestoredEntries(fields[i], slots[i].items, k)],
                 seen + {i}, i)
    decreases fields, 0, k
  {
    hide Sendable, DecFrom, EncValue, DecOne, Holds, Terminated, Restored, DistinctTags, StateAt, HoldsAll, Tag,
      WellFormedField;
    SendableField(fields, slots, i, i);
    var f, items := fields[i], slots[i].items;
    var tag, v := Tag(f.tag, f.ltype.WireType()), items[k - 1];
    var before, e := EncItems(tag, f.ltype, items, k - 1).value, EncValue(f.ltype, v).value;
    var start := StateAt(fields, slots, i);
    StateNext(fields, slots, i);
    var state := start[i := RestoredEntries(f, items, k - 1)];
    var next := start[i := RestoredEntries(f, items, k)];
    assert EncItems(tag, f.ltype, items, k).value + rest == before + (tag + e + rest);
    OneRoundTrip(f, state[i], v, rest);
    EntriesNext(f, items, k);
    assert state[i := RestoredEntries(f, items, k)] == next;
    assert DecField(fields, state, i, f.ltype.WireType(), e + rest) == Some((next, rest));
    if k == 1 {
      assert [] + (tag + e + rest) == tag + e + rest;
      assert state == start;
      OneTag(fields, i, f.ltype.WireType(), e, state, next, seen, pos, rest);
    } else {
      EntriesStep(fields, slots, i, k - 1, tag + e + rest, seen, pos);
      OneTag(fields, i, f.ltype.WireType(), e, state, next, seen + {i}, i, rest);
      assert seen + {i} + {i} == seen + {i};
    }
  }

  ghost function RestoredEntries(f: Field, items: seq<Value>, k: nat): Slot
    requires k <= |items|
  {
    Rep(seq(k, j requires 0 <= j < k => Restored(f.ltype, items[j])))
  }

  lemma EntriesNext(f: Field, items: seq<Value>, k: nat)
    requires 1 <= k <= |items|
    ensures RestoredEntries(f, items, k)
         == Rep(RestoredEntries(f, items, k - 1).items + [Restored(f.ltype, items[k - 1])])
    ensures RestoredEntries(f, items, 0) == Rep([])
    ensures RestoredEntries(f, items, |items|) == RestoredSlot(f, Rep(items))
  {
  }

  /** One field's encoding takes the decoder past that field. */
  lemma {:induction false} FieldStep(
      fields: seq<Field>, slots: seq<Slot>, i: nat, rest: seq<byte>, seen: set<nat>, pos: nat)
    requires Sendable(fields, slots, i + 1) && i < |fields| == |slots| && pos <= |fields|
    requires EncField(fields[i], slots[i]).Some? && |EncField(fields[i], slots[i]).value| < TWO_32
    ensures DecFrom(fields, EncField(fields[i], slots[i]).value + rest, StateAt(fields, slots, i), seen, pos)
         == if Sends(fields[i], slots[i])
            then DecFrom(fields, rest, StateAt(fields, slots, i + 1), seen + {i}, i)
            else DecFrom(fields, rest, StateAt(fields, slots, i + 1), seen, pos)
    decreases fields, 1
  {
    hide Sendable, DecFrom, EncValue, Restored, StateAt, HoldsAll, Tag, WellFormedField, Holds, TerminatedSlot;
    SendableField(fields, slots, i + 1, i);
    SendableLess(fields, slots, i + 1);
    var f, s := fields[i], slots[i];
    if !Sends(f, s) {
      StateNext(fields, slots, i);
      NothingSent(f, s, rest);
      assert StateAt(fields, slots, i)[i := InitialSlot(f)] == StateAt(fields, slots, i);
    } else if s.Rep? {
      if f.ltype.Packable() {
        PackedStep(fields, slots, i, rest, seen, pos);
      } else {
        EntriesStep(fields, slots, i, |s.items|, rest, seen, pos);
        EntriesNext(f, s.items, |s.items|);
        StateNext(fields, slots, i);
      }
    } else if s.One? {
      TaggedStep(fields, slots, i, s.v, rest, seen, pos);
    } else if s.Opt? {
      TaggedStep(fields, slots, i, s.v, rest, seen, pos);
    } else {
      TaggedStep(fields, slots, i, s.chosen.value, rest, seen, pos);
    }
  }

  lemma NothingSent(f: Field, s: Slot, rest: seq<byte>)
    requires HoldsSlot(f, s) && EncField(f, s).Some? && !Sends(f, s)
    ensures EncField(f, s).value + rest == rest && RestoredSlot(f, s) == InitialSlot(f)
  {
    assert [] + rest == rest;
  }

  // =====================================================================
  // What does not come back
  // =====================================================================

  lemma OneTagRefused(fields: seq<Field>, i: nat, wireType: nat, body: seq<byte>,
                      slots: seq<Slot>, seen: set<nat>, pos: nat, rest: seq<byte>)
    requires |slots| == |fields| && i < |fields| && pos <= |fields|
    requires DistinctTags(fields) && 1 <= fields[i].tag < 0x2000_0000 && wireType < 8
    requires DecField(fields, slots, i, wireType, body + rest).None?
    ensures DecFrom(fields, Tag(fields[i].tag, wireType) + body + rest, slots, seen, pos).None?
  {
    hide DecField, Varint32, Find, DistinctTags, Varint;
    var n := fields[i].tag * 8 + wireType;
    var input := Varint(n) + (body + rest);
    assert Tag(fields[i].tag, wireType) + body + rest == input;
    Varint32RoundTrip(n, body + rest);
    FindFromAnywhere(fields, pos, i);
    assert DecTag(input) == Tagged(fields[i].tag, wireType, body + rest);
  }

  /** A string that fills its buffer is encoded, but its encoding is refused. */
  lemma {:induction false} ValueRefused(t: LType, v: Value, dest: Value, rest: seq<byte>)
    requires WellFormedType(t) && Holds(t, v) && !Terminated(t, v)
    requires EncValue(t, v).Some? && |EncValue(t, v).value| < TWO_32
    requires t.SubmessageT? ==> Contents(t.fields, dest) == Initial(t.fields)
    ensures DecValue(t, dest, EncValue(t, v).value + rest).None?
    decreases t, 0
  {
    hide Varint, DecBlob, DecFrom, EncMsg, Split;
    if t.StringT? {
      if t.size > 0 {
        BlobDelimited(v.bytes, t.size - 1, rest);
      }
    } else {
      var e := Encoding(t.fields, v.slots).value;
      SplitDelimited(e, rest);
      MessageRefused(t.fields, v.slots);
    }
  }

  lemma {:induction false} OneRefused(f: Field, s: Slot, v: Value, rest: seq<byte>)
    requires WellFormedField(f) && Holds(f.ltype, v) && !Terminated(f.ltype, v)
    requires EncValue(f.ltype, v).Some? && |EncValue(f.ltype, v).value| < TWO_32
    requires f.htype.Repeated? || f.htype.OneOf? || s == InitialSlot(f)
    ensures DecOne(f, s, EncValue(f.ltype, v).value + rest).None?
    decreases f
  {
    hide EncValue, Holds, Terminated, DecValue, Initial;
    var dest := if !(f.htype.Repeated? || f.htype.OneOf?) then Dest(s)
                else if f.ltype.SubmessageT? then Msg(Initial(f.ltype.fields)) else Num(0);
    if f.ltype.SubmessageT? {
      InitialLength(f.ltype.fields);
    }
    ValueRefused(f.ltype, v, dest, rest);
  }

  lemma PackableTerminates(t: LType, v: Value)
    requires t.Packable()
    ensures Terminated(t, v)
  {
  }

  lemma {:induction false} FieldRefused(
      fields: seq<Field>, slots: seq<Slot>, i: nat, rest: seq<byte>, seen: set<nat>, pos: nat)
    requires Sendable(fields, slots, i) && i < |fields| == |slots| && pos <= |fields|
    requires !TerminatedSlot(fields[i], slots[i])
    requires EncField(fields[i], slots[i]).Some? && |EncField(fields[i], slots[i]).value| < TWO_32
    ensures DecFrom(fields, EncField(fields[i], slots[i]).value + rest, StateAt(fields, slots, i), seen, pos).None?
    decreases fields, 1
  {
    hide Sendable, DecFrom, EncValue, DecOne, Holds, Terminated, WellFormedField, IsDefault, DistinctTags, StateAt,
      HoldsAll, Tag;
    SendableField(fields, slots, i, i);
    var f, s, state := fields[i], slots[i], StateAt(fields, slots, i);
    StateNext(fields, slots, i);
    if s.Rep? {
      EntriesRefused(fields, slots, i, rest, seen, pos);
    } else {
      var v := if s.Alt? then s.chosen.value else s.v;
      var e := EncValue(f.ltype, v).value;
      OneRefused(f, state[i], v, rest);
      assert DecField(fields, state, i, f.ltype.WireType(), e + rest).None?;
      OneTagRefused(fields, i, f.ltype.WireType(), e, state, seen, pos, rest);
    }
  }

  lemma {:induction false} EntriesRefused(
      fields: seq<Field>, slots: seq<Slot>, i: nat, rest: seq<byte>, seen: set<nat>, pos: nat)
    requires Sendable(fields, slots, i) && i < |fields| == |slots| && pos <= |fields|
    requires slots[i].Rep? && !TerminatedSlot(fields[i], slots[i])
    requires EncField(fields[i], slots[i]).Some? && |EncField(fields[i], slots[i]).value| < TWO_32
    ensures DecFrom(fields, EncField(fields[i], slots[i]).value + rest, StateAt(fields, slots, i), seen, pos).None?
    decreases fields, 0
  {
    hide Sendable, DecFrom, EncValue, DecOne, Holds, Terminated, Restored, WellFormedField, DistinctTags, StateAt,
      HoldsAll, Tag;
    SendableField(fields, slots, i, i);
    var f, items, state := fields[i], slots[i].items, StateAt(fields, slots, i);
    StateNext(fields, slots, i);
    var k := FirstUnterminated(f.ltype, items);
    if f.ltype.Packable() {
      PackableTerminates(f.ltype, items[k]);
    }
    var tag := Tag(f.tag, f.ltype.WireType());
    ItemsPrefix(tag, f.ltype, items, k + 1, |items|);
    ItemsPrefix(tag, f.ltype, items, k, |items|);
    var e := EncValue(f.ltype, items[k]).value;
    var before, all := EncItems(tag, f.ltype, items, k).value, EncItems(tag, f.ltype, items, |items|).value;
    var more := all[|before + (tag + e)|..] + rest;
    assert all + rest == before + (tag + e + more) by {
      assert before + (tag + e) <= all;
      assert all == before + (tag + e) + all[|before + (tag + e)|..];
    }
    var at := if k == 0 then state else state[i := RestoredEntries(f, items, k)];
    OneRefused(f, at[i], items[k], more);
    assert DecField(fields, at, i, f.ltype.WireType(), e + more).None?;
    if k == 0 {
      assert before + (tag + e + more) == tag + e + more;
      OneTagRefused(fields, i, f.ltype.WireType(), e, state, seen, pos, more);
    } else {
      EntriesStep(fields, slots, i, k, tag + e + more, seen, pos);
      OneTagRefused(fields, i, f.ltype.WireType(), e, at, seen + {i}, i, more);
    }
  }

  lemma FirstUnterminated(t: LType, items: seq<Value>) returns (k: nat)
    requires exists j :: 0 <= j < |items| && !Terminated(t, items[j])
    ensures k < |items| && !Terminated(t, items[k]) && forall j :: 0 <= j < k ==> Terminated(t, items[j])
  {
    hide Terminated;
    k := 0;
    while Terminated(t, items[k])
      invariant k < |items| && forall j :: 0 <= j < k ==> Terminated(t, items[j])
      decreases |items| - k
    {
      k := k + 1;
    }
  }

  lemma FirstUnterminatedField(fields: seq<Field>, slots: seq<Slot>) returns (k: nat)
    requires |fields| == |slots| && !AllTerminated(fields, slots)
    ensures k < |fields| && !TerminatedSlot(fields[k], slots[k])
    ensures forall j :: 0 <= j < k ==> TerminatedSlot(fields[j], slots[j])
  {
    hide TerminatedSlot;
    k := 0;
    while TerminatedSlot(fields[k], slots[k])
      invariant k < |fields| && forall j :: 0 <= j < k ==> TerminatedSlot(fields[j], slots[j])
      decreases |fields| - k
    {
      k := k + 1;
    }
  }

  lemma {:induction false} MessageRefused(fields: seq<Field>, slots: seq<Slot>)
    requires WellFormed(fields) && HoldsAll(fields, slots) && !AllTerminated(fields, slots)
    requires Encoding(fields, slots).Some? && |Encoding(fields, slots).value| < TWO_32
    ensures DecFrom(fields, Encoding(fields, slots).value, Initial(fields), {}, 0).None?
    decreases fields, 2
  {
    hide DecFrom, EncField, WellFormed, TerminatedSlot, HoldsSlot, Initial;
    var i := FirstUnterminatedField(fields, slots);
    FieldsPrefix(fields, slots, i + 1, |fields|);
    FieldsPrefix(fields, slots, i, |fields|);
    var all, before, e := Encoding(fields, slots).value, EncMsg(fields, slots, i).value,
      EncField(fields[i], slots[i]).value;
    var more := all[|before + e|..];
    assert all == before + (e + more) by {
      assert before + e <= all;
    }
    FieldsRoundTrip(fields, slots, i, e + more);
    FieldRefused(fields, slots, i, more, SentBefore(fields, slots, i), LastSent(fields, slots, i));
  }

  // =====================================================================
  // Main results
  // =====================================================================

  /**
   For every descriptor the generator can produce and every message of it that can be encoded:
   if every string leaves room for its terminator, decoding the encoding succeeds, uses it up, and
   restores presence, counts and values, submessages included; otherwise decoding fails.
   */
  lemma RoundTrip(fields: seq<Field>, slots: seq<Slot>)
    requires WellFormed(fields) && HoldsAll(fields, slots)
    requires Encoding(fields, slots).Some? && |Encoding(fields, slots).value| < TWO_32
    ensures var r := Decode(fields, Encoding(fields, slots).value);
      if AllTerminated(fields, slots) then r.Some? && r.value.1 == [] && SameAll(fields, slots, r.value.0)
      else r.None?
  {
    if AllTerminated(fields, slots) {
      MessageRoundTrip(fields, slots);
      forall i | 0 <= i < |fields| ensures SameSlot(fields[i], slots[i], RestoredSlot(fields[i], slots[i])) {
        assert WellFormedField(fields[i]) && HoldsSlot(fields[i], slots[i]);
        RestoredSlotIsSame(fields[i], slots[i]);
      }
    } else {
      MessageRefused(fields, slots);
    }
  }

  function OneString(): seq<Field> {
    [Field(1, Required, StringT(1), Blob([]), Layout(0, 0, 1))]
  }

  /** A string of one byte in a buffer of one byte is such a message: it is encoded, and refused. */
  lemma FullStringIsRefused()
    ensures var fields, slots := OneString(), [One(Blob([65]))];
      && WellFormed(fields) && HoldsAll(fields, slots)
      && Encoding(fields, slots) == Some([10, 1, 65]) && Decode(fields, [10, 1, 65]).None?
  {
    var fields, slots := OneString(), [One(Blob([65]))];
    var bytes: seq<byte> := [65];
    assert Delimited(Some(bytes)) == Some([1, 65]) by { assert |bytes| == 1 && Varint(1) + bytes == [1, 65]; }
    assert EncField(fields[0], slots[0]) == Some([10, 1, 65]) by { assert Varint(10) + [1, 65] == [10, 1, 65]; }
    assert EncMsg(fields, slots, 0) == Some([]) && [] + [10, 1, 65] == [10, 1, 65];
    assert EncMsg(fields, slots, 1) == Some([10, 1, 65]);
    assert !TerminatedSlot(fields[0], slots[0]);
    RoundTrip(fields, slots);
  }
}
