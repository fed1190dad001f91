/**
 What the bytes of an encoding are, to a reader without a descriptor: which fields are there, each
 as an entry of its tag, wire type and payload; and the bytes of some messages.
 */
module PbWire {
  import opened Bytes
  import opened PbDecode
  import opened PbEncode
  import opened PbRequired
  import opened PbRoundTrip
  import opened PbSchema
  import opened PbVarint

  // =====================================================================
  // Which fields are there
  // =====================================================================

  /** A field that goes out whatever it holds. */
  ghost predicate AlwaysSent(f: Field)
    decreases f
  {
    match f.htype
    case Required => true
    case Singular => AlwaysSentType(f.ltype)
    case _ => false
  }

  ghost predicate AlwaysSentType(t: LType)
    decreases t
  {
    match t
    case FixedBytesT(size) => size > 0
    case SubmessageT(fields) => exists i :: 0 <= i < |fields| && AlwaysSent(fields[i])
    case _ => false
  }

  /** What counts as default is what a message starts with, but for what is always sent. */
  lemma {:induction false} DefaultIsInitial(f: Field, s: Slot)
    requires WellFormedField(f) && HoldsSlot(f, s)
    ensures IsDefault(f, s) <==> !AlwaysSent(f) && SameSlot(f, s, InitialSlot(f))
    decreases f
  {
    if f.htype.Singular? && f.ltype.SubmessageT? {
      var sub, slots := f.ltype.fields, s.v.slots;
      assert WellFormedType(f.ltype) && WellFormed(sub) && HoldsAll(sub, slots) by {
        assert Holds(f.ltype, s.v);
      }
      forall i | 0 <= i < |sub|
        ensures IsDefault(sub[i], slots[i]) <==>
                !AlwaysSent(sub[i]) && SameSlot(sub[i], slots[i], InitialSlot(sub[i]))
      {
        DefaultIsInitial(sub[i], slots[i]);
      }
      var init := Initial(sub);
      assert InitialSlot(f) == One(Msg(init));
      assert IsDefault(f, s) <==> AllDefault(sub, slots);
      assert SameSlot(f, s, InitialSlot(f)) <==> SameAll(sub, slots, init);
      assert SameAll(sub, slots, init) <==>
        forall i :: 0 <= i < |sub| ==> SameSlot(sub[i], slots[i], InitialSlot(sub[i]));
    }
  }

  lemma ItemsAreThere(tag: seq<byte>, t: LType, items: seq<Value>)
    requires tag != [] && items != []
    ensures EncItems(tag, t, items, |items|) != Some([])
  {
  }

  /** A field leaves no bytes exactly when it holds what it starts with and is not always sent. */
  lemma OmittedIffInitial(f: Field, s: Slot)
    requires WellFormedField(f) && HoldsSlot(f, s)
    ensures EncField(f, s) == Some([]) <==> !AlwaysSent(f) && SameSlot(f, s, InitialSlot(f))
  {
    hide EncValue, EncItems, Delimited, SameSlot, AlwaysSent, InitialSlot, WellFormedField, Holds, IsZero;
    DefaultIsInitial(f, s);
    if s.Rep? && s.items != [] {
      ItemsAreThere(Tag(f.tag, f.ltype.WireType()), f.ltype, s.items);
    }
  }

  // =====================================================================
  // Entries
  // =====================================================================

  datatype Entry = Entry(tag: nat, wireType: nat, payload: seq<byte>)

  /** The input taken apart by wire types alone. */
  function Entries(input: seq<byte>): Option<seq<Entry>>
    decreases |input|
  {
    if input == [] then Some([])
    else
      match DecTag(input)
      case Malformed => None
      case EndOfMessage(_) => None
      case Tagged(tag, wireType, rest) =>
        match Skip(rest, wireType)
        case None => None
        case Some(next) => Behind([Entry(tag, wireType, rest[..|rest| - |next|])], Entries(next))
  }

  function Behind(first: seq<Entry>, others: Option<seq<Entry>>): Option<seq<Entry>> {
    if others.Some? then Some(first + others.value) else None
  }

  /** One entry for a value, one for all items of a packed array, one for each item of another. */
  function FieldEntries(f: Field, s: Slot): seq<Entry>
    requires EncField(f, s).Some?
  {
    match s
    case One(v) => if IsDefault(f, s) then [] else [ValueEntry(f, v)]
    case Opt(has, v) => if has then [ValueEntry(f, v)] else []
    case Alt(chosen) => if chosen.Some? then [ValueEntry(f, chosen.value)] else []
    case Rep(items) =>
      if items == [] then []
      else if f.ltype.Packable() then [PackedEntry(f, items)]
      else ItemEntries(f, items, |items|)
  }

  function Payload(e: Option<seq<byte>>): seq<byte> { if e.Some? then e.value else [] }

  function ValueEntry(f: Field, v: Value): Entry { Entry(f.tag, f.ltype.WireType(), Payload(EncValue(f.ltype, v))) }

  function PackedEntry(f: Field, items: seq<Value>): Entry {
    Entry(f.tag, WT_STRING, Payload(Delimited(EncItems([], f.ltype, items, |items|))))
  }

  function ItemEntries(f: Field, items: seq<Value>, n: nat): seq<Entry>
    requires n <= |items|
  {
    if n == 0 then [] else ItemEntries(f, items, n - 1) + [ValueEntry(f, items[n - 1])]
  }

  function MessageEntries(fields: seq<Field>, slots: seq<Slot>, n: nat): seq<Entry>
    requires n <= |fields| == |slots| && EncMsg(fields, slots, n).Some?
  {
    if n == 0 then [] else MessageEntries(fields, slots, n - 1) + FieldEntries(fields[n - 1], slots[n - 1])
  }

  lemma EntryIsRead(tag: nat, wireType: nat, body: seq<byte>, rest: seq<byte>)
    requires 1 <= tag < 0x2000_0000 && wireType < 8 && Skip(body + rest, wireType) == Some(rest)
    ensures Entries(Tag(tag, wireType) + body + rest) == Behind([Entry(tag, wireType, body)], Entries(rest))
  {
    hide Varint32, Varint, Skip;
    var n := tag * 8 + wireType;
    var input := Varint(n) + (body + rest);
    assert Tag(tag, wireType) + body + rest == input;
    Varint32RoundTrip(n, body + rest);
    assert DecTag(input) == Tagged(tag, wireType, body + rest);
    assert (body + rest)[..|body|] == body;
  }

  lemma ValueIsRead(f: Field, v: Value, rest: seq<byte>)
    requires 1 <= f.tag < 0x2000_0000
    requires EncValue(f.ltype, v).Some? && |EncValue(f.ltype, v).value| < TWO_32
    ensures Entries(Tag(f.tag, f.ltype.WireType()) + EncValue(f.ltype, v).value + rest)
         == Behind([ValueEntry(f, v)], Entries(rest))
  {
    hide Entries, Tag, EncValue, SkipVarint, Split, Take;
    var body := EncValue(f.ltype, v).value;
    ValueIsPassed(f.ltype, v, rest);
    assert Skip(body + rest, f.ltype.WireType()) == Some(rest);
    EntryIsRead(f.tag, f.ltype.WireType(), body, rest);
  }

  lemma {:induction false} ItemsAreRead(f: Field, items: seq<Value>, k: nat, rest: seq<byte>)
    requires 1 <= f.tag < 0x2000_0000 && k <= |items|
    requires var e := EncItems(Tag(f.tag, f.ltype.WireType()), f.ltype, items, k); e.Some? && |e.value| < TWO_32
    ensures Entries(EncItems(Tag(f.tag, f.ltype.WireType()), f.ltype, items, k).value + rest)
         == Behind(ItemEntries(f, items, k), Entries(rest))
  {
    hide Entries, EncValue, Tag, ValueEntry;
    var tag := Tag(f.tag, f.ltype.WireType());
    if k == 0 {
      assert [] + rest == rest;
      BehindNone(Entries(rest));
    } else {
      var before, v := EncItems(tag, f.ltype, items, k - 1).value, EncValue(f.ltype, items[k - 1]).value;
      assert EncItems(tag, f.ltype, items, k).value + rest == before + (tag + v + rest);
      ValueIsRead(f, items[k - 1], rest);
      ItemsAreRead(f, items, k - 1, tag + v + rest);
      BehindBoth(ItemEntries(f, items, k - 1), [ValueEntry(f, items[k - 1])], Entries(rest));
    }
  }

  lemma BehindNone(others: Option<seq<Entry>>)
    ensures Behind([], others) == others
  {
    assert others.Some? ==> [] + others.value == others.value;
  }

  lemma BehindBoth(a: seq<Entry>, b: seq<Entry>, others: Option<seq<Entry>>)
    ensures Behind(a, Behind(b, others)) == Behind(a + b, others)
  {
    assert others.Some? ==> a + (b + others.value) == a + b + others.value;
  }

  lemma FieldIsRead(f: Field, s: Slot, rest: seq<byte>)
    requires 1 <= f.tag < 0x2000_0000
    requires EncField(f, s).Some? && |EncField(f, s).value| < TWO_32
    ensures Entries(EncField(f, s).value + rest) == Behind(FieldEntries(f, s), Entries(rest))
  {
    hide Entries, EncValue, Tag, EncItems, IsZero, Split, Take, ItemEntries;
    var tag, e := Tag(f.tag, f.ltype.WireType()), EncField(f, s).value;
    if FieldEntries(f, s) == [] && !s.Rep? {
      assert e + rest == rest;
      BehindNone(Entries(rest));
    } else if s.Rep? {
      if s.items == [] {
        assert e + rest == rest;
        BehindNone(Entries(rest));
      } else if f.ltype.Packable() {
        var content := EncItems([], f.ltype, s.items, |s.items|).value;
        assert e + rest == Tag(f.tag, WT_STRING) + (Varint(|content|) + content) + rest;
        SplitDelimited(content, rest);
        EntryIsRead(f.tag, WT_STRING, Varint(|content|) + content, rest);
      } else {
        ItemsAreRead(f, s.items, |s.items|, rest);
      }
    } else {
      ValueIsRead(f, if s.Alt? then s.chosen.value else s.v, rest);
    }
  }

  lemma {:induction false} FieldsAreRead(fields: seq<Field>, slots: seq<Slot>, n: nat, rest: seq<byte>)
    requires TagsFit(fields) && n <= |fields| == |slots|
    requires EncMsg(fields, slots, n).Some? && |EncMsg(fields, slots, n).value| < TWO_32
    ensures Entries(EncMsg(fields, slots, n).value + rest) == Behind(MessageEntries(fields, slots, n), Entries(rest))
  {
    hide Entries, EncField, FieldEntries;
    if n == 0 {
      assert [] + rest == rest;
      BehindNone(Entries(rest));
    } else {
      var f, s := fields[n - 1], slots[n - 1];
      var before, e := EncMsg(fields, slots, n - 1).value, EncField(f, s).value;
      assert before + e + rest == before + (e + rest);
      assert TagFits(f);
      FieldIsRead(f, s, rest);
      FieldsAreRead(fields, slots, n - 1, e + rest);
      BehindBoth(MessageEntries(fields, slots, n - 1), FieldEntries(f, s), Entries(rest));
    }
  }

  /**
   Without the descriptor, the bytes of a message come apart into its fields, in order: an entry for
   each value that is there, and one for all items of a packed array.
   */
  lemma EncodingIsItsFields(fields: seq<Field>, slots: seq<Slot>)
    requires TagsFit(fields) && |fields| == |slots|
    requires Encoding(fields, slots).Some? && |Encoding(fields, slots).value| < TWO_32
    ensures Entries(Encoding(fields, slots).value) == Some(MessageEntries(fields, slots, |fields|))
  {
    hide EncMsg, MessageEntries, TagsFit, DecTag, Skip;
    var e := Encoding(fields, slots).value;
    FieldsAreRead(fields, slots, |fields|, []);
    assert e + [] == e;
    assert MessageEntries(fields, slots, |fields|) + [] == MessageEntries(fields, slots, |fields|);
  }

  // =====================================================================
  // The bytes of some fields
  // =====================================================================

  function Plain(tag: nat, htype: HType, ltype: LType): Field { Field(tag, htype, ltype, Num(0), Layout(0, 0, 4)) }

  function Number(n: int): Slot { One(Num(n)) }

  /** Base 128, the low seven bits first. */
  lemma VarintSamples()
    ensures Varint(3) == [3] && Varint(150) == [0x96, 1] && Varint(270) == [0x8E, 2]
    ensures Varint(86942) == [0x9E, 0xA7, 5]
  {
    assert Varint(1) == [1] && Varint(2) == [2] && Varint(5) == [5];
    assert Varint(679) == [0xA7, 5];
  }

  lemma LowDigits(n: nat, m: nat)
    requires n == 128 * m + 127
    ensures n / 128 == m && n % 128 == 127
  {
  }

  lemma {:induction false} MinusOne(k: nat)
    requires k <= 9
    ensures Varint(2 * Pow128(k) - 1) == seq(k, i => 0xFF) + [1]
  {
    if k > 0 {
      var n: nat, m: nat := 2 * Pow128(k) - 1, 2 * Pow128(k - 1) - 1;
      assert n == 128 * m + 127;
      LowDigits(n, m);
      MinusOne(k - 1);
      assert seq(k, i => 0xFF) == [0xFF] + seq(k - 1, i => 0xFF);
    }
  }

  lemma TaggedIs(f: Field, v: Value, bytes: seq<byte>)
    requires f.htype.Required? && EncValue(f.ltype, v) == Some(bytes) && f.tag * 8 + f.ltype.WireType() < 128
    ensures EncField(f, One(v)) == Some([f.tag * 8 + f.ltype.WireType()] + bytes)
  {
    hide EncValue;
  }

  /** A signed number is its 64-bit complement, so -1 takes ten bytes; with zigzag it takes one. */
  lemma NumberSamples()
    ensures EncField(Plain(1, Required, VarintT(4)), Number(150)) == Some([8] + [0x96, 1])
    ensures EncField(Plain(1, Required, VarintT(4)), Number(-1)) == Some([8] + (seq(9, i => 0xFF) + [1]))
    ensures EncField(Plain(1, Required, SVarintT(4)), Number(-1)) == Some([8] + [1])
    ensures EncField(Plain(1, Required, SVarintT(4)), Number(75)) == Some([8] + [0x96, 1])
  {
    hide EncField, Varint;
    VarintSamples();
    PowersOf128();
    MinusOne(9);
    assert Varint(1) == [1] by { MinusOne(0); }
    TaggedIs(Plain(1, Required, VarintT(4)), Num(150), [0x96, 1]);
    TaggedIs(Plain(1, Required, VarintT(4)), Num(-1), seq(9, i => 0xFF) + [1]);
    TaggedIs(Plain(1, Required, SVarintT(4)), Num(-1), [1]);
    TaggedIs(Plain(1, Required, SVarintT(4)), Num(75), [0x96, 1]);
  }

  lemma LittleEndianSample()
    ensures LittleEndian(0x0102_0304, 4) == [4, 3, 2, 1]
    ensures LittleEndian(0x0102_0304_0506_0708, 8) == [8, 7, 6, 5, 4, 3, 2, 1]
  {
    hide LittleEndian;
    NoBytes();
    Byte(1, 0, 0, []);
    Byte(2, 1, 1, [1]);
    Byte(3, 0x0102, 2, [2, 1]);
    Byte(4, 0x0102_03, 3, [3, 2, 1]);
    Byte(5, 0x0102_0304, 4, [4, 3, 2, 1]);
    Byte(6, 0x0102_0304_05, 5, [5, 4, 3, 2, 1]);
    Byte(7, 0x0102_0304_0506, 6, [6, 5, 4, 3, 2, 1]);
    Byte(8, 0x0102_0304_0506_07, 7, [7, 6, 5, 4, 3, 2, 1]);
  }

  lemma NoBytes()
    ensures LittleEndian(0, 0) == []
  {
  }

  /** One more byte at the low end. */
  lemma Byte(b: byte, n: nat, len: nat, bytes: seq<byte>)
    requires LittleEndian(n, len) == bytes
    ensures LittleEndian(n * 256 + b as nat, len + 1) == [b] + bytes
  {
    var m := n * 256 + b as nat;
    assert m / 256 == n && m % 256 == b as nat;
  }

  lemma FixedSamples()
    ensures EncField(Plain(1, Required, Fixed32T), Number(0x0102_0304)) == Some([0x0D] + [4, 3, 2, 1])
    ensures EncField(Plain(1, Required, Fixed64T), Number(0x0102_0304_0506_0708))
         == Some([9] + [8, 7, 6, 5, 4, 3, 2, 1])
  {
    hide EncField, LittleEndian;
    LittleEndianSample();
    TaggedIs(Plain(1, Required, Fixed32T), Num(0x0102_0304), [4, 3, 2, 1]);
    TaggedIs(Plain(1, Required, Fixed64T), Num(0x0102_0304_0506_0708), [8, 7, 6, 5, 4, 3, 2, 1]);
  }

  /** A string, and a message inside another. */
  lemma DelimitedSamples()
    ensures EncField(Plain(2, Required, StringT(8)), One(Blob([116, 101, 115, 116])))
         == Some([0x12] + [4, 116, 101, 115, 116])
    ensures EncField(Plain(3, Required, SubmessageT([Plain(1, Required, VarintT(4))])), One(Msg([Number(150)])))
         == Some([0x1A] + [3, 8, 0x96, 1])
  {
    hide EncField;
    var text: seq<byte> := [116, 101, 115, 116];
    assert Varint(4) + text == [4, 116, 101, 115, 116];
    TaggedIs(Plain(2, Required, StringT(8)), Blob(text), [4, 116, 101, 115, 116]);
    var fields, slots := [Plain(1, Required, VarintT(4))], [Number(150)];
    NumberSamples();
    assert [] + ([8] + [0x96, 1]) == [8, 0x96, 1];
    assert EncMsg(fields, slots, 0) == Some([]);
    assert EncMsg(fields, slots, 1) == Some([8, 0x96, 1]);
    assert Varint(3) + [8, 0x96, 1] == [3, 8, 0x96, 1];
    TaggedIs(Plain(3, Required, SubmessageT(fields)), Msg(slots), [3, 8, 0x96, 1]);
  }

  lemma SmallVarint(n: nat)
    requires n < 128
    ensures Varint(n) == [n]
  {
  }

  /** Three numbers in one packed array: the tag once, the size, and the numbers. */
  lemma PackedSample()
    ensures EncField(Plain(4, Repeated(3), VarintT(4)), Rep([Num(3), Num(270), Num(86942)]))
         == Some([0x22] + ([6] + [3, 0x8E, 2, 0x9E, 0xA7, 5]))
  {
    hide Varint;
    VarintSamples();
    var items, t := [Num(3), Num(270), Num(86942)], VarintT(4);
    assert Varint(6) == [6] && Varint(0x22) == [0x22] by { SmallVarint(6); SmallVarint(0x22); }
    ItemIs(t, items, 0, [], [3], [3]);
    ItemIs(t, items, 1, [3], [0x8E, 2], [3, 0x8E, 2]);
    ItemIs(t, items, 2, [3, 0x8E, 2], [0x9E, 0xA7, 5], [3, 0x8E, 2, 0x9E, 0xA7, 5]);
    assert EncItems([], t, items, 3) == Some([3, 0x8E, 2, 0x9E, 0xA7, 5]);
  }

  lemma ItemIs(t: LType, items: seq<Value>, k: nat, before: seq<byte>, bytes: seq<byte>, after: seq<byte>)
    requires k < |items| && EncItems([], t, items, k) == Some(before) && EncValue(t, items[k]) == Some(bytes)
    requires after == before + bytes
    ensures EncItems([], t, items, k + 1) == Some(after)
  {
    hide EncValue;
    assert [] + bytes == bytes;
  }
}
