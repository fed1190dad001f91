/**
 Required fields, whatever the bytes: a message decodes only if the tag of every tracked required
 field is among the tags that a plain scan of the input comes across.
 */
module PbRequired {
  import opened Bytes
  import opened PbDecode
  import opened PbEncode
  import opened PbIter
  import opened PbRoundTrip
  import opened PbSchema
  import opened PbVarint

  // =====================================================================
  // Scanning for tags
  // =====================================================================

  /** What follows a value of this type, by its length on the wire alone. */
  function Beyond(t: LType, packed: bool, input: seq<byte>): (r: Option<seq<byte>>)
    ensures r.Some? ==> |r.value| <= |input|
  {
    if t.VarintT? || t.UVarintT? || t.SVarintT? then
      if packed then Behind(Split(input)) else SkipVarint(input)
    else if t.Fixed32T? then Behind(if packed then Split(input) else Take(input, 4))
    else if t.Fixed64T? then Behind(if packed then Split(input) else Take(input, 8))
    else Behind(Split(input))
  }

  function Behind(part: Option<(seq<byte>, seq<byte>)>): Option<seq<byte>> {
    if part.None? then None else Some(part.value.1)
  }

  predicate IsPacked(f: Field, wireType: nat) {
    f.htype.Repeated? && f.ltype.Packable() && wireType == WT_STRING
  }

  /** Past the value behind a tag: by the field's type if the tag is known, by its wire type if not. */
  function Past(fields: seq<Field>, tag: nat, wireType: nat, input: seq<byte>): (r: Option<seq<byte>>)
    ensures r.Some? ==> |r.value| <= |input|
  {
    match Find(fields, 0, tag)
    case None => Skip(input, wireType)
    case Some(i) => Beyond(fields[i].ltype, IsPacked(fields[i], wireType), input)
  }

  /** The tags at the top level of the input, as far as it can be scanned. */
  function Tags(fields: seq<Field>, input: seq<byte>): set<nat>
    decreases |input|
  {
    if input == [] then {}
    else
      match DecTag(input)
      case Malformed => {}
      case EndOfMessage(_) => {}
      case Tagged(tag, wireType, rest) =>
        match Past(fields, tag, wireType, rest)
        case None => {tag}
        case Some(next) => {tag} + Tags(fields, next)
  }

  /** The same by the wire types alone, without a descriptor. */
  function PlainTags(input: seq<byte>): set<nat>
    decreases |input|
  {
    if input == [] then {}
    else
      match DecTag(input)
      case Malformed => {}
      case EndOfMessage(_) => {}
      case Tagged(tag, wireType, rest) =>
        match Skip(rest, wireType)
        case None => {tag}
        case Some(next) => {tag} + PlainTags(next)
  }

  /** Every known field of the input has the wire type of its field. */
  predicate WellTyped(fields: seq<Field>, input: seq<byte>)
    decreases |input|
  {
    input != [] && DecTag(input).Tagged? ==>
      var t := DecTag(input);
      var i := Find(fields, 0, t.tag);
      && (i.Some? ==> t.wireType == fields[i.value].ltype.WireType() || IsPacked(fields[i.value], t.wireType))
      && (Skip(t.rest, t.wireType).Some? ==> WellTyped(fields, Skip(t.rest, t.wireType).value))
  }

  lemma {:induction false} TypedScanIsPlain(fields: seq<Field>, input: seq<byte>)
    requires WellTyped(fields, input)
    ensures Tags(fields, input) == PlainTags(input)
    decreases |input|
  {
    hide DecTag, Find, SkipVarint, Split, Take;
    if input != [] && DecTag(input).Tagged? {
      var t := DecTag(input);
      if Skip(t.rest, t.wireType).Some? {
        TypedScanIsPlain(fields, Skip(t.rest, t.wireType).value);
      }
    }
  }

  // =====================================================================
  // What decodes has its required fields
  // =====================================================================

  lemma {:induction false} VarintPasses(input: seq<byte>, k: nat)
    requires Varint64(input, k).Some?
    ensures SkipVarint(input) == Some(Varint64(input, k).value.1)
    decreases |input|
  {
    if input[0] >= 128 {
      VarintPasses(input[1..], k + 1);
    }
  }

  /** However a value is decoded, it takes up its length on the wire. */
  lemma ValuePasses(t: LType, dest: Value, input: seq<byte>)
    requires DecValue(t, dest, input).Some?
    ensures Beyond(t, false, input) == Some(DecValue(t, dest, input).value.1)
  {
    hide Varint64, SkipVarint, Varint32, DecFrom, Take, ScalarOf;
    if t.VarintT? || t.UVarintT? || t.SVarintT? {
      VarintPasses(input, 0);
    }
  }

  lemma FieldPasses(fields: seq<Field>, slots: seq<Slot>, i: nat, wireType: nat, input: seq<byte>)
    requires |slots| == |fields| && i < |fields| && DecField(fields, slots, i, wireType, input).Some?
    ensures Beyond(fields[i].ltype, IsPacked(fields[i], wireType), input)
         == Some(DecField(fields, slots, i, wireType, input).value.1)
  {
    hide DecValue, Split, DecItems, Choose, SkipVarint, Take, Initial;
    var f, s := fields[i], slots[i];
    if !IsPacked(f, wireType) {
      var dest := if !(f.htype.Repeated? || f.htype.OneOf?) then Dest(s)
                  else if f.ltype.SubmessageT? then Msg(Initial(f.ltype.fields)) else Num(0);
      assert DecOne(f, s, input) == DecValue(f.ltype, dest, input);
      ValuePasses(f.ltype, dest, input);
    }
  }

  lemma FindsTheSame(fields: seq<Field>, pos: nat, tag: nat)
    requires DistinctTags(fields) && pos <= |fields|
    ensures Find(fields, pos, tag) == Find(fields, 0, tag)
  {
    if Find(fields, pos, tag).Some? {
      FindFromAnywhere(fields, 0, Find(fields, pos, tag).value);
    }
  }

  /** What was seen before or is scanned is all that can complete the message. */
  lemma {:induction false} RequiredAreScanned(
      fields: seq<Field>, input: seq<byte>, slots: seq<Slot>, seen: set<nat>, pos: nat, i: nat)
    requires DistinctTags(fields) && |slots| == |fields| && pos <= |fields|
    requires DecFrom(fields, input, slots, seen, pos).Some?
    requires i < |fields| && Tracked(fields, i)
    ensures i in seen || fields[i].tag in Tags(fields, input)
    decreases |input|
  {
    hide DecTag, Find, DecField, Skip, Beyond, DistinctTags, Tracked, IsPacked;
    if input != [] && DecTag(input).Tagged? {
      var t := DecTag(input);
      FindsTheSame(fields, pos, t.tag);
      match Find(fields, pos, t.tag) {
        case None =>
          RequiredAreScanned(fields, Skip(t.rest, t.wireType).value, slots, seen, pos, i);
        case Some(j) =>
          FieldPasses(fields, slots, j, t.wireType, t.rest);
          var next := DecField(fields, slots, j, t.wireType, t.rest).value;
          RequiredAreScanned(fields, next.1, next.0, seen + {j}, j, i);
      }
    }
  }

  /** Whatever the bytes, a message that decodes has the tag of every tracked required field. */
  lemma DecodedHasRequired(fields: seq<Field>, input: seq<byte>, i: nat)
    requires DistinctTags(fields) && Decode(fields, input).Some?
    requires i < |fields| && Tracked(fields, i)
    ensures fields[i].tag in Tags(fields, input)
    ensures WellTyped(fields, input) ==> fields[i].tag in PlainTags(input)
  {
    hide Tags, Tracked, DistinctTags, PlainTags, WellTyped, DecFrom;
    RequiredAreScanned(fields, input, Initial(fields), {}, 0, i);
    if WellTyped(fields, input) {
      TypedScanIsPlain(fields, input);
    }
  }

  // =====================================================================
  // What lacks a required field is refused
  // =====================================================================

  lemma {:induction false} VarintIsPassed(n: nat, rest: seq<byte>)
    ensures SkipVarint(Varint(n) + rest) == Some(rest)
  {
    var input := Varint(n) + rest;
    if n < 128 {
      assert input[1..] == rest;
    } else {
      assert input[1..] == Varint(n / 128) + rest;
      VarintIsPassed(n / 128, rest);
    }
  }

  lemma ValueIsPassed(t: LType, v: Value, rest: seq<byte>)
    requires EncValue(t, v).Some? && |EncValue(t, v).value| < TWO_32
    ensures Beyond(t, false, EncValue(t, v).value + rest) == Some(rest)
  {
    hide SkipVarint, Varint, Split, ToUnsigned64, ZigZag, LittleEndian;
    match (t, v) {
      case (VarintT(_), Num(n)) => VarintIsPassed(ToUnsigned64(n), rest);
      case (UVarintT(_), Num(n)) => VarintIsPassed(ToUnsigned64(n), rest);
      case (SVarintT(_), Num(n)) => VarintIsPassed(ZigZag(n), rest);
      case (Fixed32T, Num(n)) => TakeFront(LittleEndian(ToUnsigned64(n), 4), rest);
      case (Fixed64T, Num(n)) => TakeFront(LittleEndian(ToUnsigned64(n), 8), rest);
      case (SubmessageT(fields), Msg(slots)) => SplitDelimited(EncMsg(fields, slots, |fields|).value, rest);
      case (_, Blob(b)) => SplitDelimited(b, rest);
    }
  }

  /** A tag, behind it a value of its field's length, and the rest. */
  lemma TagIsScanned(fields: seq<Field>, i: nat, wireType: nat, body: seq<byte>, rest: seq<byte>)
    requires DistinctTags(fields) && i < |fields| && 1 <= fields[i].tag < 0x2000_0000 && wireType < 8
    requires Beyond(fields[i].ltype, IsPacked(fields[i], wireType), body + rest) == Some(rest)
    ensures Tags(fields, Tag(fields[i].tag, wireType) + body + rest) == {fields[i].tag} + Tags(fields, rest)
  {
    hide Beyond, Varint32, Find, DistinctTags, Varint, Skip, IsPacked;
    var n := fields[i].tag * 8 + wireType;
    var input := Varint(n) + (body + rest);
    assert Tag(fields[i].tag, wireType) + body + rest == input;
    Varint32RoundTrip(n, body + rest);
    FindFromAnywhere(fields, 0, i);
    assert DecTag(input) == Tagged(fields[i].tag, wireType, body + rest);
  }

  lemma {:induction false} ItemsAreScanned(fields: seq<Field>, i: nat, items: seq<Value>, k: nat, rest: seq<byte>)
    requires DistinctTags(fields) && i < |fields| && 1 <= fields[i].tag < 0x2000_0000 && k <= |items|
    requires !IsPacked(fields[i], fields[i].ltype.WireType())
    requires var e := EncItems(Tag(fields[i].tag, fields[i].ltype.WireType()), fields[i].ltype, items, k);
      e.Some? && |e.value| < TWO_32
    ensures var e := EncItems(Tag(fields[i].tag, fields[i].ltype.WireType()), fields[i].ltype, items, k).value;
      Tags(fields, e + rest) <= {fields[i].tag} + Tags(fields, rest)
  {
    hide Tags, EncValue, Beyond, DistinctTags, Tag, IsPacked;
    var f, tag := fields[i], Tag(fields[i].tag, fields[i].ltype.WireType());
    if k == 0 {
      assert [] + rest == rest;
    } else {
      var before, v := EncItems(tag, f.ltype, items, k - 1).value, EncValue(f.ltype, items[k - 1]).value;
      assert EncItems(tag, f.ltype, items, k).value + rest == before + (tag + v + rest);
      ValueIsPassed(f.ltype, items[k - 1], rest);
      TagIsScanned(fields, i, f.ltype.WireType(), v, rest);
      ItemsAreScanned(fields, i, items, k - 1, tag + v + rest);
    }
  }

  /** A field leaves nothing but its tag. */
  lemma FieldIsScanned(fields: seq<Field>, i: nat, s: Slot, rest: seq<byte>)
    requires DistinctTags(fields) && i < |fields| && 1 <= fields[i].tag < 0x2000_0000
    requires EncField(fields[i], s).Some? && |EncField(fields[i], s).value| < TWO_32
    ensures Tags(fields, EncField(fields[i], s).value + rest) <= {fields[i].tag} + Tags(fields, rest)
  {
    hide Tags, EncValue, DistinctTags, Tag, EncItems, IsDefault, Split, SkipVarint, Take;
    var f := fields[i];
    var tag, e := Tag(f.tag, f.ltype.WireType()), EncField(f, s).value;
    if e == [] {
      assert e + rest == rest;
    } else if s.Rep? {
      if f.ltype.Packable() {
        var content := EncItems([], f.ltype, s.items, |s.items|).value;
        assert e + rest == Tag(f.tag, WT_STRING) + (Varint(|content|) + content) + rest;
        SplitDelimited(content, rest);
        TagIsScanned(fields, i, WT_STRING, Varint(|content|) + content, rest);
      } else {
        ItemsAreScanned(fields, i, s.items, |s.items|, rest);
      }
    } else {
      var v := if s.Alt? then s.chosen.value else s.v;
      ValueIsPassed(f.ltype, v, rest);
      TagIsScanned(fields, i, f.ltype.WireType(), EncValue(f.ltype, v).value, rest);
    }
  }

  /** The tags of the first n fields. */
  function TagsOf(fields: seq<Field>, n: nat): set<nat>
    requires n <= |fields|
  {
    if n == 0 then {} else TagsOf(fields, n - 1) + {fields[n - 1].tag}
  }

  lemma {:induction false} TagsOfIs(fields: seq<Field>, n: nat, tag: nat)
    requires n <= |fields|
    ensures tag in TagsOf(fields, n) <==> exists k :: 0 <= k < n && fields[k].tag == tag
  {
    if n > 0 {
      TagsOfIs(fields, n - 1, tag);
    }
  }

  /** Of required fields alone, the first 64 are tracked. */
  lemma SixtyFourAreTracked(fields: seq<Field>, i: nat)
    requires i < |fields| && forall k :: 0 <= k < |fields| ==> fields[k].htype.Required?
    ensures Tracked(fields, i) <==> i < 64
  {
    AllBefore(fields, i);
  }

  lemma {:induction false} AllBefore(fields: seq<Field>, i: nat)
    requires i <= |fields| && forall k :: 0 <= k < |fields| ==> fields[k].htype.Required?
    ensures RequiredBefore(fields, i) == i
  {
    if i > 0 {
      AllBefore(fields, i - 1);
    }
  }

  /** The encoding of some fields of a descriptor leaves nothing but their tags. */
  lemma {:induction false} MessageIsScanned(
      fields: seq<Field>, some_: seq<Field>, slots: seq<Slot>, n: nat, rest: seq<byte>)
    requires DistinctTags(fields) && TagsFit(fields) && n <= |some_| == |slots|
    requires forall k :: 0 <= k < |some_| ==> some_[k] in fields
    requires EncMsg(some_, slots, n).Some? && |EncMsg(some_, slots, n).value| < TWO_32
    ensures Tags(fields, EncMsg(some_, slots, n).value + rest) <= TagsOf(some_, n) + Tags(fields, rest)
    decreases n
  {
    hide Tags, EncField, DistinctTags;
    if n == 0 {
      assert [] + rest == rest;
    } else {
      var f := some_[n - 1];
      var i :| 0 <= i < |fields| && fields[i] == f;
      assert TagFits(fields[i]);
      var before, e := EncMsg(some_, slots, n - 1).value, EncField(f, slots[n - 1]).value;
      assert before + e + rest == before + (e + rest);
      FieldIsScanned(fields, i, slots[n - 1], rest);
      MessageIsScanned(fields, some_, slots, n - 1, e + rest);
    }
  }

  function Without<T>(s: seq<T>, i: nat): (r: seq<T>)
    requires i < |s|
    ensures |r| == |s| - 1
  {
    s[..i] + s[i + 1..]
  }

  /** The message with one tracked required field left out is refused, whatever the others hold. */
  lemma MissingIsRefused(fields: seq<Field>, slots: seq<Slot>, i: nat)
    requires DistinctTags(fields) && TagsFit(fields)
    requires i < |fields| == |slots| && Tracked(fields, i)
    requires var e := Encoding(Without(fields, i), Without(slots, i)); e.Some? && |e.value| < TWO_32
    ensures Decode(fields, Encoding(Without(fields, i), Without(slots, i)).value).None?
  {
    hide Tags, PlainTags, EncMsg, DecFrom, Tracked, WellTyped;
    var others, e := Without(fields, i), Encoding(Without(fields, i), Without(slots, i)).value;
    MessageIsScanned(fields, others, Without(slots, i), |others|, []);
    assert e + [] == e;
    NoTags(fields);
    TagsOfIs(others, |others|, fields[i].tag);
    forall k | 0 <= k < |others| ensures others[k].tag != fields[i].tag {
      assert others[k] == fields[if k < i then k else k + 1];
    }
    if Decode(fields, e).Some? {
      DecodedHasRequired(fields, e, i);
    }
  }

  lemma NoTags(fields: seq<Field>)
    ensures Tags(fields, []) == {}
  {
  }

  // ----- where the wire types are not those of the fields

  function TwoNumbers(): seq<Field> {
    [Field(1, Required, UVarintT(4), Num(0), Layout(0, 0, 4)), Field(2, Optional, UVarintT(4), Num(0), Layout(0, 0, 4))]
  }

  lemma TagsOfBoth()
    ensures DecTag([0x12, 1, 8, 5]) == Tagged(2, 2, [1, 8, 5]) && DecTag([8, 5]) == Tagged(1, 0, [5])
    ensures Find(TwoNumbers(), 0, 2) == Some(1) && Find(TwoNumbers(), 1, 1) == Some(0)
  {
  }

  lemma NumberField(fields: seq<Field>, slots: seq<Slot>, i: nat, wireType: nat, input: seq<byte>)
    requires |slots| == |fields| && i < |fields| && fields[i].ltype == UVarintT(4)
    requires fields[i].htype.Required? || fields[i].htype.Optional?
    requires input != [] && input[0] < 128
    ensures var v := Num(input[0] as int);
      DecField(fields, slots, i, wireType, input)
        == Some((slots[i := if fields[i].htype.Optional? then Opt(true, v) else One(v)], input[1..]))
  {
    hide DecFrom, DecBlob, Split, Initial;
    var f, n := fields[i], input[0] as nat;
    assert n % 128 == n && Varint64(input, 0) == Some((n, input[1..]));
    assert DecScalar(f.ltype, input) == Some((Num(n), input[1..]));
    assert DecOne(f, slots[i], input) == DecValue(f.ltype, Dest(slots[i]), input);
  }

  lemma FieldsOfBoth(slots: seq<Slot>)
    requires |slots| == 2
    ensures DecField(TwoNumbers(), slots, 1, 2, [1, 8, 5]) == Some((slots[1 := Opt(true, Num(1))], [8, 5]))
    ensures DecField(TwoNumbers(), slots, 0, 0, [5]) == Some((slots[0 := One(Num(5))], []))
  {
    hide DecField;
    NumberField(TwoNumbers(), slots, 1, 2, [1, 8, 5]);
    NumberField(TwoNumbers(), slots, 0, 0, [5]);
    assert [1, 8, 5][1..] == [8, 5] && [5][1..] == [];
  }

  lemma RequiredOfBoth()
    ensures AllRequired(TwoNumbers(), {1, 0})
  {
  }

  lemma PlainTagsOfBoth()
    ensures 1 !in PlainTags([0x12, 1, 8, 5])
  {
    hide DecFrom;
    var rest: seq<byte>, content: seq<byte>, after: seq<byte> := [1, 8, 5], [8], [5];
    assert Skip(rest, 2) == Some(after) by {
      var b: seq<byte> := [8, 5];
      assert b[..1] == content && b[1..] == after;
      assert Varint32(rest) == Some((1, b)) && Take(b, 1) == Some((content, after));
    }
    assert DecTag(after) == Tagged(0, 5, []);
    assert Skip([], 5) == None;
    assert PlainTags(after) == {0};
    assert DecTag([0x12, 1, 8, 5]) == Tagged(2, 2, rest);
  }

  /**
   The decoder goes by the field's type and not by the wire type, so a required field can be where
   the wire types do not show it: as length-delimited, tag 2 hides tag 1.
   */
  lemma WrongTypeHidesTag()
    ensures var input := [0x12, 1, 8, 5];
      Decode(TwoNumbers(), input) == Some(([One(Num(5)), Opt(true, Num(1))], [])) && 1 !in PlainTags(input)
  {
    hide DecField, DecFrom, DecTag, Find, AllRequired;
    var fields, input: seq<byte>, later: seq<byte> := TwoNumbers(), [0x12, 1, 8, 5], [8, 5];
    TagsOfBoth();
    FieldsOfBoth(Initial(fields));
    DecFromUnfold(fields, input, Initial(fields), {}, 0);
    var slots := Initial(fields)[1 := Opt(true, Num(1))];
    DecFromUnfold(fields, later, slots, {1}, 1);
    FieldsOfBoth(slots);
    DecFromUnfold(fields, [], slots[0 := One(Num(5))], {1, 0}, 0);
    assert slots[0 := One(Num(5))] == [One(Num(5)), Opt(true, Num(1))];
    assert {1} + {0} == {1, 0} && {} + {1} == {1};
    assert AllRequired(fields, {1, 0}) by { RequiredOfBoth(); }
    PlainTagsOfBoth();
  }
}
