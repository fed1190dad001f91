/**
 nanopb's field iterator (pb_common.c), which walks a descriptor and the struct side by side and
 wraps around, and the decoder's bit set of required fields.
 */
module PbIter {
  import opened Bytes
  import opened PbSchema

  // =====================================================================
  // Where each field is
  // =====================================================================

  /** Members of one union share their place. */
  predicate SharesPlace(prev: Field, f: Field) {
    prev.htype.OneOf? && f.htype.OneOf? && f.layout.dataOffset == PB_SIZE_MAX
  }

  function Extent(f: Field): nat {
    if f.htype.Repeated? then f.layout.dataSize * f.htype.cap else f.layout.dataSize
  }

  /** Offset of field i's data: everything before it, with the paddings. */
  function DataAt(fields: seq<Field>, i: nat): int
    requires i < |fields|
  {
    if i == 0 then fields[0].layout.dataOffset
    else if SharesPlace(fields[i - 1], fields[i]) then DataAt(fields, i - 1)
    else DataAt(fields, i - 1) + Extent(fields[i - 1]) + fields[i].layout.dataOffset
  }

  function SizeAt(fields: seq<Field>, i: nat): int
    requires i < |fields|
  {
    if i > 0 && SharesPlace(fields[i - 1], fields[i]) then SizeAt(fields, i - 1)
    else DataAt(fields, i) + fields[i].layout.sizeOffset
  }

  /** How many of the first n fields are required. */
  function RequiredBefore(fields: seq<Field>, n: nat): (r: nat)
    requires n <= |fields|
    ensures r <= n
  {
    if n == 0 then 0 else RequiredBefore(fields, n - 1) + (if fields[n - 1].htype.Required? then 1 else 0)
  }

  lemma {:induction false} RequiredMonotone(fields: seq<Field>, m: nat, n: nat)
    requires m <= n <= |fields|
    ensures RequiredBefore(fields, m) <= RequiredBefore(fields, n)
    ensures m < n && fields[m].htype.Required? ==> RequiredBefore(fields, m) < RequiredBefore(fields, n)
  {
    if m < n {
      RequiredMonotone(fields, m, n - 1);
    }
  }

  /** The index of the k-th required field. */
  lemma {:induction false} RequiredExists(fields: seq<Field>, n: nat, k: nat) returns (i: nat)
    requires n <= |fields| && k < RequiredBefore(fields, n)
    ensures i < n && fields[i].htype.Required? && RequiredBefore(fields, i) == k
  {
    if k == RequiredBefore(fields, n - 1) {
      i := n - 1;
    } else {
      i := RequiredExists(fields, n - 1, k);
    }
  }

  // =====================================================================
  // Searching
  // =====================================================================

  /** The first field with this tag in [lo, hi). */
  function FindIn(fields: seq<Field>, lo: nat, hi: nat, tag: nat): (r: Option<nat>)
    requires lo <= hi <= |fields|
    ensures r.Some? ==> lo <= r.value < hi && fields[r.value].tag == tag
    ensures r.None? ==> forall i :: lo <= i < hi ==> fields[i].tag != tag
    decreases hi - lo
  {
    if lo == hi then None
    else if fields[lo].tag == tag then Some(lo)
    else FindIn(fields, lo + 1, hi, tag)
  }

  /** The first field with this tag at or after `pos`, going round. */
  function Find(fields: seq<Field>, pos: nat, tag: nat): (r: Option<nat>)
    requires pos <= |fields|
    ensures r.Some? ==> r.value < |fields| && fields[r.value].tag == tag
    ensures r.None? <==> forall i :: 0 <= i < |fields| ==> fields[i].tag != tag
  {
    match FindIn(fields, pos, |fields|, tag)
    case Some(i) => Some(i)
    case None => FindIn(fields, 0, pos, tag)
  }

  ghost predicate DistinctTags(fields: seq<Field>) {
    forall i, j :: 0 <= i < j < |fields| ==> fields[i].tag != fields[j].tag
  }

  /** With distinct tags it does not matter where the search starts. */
  lemma FindFromAnywhere(fields: seq<Field>, pos: nat, i: nat)
    requires DistinctTags(fields) && pos <= |fields| && i < |fields|
    ensures Find(fields, pos, fields[i].tag) == Some(i)
  {
    var r := Find(fields, pos, fields[i].tag);
    assert r.Some?;
  }

  class FieldIter {
    const fields: seq<Field>
    var pos: nat
    var pData: int
    var pSize: int
    var requiredFieldIndex: nat

    ghost predicate Valid()
      reads this
    {
      if fields == [] then pos == 0
      else
        && pos < |fields|
        && pData == DataAt(fields, pos) && pSize == SizeAt(fields, pos)
        && requiredFieldIndex == RequiredBefore(fields, pos)
    }

    /** The tag of the field, or of the terminator. */
    function TagAt(i: nat): nat {
      if i < |fields| then fields[i].tag else 0
    }

    constructor (fields: seq<Field>)
      ensures Valid() && this.fields == fields && pos == 0 && requiredFieldIndex == 0
    {
      this.fields := fields;
      new;
      Begin();
    }

    /** pb_field_iter_begin. */
    method Begin()
      modifies this
      ensures Valid() && pos == 0 && requiredFieldIndex == 0
    {
      pos, requiredFieldIndex := 0, 0;
      var layout := if fields == [] then Layout(0, 0, 0) else fields[0].layout;
      pData := layout.dataOffset;
      pSize := pData + layout.sizeOffset;
    }

    /** pb_field_iter_next: false when it wrapped around, or there is nothing to iterate. */
    method Next() returns (more: bool)
      requires Valid() && forall i :: 0 <= i < |fields| ==> fields[i].tag != 0
      modifies this
      ensures Valid()
      ensures fields == [] ==> !more
      ensures fields != [] ==>
        (more <==> old(pos) + 1 < |fields|) && pos == if more then old(pos) + 1 else 0
    {
      if TagAt(pos) == 0 {
        return false;
      }
      var prev := fields[pos];
      pos := pos + 1;
      if TagAt(pos) == 0 {
        Begin();
        return false;
      }
      var f := fields[pos];
      var prevSize := prev.layout.dataSize;
      if prev.htype.OneOf? && f.htype.OneOf? && f.layout.dataOffset == PB_SIZE_MAX {
        // Members of a union are not advanced over.
        return true;
      } else if prev.htype.Repeated? {
        prevSize := prevSize * prev.htype.cap;
      }
      if prev.htype.Required? {
        requiredFieldIndex := requiredFieldIndex + 1;
      }
      pData := pData + prevSize + f.layout.dataOffset;
      pSize := pData + f.layout.sizeOffset;
      return true;
    }

    /**
     pb_field_iter_find: the wrap-around search agrees with the two scans. Of an empty descriptor
     there is only the terminator, which has tag 0.
     */
    method FindTag(tag: nat) returns (found: bool)
      requires Valid()
      requires forall i :: 0 <= i < |fields| ==> fields[i].tag != 0
      modifies this
      ensures Valid()
      ensures found <==> Find(fields, old(pos), tag).Some? || (fields == [] && tag == 0)
      ensures pos == if found && fields != [] then Find(fields, old(pos), tag).value else old(pos)
    {
      var start := pos;
      if fields == [] {
        return TagAt(pos) == tag;
      }
      var first := true;
      while first || pos != start
        invariant Valid() && start < |fields|
        invariant first ==> pos == start
        invariant !first && pos != start ==>
          if pos > start then FindIn(fields, start, |fields|, tag) == FindIn(fields, pos, |fields|, tag)
          else FindIn(fields, start, |fields|, tag).None? &&
               FindIn(fields, 0, start, tag) == FindIn(fields, pos, start, tag)
        invariant !first && pos == start ==> Find(fields, start, tag).None?
        decreases if first then |fields| else if pos == start then 0
                  else if pos > start then |fields| - pos + start else start - pos
      {
        if TagAt(pos) == tag {
          return true;
        }
        var more := Next();
        first := false;
      }
      return false;
    }
  }

  // =====================================================================
  // Required fields seen so far
  // =====================================================================

  function Repeat32(b: bool, n: nat): (w: seq<bool>)
    ensures |w| == n && forall i :: 0 <= i < n ==> w[i] == b
  {
    if n == 0 then [] else [b] + Repeat32(b, n - 1)
  }

  /** A 32-bit word as its bits, least significant first. */
  type Word32 = w: seq<bool> | |w| == 32 witness Repeat32(false, 32)

  const NO_BITS: Word32 := Repeat32(false, 32)
  const ALL_BITS: Word32 := Repeat32(true, 32)

  /** allbits shifted right by 32 - n. */
  function LowBits(n: nat): (w: Word32)
    requires n <= 32
    ensures forall i :: 0 <= i < 32 ==> (w[i] <==> i < n)
  {
    Repeat32(true, n) + Repeat32(false, 32 - n)
  }

  class RequiredBits {
    const words: array<Word32>
    ghost var seen: set<nat>

    ghost predicate Valid()
      reads this, words
    {
      && words.Length == 2
      && (forall k :: k in seen ==> k < PB_MAX_REQUIRED_FIELDS)
      && forall w, b {:trigger words[w][b]} :: 0 <= w < 2 && 0 <= b < 32 ==> (words[w][b] <==> 32 * w + b in seen)
    }

    constructor ()
      ensures Valid() && seen == {} && fresh(words)
    {
      words := new Word32[2](_ => NO_BITS);
      seen := {};
    }

    method Mark(index: nat)
      requires Valid() && index < PB_MAX_REQUIRED_FIELDS
      modifies this, words
      ensures Valid() && seen == old(seen) + {index}
    {
      words[index / 32] := words[index / 32][index % 32 := true];
      seen := seen + {index};
    }

    /** The check after the last field: whole words first, then the remaining bits. */
    method AllSeen(count: nat) returns (ok: bool)
      requires Valid() && count <= PB_MAX_REQUIRED_FIELDS
      requires forall k :: k in seen ==> k < count
      ensures ok <==> forall k :: 0 <= k < count ==> k in seen
    {
      for i := 0 to count / 32
        invariant forall k :: 0 <= k < 32 * i ==> k in seen
      {
        if words[i] != ALL_BITS {
          var b :| 0 <= b < 32 && !words[i][b];
          assert 32 * i + b !in seen;
          return false;
        }
        forall k | 32 * i <= k < 32 * i + 32 ensures k in seen {
          assert words[i][k - 32 * i];
        }
      }
      if count % 32 != 0 {
        var w := count / 32;
        if words[w] != LowBits(count % 32) {
          var b :| 0 <= b < 32 && words[w][b] != LowBits(count % 32)[b];
          assert words[w][b] <==> 32 * w + b in seen;
          return false;
        }
        forall k | 32 * w <= k < count ensures k in seen {
          assert words[w][k - 32 * w];
        }
      }
      return true;
    }
  }
}
