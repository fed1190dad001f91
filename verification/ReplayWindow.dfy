/**
 The sliding replay window of dtls_record.cc: a 64-bit word and the largest number seen, kept
 in step with the plain set of numbers recorded so far.
 */
module ReplayWindow {
  import opened Bytes

  const WINDOW_SIZE: nat := 64

  // ----- a 64-bit word as its bits, least significant first

  function Zeros(n: nat): (w: seq<bool>)
    ensures |w| == n && forall i :: 0 <= i < n ==> !w[i]
  {
    if n == 0 then [] else [false] + Zeros(n - 1)
  }

  type Word64 = w: seq<bool> | |w| == 64 witness Zeros(64)

  const ZERO_WORD: Word64 := Zeros(64)

  function ShiftLeft(w: Word64, s: nat): (r: Word64)
    ensures forall i :: 0 <= i < 64 ==> r[i] == (i >= s && w[i - s])
  {
    seq(64, i requires 0 <= i < 64 => i >= s && w[i - s])
  }

  function SetBit(w: Word64, i: nat): Word64
    requires i < 64
  {
    w[i := true]
  }

  // ----- the window as a set

  /** The numbers recorded so far and the largest of them (0 before the first). */
  datatype Seen = Seen(numbers: set<nat>, top: nat) {

    ghost predicate Valid() {
      && (forall n <- numbers :: n <= top)
      && (top in numbers || (numbers == {} && top == 0))
    }

    /** Section 4.1.2.6 of RFC 6347: a duplicate, or left of the window. */
    predicate Discards(n: nat) {
      n in numbers || n + WINDOW_SIZE <= top
    }

    function Record(n: nat): (r: Seen)
      ensures Valid() ==> r.Valid()
    {
      Seen(numbers + {n}, Max(top, n))
    }
  }

  const NOTHING_SEEN := Seen({}, 0)

  /** Bit i of the word says whether `w.top - i` was recorded. */
  ghost predicate Refines(bits: Word64, w: Seen) {
    && w.Valid()
    && forall i :: 0 <= i < WINDOW_SIZE ==> bits[i] == (i <= w.top && w.top - i in w.numbers)
  }

  /** dtls1_bitmap_record on the word: slide if the number is new, then set its bit. */
  function RecordWord(bits: Word64, top: nat, n: nat): Word64 {
    var slid := if n <= top then bits
                else if n - top >= WINDOW_SIZE then ZERO_WORD
                else ShiftLeft(bits, n - top);
    var idx := Max(top, n) - n;
    if idx < WINDOW_SIZE then SetBit(slid, idx) else slid
  }

  /** Recording on the word refines recording in the set, for new, old and stale numbers alike. */
  lemma RecordRefines(bits: Word64, w: Seen, n: nat)
    requires Refines(bits, w)
    ensures Refines(RecordWord(bits, w.top, n), w.Record(n))
  {
    var r, next := RecordWord(bits, w.top, n), w.Record(n);
    forall i | 0 <= i < WINDOW_SIZE
      ensures r[i] == (i <= next.top && next.top - i in next.numbers)
    {
      if n > w.top {
        var shift := n - w.top;
        if i >= shift {
          assert next.top - i == w.top - (i - shift);
        } else {
          assert next.top - i > w.top || i > next.top;
        }
      }
    }
  }

  // ----- the bitmap itself

  class Bitmap {
    var bits: Word64
    var maxSeqNum: nat
    ghost var seen: Seen

    ghost predicate Valid()
      reads this
    {
      && maxSeqNum == seen.top < TWO_64
      && Refines(bits, seen)
    }

    constructor ()
      ensures Valid() && seen == NOTHING_SEEN
    {
      bits, maxSeqNum, seen := ZERO_WORD, 0, NOTHING_SEEN;
    }

    method ShouldDiscard(seqNum: nat) returns (discard: bool)
      requires Valid()
      ensures discard <==> seen.Discards(seqNum)
      ensures discard <==> seqNum in seen.numbers || seqNum + 64 <= seen.top
    {
      if seqNum > maxSeqNum {
        return false;
      }
      var idx := maxSeqNum - seqNum;
      return idx >= WINDOW_SIZE || bits[idx];
    }

    method Record(seqNum: nat)
      requires Valid() && seqNum < TWO_64
      modifies this
      ensures Valid() && seen == old(seen).Record(seqNum)
    {
      RecordRefines(bits, seen, seqNum);
      seen := seen.Record(seqNum);
      // Shift the window if necessary.
      if seqNum > maxSeqNum {
        var shift := seqNum - maxSeqNum;
        if shift >= WINDOW_SIZE {
          bits := ZERO_WORD;
        } else {
          bits := ShiftLeft(bits, shift);
        }
        maxSeqNum := seqNum;
      }
      var idx := maxSeqNum - seqNum;
      if idx < WINDOW_SIZE {
        bits := SetBit(bits, idx);
      }
    }

    method Reset()
      modifies this
      ensures Valid() && seen == NOTHING_SEEN
    {
      bits, maxSeqNum, seen := ZERO_WORD, 0, NOTHING_SEEN;
    }
  }
}
