/**
 The DTLS record layer of dtls_record.cc and dtls_method.cc: how records get their numbers
 when they are sealed, and how the reader decides which records to accept.
 */
module DtlsRecord {
  import opened Bytes
  import opened ReplayWindow

  const RT_HEADER_LENGTH: nat := 13
  const MAX_PLAIN_LENGTH: nat := 16384
  const MAX_ENCRYPTED_LENGTH: nat := 16384 + 256 + 64
  const DTLS_VERSION_MAJOR: nat := 0xfe

  const RT_CHANGE_CIPHER_SPEC: byte := 20
  const RT_ALERT: byte := 21
  const RT_HANDSHAKE: byte := 22
  const RT_APPLICATION_DATA: byte := 23

  /**
   The cipher of one epoch. `seal` and `open` take the 8-byte record number, the type, the
   version and the text; sealing may fail, opening fails on text that does not authenticate.
   */
  datatype Aead = Aead(
    isNull: bool,
    version: nat,
    nonceLen: nat,
    maxOverhead: nat,
    seal: (seq<byte>, byte, nat, seq<byte>) -> Option<seq<byte>>,
    open: (seq<byte>, byte, nat, seq<byte>) -> Option<seq<byte>>)

  /** What `receiver` must do with text `sender` sealed. */
  ghost predicate Matching(sender: Aead, receiver: Aead) {
    forall n, t, v, p :: sender.seal(n, t, v, p).Some? ==>
      receiver.open(n, t, v, sender.seal(n, t, v, p).value) == Some(p)
  }

  ghost predicate Bounded(aead: Aead) {
    && aead.version < TWO_16
    && aead.nonceLen <= aead.maxOverhead
    && forall n, t, v, p :: aead.seal(n, t, v, p).Some? ==>
         |aead.seal(n, t, v, p).value| <= |p| + aead.maxOverhead
  }

  lemma Pow256Six()
    ensures Pow256(6) == TWO_48 && Pow256(2) == TWO_16 && Pow256(8) == TWO_64
  {
    assert Pow256(1) == 256;
    assert Pow256(2) == 256 * Pow256(1);
    assert Pow256(3) == 256 * Pow256(2);
    assert Pow256(4) == 256 * Pow256(3);
    assert Pow256(5) == 256 * Pow256(4);
    assert Pow256(6) == 256 * Pow256(5);
    assert Pow256(7) == 256 * Pow256(6);
    assert Pow256(8) == 256 * Pow256(7);
  }

  /** A record number is its epoch and 48 bits of sequence. */
  lemma NumberSplits(sequence: seq<byte>)
    requires |sequence| == 8
    ensures BigEndian(sequence) == BigEndian(sequence[..2]) * TWO_48 + BigEndian(sequence[2..])
    ensures BigEndian(sequence[..2]) < TWO_16 && BigEndian(sequence[2..]) < TWO_48
    ensures BigEndian(sequence) < TWO_64
  {
    Pow256Six();
    assert sequence == sequence[..2] + sequence[2..];
    BigEndianSplit(sequence[..2], sequence[2..]);
    BigEndianBound(sequence[..2]);
    BigEndianBound(sequence[2..]);
    BigEndianBound(sequence);
  }

  method ToU64Be(sequence: seq<byte>) returns (r: nat)
    requires |sequence| == 8
    ensures r == BigEndian(sequence) < TWO_64
  {
    r := 0;
    for i := 0 to 8
      invariant r == BigEndian(sequence[..i])
    {
      assert sequence[..i + 1][..i] == sequence[..i];
      r := r * 256 + sequence[i];
    }
    assert sequence[..8] == sequence;
    NumberSplits(sequence);
  }

  // =====================================================================
  // Writing: record numbers
  // =====================================================================

  lemma {:induction false} AllOnes(s: seq<byte>)
    requires forall k :: 0 <= k < |s| ==> s[k] == 255
    ensures BigEndian(s) == Pow256(|s|) - 1
  {
    if s != [] {
      AllOnes(s[..|s| - 1]);
    }
  }

  lemma {:induction false} AllZeros(s: seq<byte>)
    requires forall k :: 0 <= k < |s| ==> s[k] == 0
    ensures BigEndian(s) == 0
  {
    if s != [] {
      AllZeros(s[..|s| - 1]);
    }
  }

  lemma AppendByte(head: seq<byte>, b: byte)
    ensures BigEndian(head + [b]) == BigEndian(head) * 256 + b
  {
    assert (head + [b])[..|head|] == head;
  }

  lemma Distribute(x: nat, p: nat)
    ensures (x + 1) * p == x * p + p
  {
  }

  lemma ZerosTail(head: seq<byte>, zeros: seq<byte>)
    requires forall k :: 0 <= k < |zeros| ==> zeros[k] == 0
    ensures BigEndian(head + zeros) == BigEndian(head) * Pow256(|zeros|)
  {
    BigEndianSplit(head, zeros);
    AllZeros(zeros);
  }

  lemma OnesTail(head: seq<byte>, ones: seq<byte>)
    requires forall k :: 0 <= k < |ones| ==> ones[k] == 255
    ensures BigEndian(head + ones) == BigEndian(head) * Pow256(|ones|) + Pow256(|ones|) - 1
  {
    BigEndianSplit(head, ones);
    AllOnes(ones);
  }

  /** Carrying through a run of 255s adds one. */
  lemma CarryAddsOne(head: seq<byte>, b: byte, ones: seq<byte>, zeros: seq<byte>)
    requires |ones| == |zeros| && b < 255
    requires forall k :: 0 <= k < |ones| ==> ones[k] == 255 && zeros[k] == 0
    ensures BigEndian(head + [b + 1] + zeros) == BigEndian(head + [b] + ones) + 1
  {
    var low, high := head + [b], head + [b + 1];
    assert BigEndian(high) == BigEndian(low) + 1 by {
      AppendByte(head, b);
      AppendByte(head, b + 1);
    }
    ZerosTail(high, zeros);
    OnesTail(low, ones);
    Distribute(BigEndian(low), Pow256(|ones|));
  }

  /** ssl_record_sequence_update on the low six bytes of an 8-byte sequence. */
  method SequenceUpdate(sequence: array<byte>) returns (ok: bool)
    requires sequence.Length == 8
    modifies sequence
    ensures sequence[..2] == old(sequence[..2])
    ensures ok == (BigEndian(old(sequence[2..])) + 1 < TWO_48)
    ensures BigEndian(sequence[2..]) == (BigEndian(old(sequence[2..])) + 1) % TWO_48
  {
    Pow256Six();
    ghost var before := sequence[..];
    var i := 8;
    while i > 2
      invariant 2 <= i <= 8
      invariant sequence[..i] == before[..i]
      invariant forall k :: i <= k < 8 ==> before[k] == 255 && sequence[k] == 0
    {
      i := i - 1;
      if sequence[i] == 255 {
        sequence[i] := 0;
      } else {
        sequence[i] := sequence[i] + 1;
        assert before[2..] == before[2..i] + [before[i]] + before[i + 1..];
        assert sequence[2..] == before[2..i] + [before[i] + 1] + sequence[i + 1..];
        CarryAddsOne(before[2..i], before[i], before[i + 1..], sequence[i + 1..]);
        assert old(sequence[2..]) == before[2..];
        BigEndianBound(sequence[2..]);
        return true;
      }
    }
    assert old(sequence[2..]) == before[2..];
    AllOnes(before[2..]);
    AllZeros(sequence[2..]);
    return false;
  }

  datatype SealOutcome = Refused | TooLong | Sealed

  datatype WriteEvent = Seal(previous: bool, outcome: SealOutcome) | ChangeState

  /**
   The write side's counters. `next` and `last` are what the code keeps for the current and
   the previous epoch; `wrapped` and `lastWrapped` remember that a counter ran over.
   */
  datatype WriteNumbers = WriteNumbers(
    epoch: nat, next: nat, last: nat, wrapped: bool, lastWrapped: bool)
  {
    ghost predicate Valid() {
      epoch < TWO_16 && next < TWO_48 && last < TWO_48
    }

    /** Section 4.1 of RFC 6347: the number a sealed record carries. */
    ghost function Number(previous: bool): (nat, nat)
      requires previous ==> epoch >= 1
    {
      if previous then (epoch - 1, last) else (epoch, next)
    }

    ghost predicate Enabled(e: WriteEvent) {
      e.Seal? && e.previous ==> epoch >= 1
    }

    ghost function Step(e: WriteEvent): (r: WriteNumbers)
      requires Valid() && Enabled(e)
      ensures r.Valid()
    {
      match e
      case ChangeState => WriteNumbers((epoch + 1) % TWO_16, 0, next, false, wrapped)
      case Seal(previous, outcome) =>
        if outcome.Refused? then this
        else if previous then
          this.(last := (last + 1) % TWO_48, lastWrapped := lastWrapped || last + 1 == TWO_48)
        else
          this.(next := (next + 1) % TWO_48, wrapped := wrapped || next + 1 == TWO_48)
    }

    /** The numbers that leave the machine in this step: none or one. */
    ghost function Emitted(e: WriteEvent): seq<(nat, nat)>
      requires Valid() && Enabled(e)
    {
      if e.Seal? && e.outcome.Sealed? && Number(e.previous).1 + 1 < TWO_48
      then [Number(e.previous)] else []
    }

    /** This step seals on a counter that already ran over. */
    ghost predicate Reuses(e: WriteEvent) {
      e.Seal? && !e.outcome.Refused? && (if e.previous then lastWrapped else wrapped)
    }
  }

  const FIRST_NUMBERS := WriteNumbers(0, 0, 0, false, false)

  /** The counters after a run, and the numbers it emitted, oldest first. */
  ghost function Counters(events: seq<WriteEvent>): (w: WriteNumbers)
    requires Runnable(events)
    ensures w.Valid()
    decreases |events|, 1
  {
    if events == [] then FIRST_NUMBERS
    else Counters(events[..|events| - 1]).Step(events[|events| - 1])
  }

  /** The previous epoch is only used once there is one. */
  ghost predicate Runnable(events: seq<WriteEvent>)
    decreases |events|, 0
  {
    events == [] ||
    (Runnable(events[..|events| - 1]) &&
     Counters(events[..|events| - 1]).Enabled(events[|events| - 1]))
  }

  ghost function Numbers(events: seq<WriteEvent>): seq<(nat, nat)>
    requires Runnable(events)
  {
    if events == [] then []
    else
      var before := events[..|events| - 1];
      Numbers(before) + Counters(before).Emitted(events[|events| - 1])
  }

  ghost predicate ReusesCounter(events: seq<WriteEvent>)
    requires Runnable(events)
  {
    events != [] &&
    (ReusesCounter(events[..|events| - 1]) ||
     Counters(events[..|events| - 1]).Reuses(events[|events| - 1]))
  }

  ghost function Changes(events: seq<WriteEvent>): nat {
    if events == [] then 0
    else Changes(events[..|events| - 1]) + (if events[|events| - 1].ChangeState? then 1 else 0)
  }

  ghost predicate Distinct<T>(s: seq<T>) {
    forall i, j :: 0 <= i < j < |s| ==> s[i] != s[j]
  }

  /** What holds of the emitted numbers as long as no counter is reused. */
  ghost predicate NumbersBelow(w: WriteNumbers, numbers: seq<(nat, nat)>) {
    forall i :: 0 <= i < |numbers| ==>
      && numbers[i].0 <= w.epoch
      && (numbers[i].0 == w.epoch && !w.wrapped ==> numbers[i].1 < w.next)
      && (numbers[i].0 + 1 == w.epoch && !w.lastWrapped ==> numbers[i].1 < w.last)
  }

  lemma {:induction false} EpochCounts(events: seq<WriteEvent>)
    requires Runnable(events) && Changes(events) < TWO_16
    ensures Counters(events).epoch == Changes(events)
  {
    if events != [] {
      EpochCounts(events[..|events| - 1]);
    }
  }

  lemma NumbersBelowStep(w: WriteNumbers, numbers: seq<(nat, nat)>, e: WriteEvent)
    requires w.Valid() && w.Enabled(e) && NumbersBelow(w, numbers)
    requires e.ChangeState? ==> w.epoch + 1 < TWO_16
    ensures NumbersBelow(w.Step(e), numbers + w.Emitted(e))
  {
    var w', all := w.Step(e), numbers + w.Emitted(e);
    forall i | 0 <= i < |all|
      ensures all[i].0 <= w'.epoch
      ensures all[i].0 == w'.epoch && !w'.wrapped ==> all[i].1 < w'.next
      ensures all[i].0 + 1 == w'.epoch && !w'.lastWrapped ==> all[i].1 < w'.last
    {
      if i < |numbers| {
        assert all[i] == numbers[i];
      } else {
        assert e.Seal? && all[i] == w.Number(e.previous);
      }
    }
  }

  lemma {:induction false} NumbersStayBelow(events: seq<WriteEvent>)
    requires Runnable(events) && Changes(events) < TWO_16
    ensures NumbersBelow(Counters(events), Numbers(events))
  {
    hide NumbersBelow, WriteNumbers.Step, WriteNumbers.Emitted;
    if events == [] {
      NoNumbersBelow();
    } else {
      var before, e := events[..|events| - 1], events[|events| - 1];
      NumbersStayBelow(before);
      EpochCounts(before);
      NumbersBelowStep(Counters(before), Numbers(before), e);
    }
  }

  lemma NoNumbersBelow()
    ensures NumbersBelow(FIRST_NUMBERS, [])
  {
  }

  /** One direction: without reuse of a counter all numbers differ. */
  lemma {:induction false} FreshCountersGiveDistinctNumbers(events: seq<WriteEvent>)
    requires Runnable(events) && Changes(events) < TWO_16 && !ReusesCounter(events)
    ensures Distinct(Numbers(events))
  {
    if events != [] {
      var before := events[..|events| - 1];
      FreshCountersGiveDistinctNumbers(before);
      NumbersStayBelow(before);
    }
  }

  /** A counter that moved emitted its number 0, when no sealed record was too long. */
  ghost predicate ZeroEmitted(w: WriteNumbers, numbers: seq<(nat, nat)>) {
    && (w.next > 0 || w.wrapped ==> (w.epoch, 0) in numbers)
    && (w.epoch >= 1 && (w.last > 0 || w.lastWrapped) ==> (w.epoch - 1, 0) in numbers)
  }

  lemma ZeroEmittedStep(w: WriteNumbers, numbers: seq<(nat, nat)>, e: WriteEvent)
    requires w.Valid() && w.Enabled(e) && ZeroEmitted(w, numbers)
    requires if e.Seal? then !e.outcome.TooLong? else w.epoch + 1 < TWO_16
    ensures ZeroEmitted(w.Step(e), numbers + w.Emitted(e))
  {
    var emitted := w.Emitted(e);
    assert forall x <- numbers :: x in numbers + emitted;
    if e.Seal? && emitted != [] {
      assert w.Number(e.previous) in emitted;
      assert w.Number(e.previous) in numbers + emitted;
    }
  }

  lemma {:induction false} MovedCountersEmittedZero(events: seq<WriteEvent>)
    requires Runnable(events) && Changes(events) < TWO_16
    requires forall e <- events :: e.Seal? ==> !e.outcome.TooLong?
    ensures ZeroEmitted(Counters(events), Numbers(events))
  {
    if events != [] {
      var before, e := events[..|events| - 1], events[|events| - 1];
      assert e in events && forall x <- before :: x in events;
      MovedCountersEmittedZero(before);
      EpochCounts(before);
      ZeroEmittedStep(Counters(before), Numbers(before), e);
    }
  }

  /** A wrapped counter restarts at 0; while it is not reused it stays there. */
  lemma {:induction false} WrappedCounterIsZero(events: seq<WriteEvent>)
    requires Runnable(events) && !ReusesCounter(events)
    ensures Counters(events).wrapped ==> Counters(events).next == 0
    ensures Counters(events).lastWrapped ==> Counters(events).last == 0
  {
    if events != [] {
      WrappedCounterIsZero(events[..|events| - 1]);
    }
  }

  /** The other direction: sealing on a counter that ran over repeats a number. */
  lemma {:induction false} ReusedCounterRepeatsNumber(events: seq<WriteEvent>)
    requires Runnable(events) && Changes(events) < TWO_16 && ReusesCounter(events)
    requires forall e <- events :: e.Seal? ==> !e.outcome.TooLong?
    ensures !Distinct(Numbers(events))
  {
    var before, e := events[..|events| - 1], events[|events| - 1];
    if ReusesCounter(before) {
      ReusedCounterRepeatsNumber(before);
      var i, j :| 0 <= i < j < |Numbers(before)| && Numbers(before)[i] == Numbers(before)[j];
      assert Numbers(events)[i] == Numbers(events)[j];
    } else {
      WrappedCounterIsZero(before);
      MovedCountersEmittedZero(before);
      var w, n := Counters(before), |Numbers(before)|;
      assert w.Number(e.previous).1 == 0;
      assert Numbers(events)[n] == w.Number(e.previous);
      var i :| 0 <= i < n && Numbers(before)[i] == w.Number(e.previous);
      assert Numbers(events)[i] == Numbers(events)[n];
    }
  }

  /**
   Record numbers are unique over a whole connection exactly when nobody seals on a counter
   that has run over, even though retransmission alternates between two epochs.
   */
  lemma RecordNumbersUnique(events: seq<WriteEvent>)
    requires Runnable(events) && Changes(events) < TWO_16
    requires forall e <- events :: e.Seal? ==> !e.outcome.TooLong?
    ensures Distinct(Numbers(events)) <==> !ReusesCounter(events)
  {
    if ReusesCounter(events) {
      ReusedCounterRepeatsNumber(events);
    } else {
      FreshCountersGiveDistinctNumbers(events);
    }
  }

  function Seals(n: nat): (events: seq<WriteEvent>)
    ensures |events| == n && forall e <- events :: e == Seal(false, Sealed)
  {
    if n == 0 then [] else Seals(n - 1) + [Seal(false, Sealed)]
  }

  lemma OneSealMore(n: nat)
    requires n < TWO_48
    ensures var w := WriteNumbers(0, n, 0, false, false);
      && w.Valid() && w.Enabled(Seal(false, Sealed)) && !w.Reuses(Seal(false, Sealed))
      && w.Step(Seal(false, Sealed)) == WriteNumbers(0, (n + 1) % TWO_48, 0, n + 1 == TWO_48, false)
  {
  }

  lemma OneEventMore(before: seq<WriteEvent>, e: WriteEvent)
    requires Runnable(before) && Counters(before).Enabled(e)
    ensures Runnable(before + [e]) && Counters(before + [e]) == Counters(before).Step(e)
    ensures ReusesCounter(before + [e]) <==> ReusesCounter(before) || Counters(before).Reuses(e)
    ensures Changes(before + [e]) == Changes(before) + (if e.ChangeState? then 1 else 0)
  {
    hide WriteNumbers.Step, WriteNumbers.Reuses, WriteNumbers.Valid;
    assert (before + [e])[..|before|] == before;
  }

  lemma NoEvents()
    ensures Runnable([]) && Counters([]) == FIRST_NUMBERS && !ReusesCounter([]) && Changes([]) == 0
  {
  }

  lemma {:induction false} SealsCount(n: nat)
    requires n <= TWO_48
    ensures Runnable(Seals(n)) && !ReusesCounter(Seals(n)) && Changes(Seals(n)) == 0
    ensures Counters(Seals(n)) == WriteNumbers(0, n % TWO_48, 0, n == TWO_48, false)
  {
    hide WriteNumbers.Step, WriteNumbers.Reuses, WriteNumbers.Valid, Runnable, Counters, Changes, ReusesCounter;
    if n == 0 {
      NoEvents();
    } else {
      SealsCount(n - 1);
      OneSealMore(n - 1);
      OneEventMore(Seals(n - 1), Seal(false, Sealed));
    }
  }

  /** It can happen: of 2^48 + 1 records in one epoch two carry the same number. */
  lemma OneRecordTooMany()
    ensures var events := Seals(TWO_48 + 1);
      Runnable(events) && Changes(events) == 0 && ReusesCounter(events) && !Distinct(Numbers(events))
  {
    hide Numbers, Counters, Runnable, ReusesCounter, Changes;
    SealsCount(TWO_48);
    OneEventMore(Seals(TWO_48), Seal(false, Sealed));
    ReusedCounterRepeatsNumber(Seals(TWO_48 + 1));
  }

  // =====================================================================
  // Writing: records
  // =====================================================================

  /** Section 4.1 of RFC 6347: type, version, epoch and sequence, length, text. */
  function WireRecord(typ: byte, version: nat, number: seq<byte>, text: seq<byte>): (r: seq<byte>)
    requires version < TWO_16 && |number| == 8 && |text| < TWO_16
    ensures |r| == RT_HEADER_LENGTH + |text|
  {
    [typ] + U16(version) + number + U16(|text|) + text
  }

  /** Section 4.1 of RFC 6347: type, version, epoch and number, length, and the text. */
  lemma RecordLayout(typ: byte, version: nat, number: seq<byte>, text: seq<byte>)
    requires version < TWO_16 && |number| == 8 && |text| < TWO_16
    ensures var r := WireRecord(typ, version, number, text);
      && r[0] == typ && BigEndian(r[1..3]) == version && r[3..11] == number
      && BigEndian(r[11..13]) == |text| && r[13..] == text
  {
    var r := WireRecord(typ, version, number, text);
    assert r[1..3] == U16(version) && r[11..13] == U16(|text|);
    BigEndianOfTwo(r[1..3]);
    BigEndianOfTwo(r[11..13]);
  }

  /** `wire` carries `text` sealed under this cipher and number. */
  ghost predicate Carries(
      wire: seq<byte>, cipher: Aead, version: nat, typ: byte, number: seq<byte>, text: seq<byte>)
  {
    var sealed := cipher.seal(number, typ, version, text);
    && sealed.Some? && |sealed.value| < TWO_16 && version < TWO_16 && |number| == 8
    && wire == WireRecord(typ, version, number, sealed.value)
  }

  function Outcome(text: Option<seq<byte>>, maxOut: nat): SealOutcome {
    if maxOut < RT_HEADER_LENGTH || text.None? then Refused
    else if |text.value| > maxOut - RT_HEADER_LENGTH then Refused
    else if |text.value| >= TWO_16 then TooLong
    else Sealed
  }

  /** What sealing depends on: the counters and the ciphers of the current and the previous epoch. */
  datatype WriteKeys = WriteKeys(counters: WriteNumbers, aead: Aead, lastAead: Aead) {

    ghost predicate Valid() {
      counters.Valid() && Bounded(aead) && Bounded(lastAead)
    }

    function Cipher(previous: bool): Aead {
      if previous then lastAead else aead
    }

    /** The 8 bytes that number the next record of the chosen epoch. */
    ghost function Number(previous: bool): (n: seq<byte>)
      requires Valid() && (previous ==> counters.epoch >= 1)
      ensures |n| == 8
    {
      var (epoch, sequence) := counters.Number(previous);
      U16(epoch) + ToBigEndian(sequence, 6)
    }

    /** Section 4.1 of RFC 6347: the number is the epoch and then the sequence of the chosen epoch. */
    lemma NumberParts(previous: bool)
      requires Valid() && (previous ==> counters.epoch >= 1)
      ensures var n := Number(previous);
        && BigEndian(n[..2]) == counters.epoch - (if previous then 1 else 0)
        && BigEndian(n[2..]) == if previous then counters.last else counters.next
    {
      Pow256Six();
      var n := Number(previous);
      assert n[..2] == U16(counters.Number(previous).0) && n[2..] == ToBigEndian(counters.Number(previous).1, 6);
      TwoBytes(n[..2]);
    }

    ghost function Attempt(previous: bool, typ: byte, text: seq<byte>, maxOut: nat): (e: WriteEvent)
      requires Valid() && (previous ==> counters.epoch >= 1)
      ensures counters.Enabled(e)
    {
      Seal(previous, Outcome(Cipher(previous).seal(Number(previous), typ, aead.version, text), maxOut))
    }

    /** The record for this text, if the record layer has one. */
    ghost function Record(previous: bool, typ: byte, text: seq<byte>, maxOut: nat): (r: Option<seq<byte>>)
      requires Valid() && (previous ==> counters.epoch >= 1)
      ensures r.Some? ==> |r.value| <= maxOut
      ensures r.Some? ==> Carries(r.value, Cipher(previous), aead.version, typ, Number(previous), text)
    {
      var sealed := Cipher(previous).seal(Number(previous), typ, aead.version, text);
      if counters.Emitted(Attempt(previous, typ, text, maxOut)) == [] then None
      else Some(WireRecord(typ, aead.version, Number(previous), sealed.value))
    }

    ghost function After(previous: bool, typ: byte, text: seq<byte>, maxOut: nat): (k: WriteKeys)
      requires Valid() && (previous ==> counters.epoch >= 1)
      ensures k.Valid() && k.aead == aead && k.lastAead == lastAead && k.counters.epoch == counters.epoch
    {
      this.(counters := counters.Step(Attempt(previous, typ, text, maxOut)))
    }
  }

  method CopySequence(from: array<byte>, to: array<byte>)
    requires from != to && from.Length == to.Length >= 2
    modifies to
    ensures to[..] == from[..] && to[2..] == from[2..]
  {
    forall i | 0 <= i < to.Length {
      to[i] := from[i];
    }
  }

  method ClearSequence(a: array<byte>)
    requires a.Length == 8
    modifies a
    ensures BigEndian(a[2..]) == 0
  {
    forall i | 0 <= i < a.Length {
      a[i] := 0;
    }
    AllZeros(a[2..]);
  }

  class RecordWriter {
    var wEpoch: nat
    const writeSequence: array<byte>
    const lastWriteSequence: array<byte>
    var aead: Aead
    var lastAead: Aead
    ghost var counters: WriteNumbers

    ghost predicate Valid()
      reads this, writeSequence, lastWriteSequence
    {
      && writeSequence != lastWriteSequence
      && writeSequence.Length == lastWriteSequence.Length == 8
      && Bounded(aead) && Bounded(lastAead)
      && counters.Valid()
      && wEpoch == counters.epoch
      && BigEndian(writeSequence[2..]) == counters.next
      && BigEndian(lastWriteSequence[2..]) == counters.last
    }

    constructor (initial: Aead)
      requires Bounded(initial)
      ensures Valid() && counters == FIRST_NUMBERS && aead == initial
      ensures fresh(writeSequence) && fresh(lastWriteSequence)
    {
      wEpoch, counters, aead, lastAead := 0, FIRST_NUMBERS, initial, initial;
      writeSequence := new byte[8](_ => 0);
      lastWriteSequence := new byte[8](_ => 0);
      new;
      AllZeros(writeSequence[2..]);
      AllZeros(lastWriteSequence[2..]);
    }

    function UseAead(usePrevious: bool): Aead
      reads this
    {
      if usePrevious then lastAead else aead
    }

    function UseEpoch(usePrevious: bool): nat
      requires usePrevious ==> wEpoch >= 1
      reads this
    {
      if usePrevious then wEpoch - 1 else wEpoch
    }

    /** The 8 bytes that number the next record of the chosen epoch. */
    function NextNumber(usePrevious: bool): seq<byte>
      requires usePrevious ==> wEpoch >= 1
      requires wEpoch < TWO_16 && writeSequence.Length == lastWriteSequence.Length == 8
      reads this, writeSequence, lastWriteSequence
    {
      U16(UseEpoch(usePrevious)) + (if usePrevious then lastWriteSequence else writeSequence)[2..]
    }

    ghost function Keys(): WriteKeys
      reads this
    {
      WriteKeys(counters, aead, lastAead)
    }

    lemma NumberIs(usePrevious: bool)
      requires Valid() && (usePrevious ==> wEpoch >= 1)
      ensures Keys().Valid() && Keys().counters.epoch == wEpoch && Keys().Number(usePrevious) == NextNumber(usePrevious)
    {
      var bytes := (if usePrevious then lastWriteSequence else writeSequence)[2..];
      Pow256Six();
      BigEndianInjective(bytes, ToBigEndian(BigEndian(bytes), 6));
    }

    lemma ValidFacts()
      requires Valid()
      ensures wEpoch == counters.epoch < TWO_16
      ensures writeSequence.Length == lastWriteSequence.Length == 8
      ensures Bounded(aead) && Bounded(lastAead)
    {
    }

    lemma NumberOnWire(usePrevious: bool)
      requires Valid() && (usePrevious ==> wEpoch >= 1)
      ensures var n := NextNumber(usePrevious);
              |n| == 8 && (BigEndian(n[..2]), BigEndian(n[2..])) == counters.Number(usePrevious)
    {
      var n := NextNumber(usePrevious);
      assert n[..2] == U16(UseEpoch(usePrevious));
      TwoBytes(n[..2]);
      assert n[2..] == (if usePrevious then lastWriteSequence else writeSequence)[2..];
    }

    /**
     dtls_seal_record. The counter moves whenever the cipher produced text, and the record is
     returned unless the counter ran over or the text does not fit the length field.
     */
    method SealRecord(typ: byte, input: seq<byte>, maxOut: nat, usePrevious: bool)
      returns (r: Option<seq<byte>>)
      requires Valid() && (usePrevious ==> wEpoch >= 1)
      modifies this`counters, writeSequence, lastWriteSequence
      ensures Valid()
      ensures var number := old(NextNumber(usePrevious));
              var text := UseAead(usePrevious).seal(number, typ, aead.version, input);
              var event := Seal(usePrevious, Outcome(text, maxOut));
              && counters == old(counters).Step(event)
              && (if r.Some? then [old(counters).Number(usePrevious)] else [])
                   == old(counters).Emitted(event)
              && (r.Some? ==> Carries(r.value, UseAead(usePrevious), aead.version, typ, number, input))
      ensures r.Some? ==> |r.value| <= maxOut &&
                          |r.value| <= RT_HEADER_LENGTH + UseAead(usePrevious).maxOverhead + |input|
    {
      var epoch, cipher, sequence := wEpoch, aead, writeSequence;
      if usePrevious {
        epoch, cipher, sequence := wEpoch - 1, lastAead, lastWriteSequence;
      }
      var number := U16(epoch) + sequence[2..];
      var text := cipher.seal(number, typ, aead.version, input);
      ghost var event := Seal(usePrevious, Outcome(text, maxOut));
      counters := counters.Step(event);
      if maxOut < RT_HEADER_LENGTH {
        return None;
      }
      if text.None? || |text.value| > maxOut - RT_HEADER_LENGTH {
        return None;
      }
      ghost var other := if usePrevious then writeSequence else lastWriteSequence;
      ghost var otherBytes := other[2..];
      var ok := SequenceUpdate(sequence);
      assert other[2..] == otherBytes;
      if !ok || |text.value| >= TWO_16 {
        return None;
      }
      return Some(WireRecord(typ, aead.version, number, text.value));
    }

    /** dtls1_set_write_state: the current epoch becomes the previous one. */
    method SetWriteState(next: Aead)
      requires Valid() && Bounded(next)
      modifies this, writeSequence, lastWriteSequence
      ensures Valid()
      ensures counters == old(counters).Step(ChangeState)
      ensures aead == next && lastAead == old(aead)
      ensures lastWriteSequence[..] == old(writeSequence[..])
    {
      counters := counters.Step(ChangeState);
      wEpoch := (wEpoch + 1) % TWO_16;
      CopySequence(writeSequence, lastWriteSequence);
      ClearSequence(writeSequence);
      lastAead := aead;
      aead := next;
    }
  }

  // =====================================================================
  // Reading
  // =====================================================================

  datatype Parsed = Parsed(typ: byte, version: nat, sequence: seq<byte>, body: seq<byte>, size: nat) {
    ghost predicate Valid() { |sequence| == 8 }

    function Epoch(): nat requires |sequence| == 8 { BigEndian(sequence[..2]) }

    function Number(): nat requires |sequence| == 8 { BigEndian(sequence) }
  }

  /** The record header; None when it is incomplete or malformed. */
  function ParseRecord(input: seq<byte>): (r: Option<Parsed>)
    ensures r.Some? ==> r.value.Valid() && r.value.size <= |input|
  {
    if |input| < RT_HEADER_LENGTH then None
    else
      var len := GetU16(input[11..13]);
      if RT_HEADER_LENGTH + len > |input| || len > MAX_ENCRYPTED_LENGTH then None
      else
        Some(Parsed(input[0], GetU16(input[1..3]), input[3..11],
                    input[RT_HEADER_LENGTH..RT_HEADER_LENGTH + len], RT_HEADER_LENGTH + len))
  }

  datatype OpenResult =
    | CloseNotify
    | Partial
    | Discard
    | RecordOverflow
    | Opened(typ: byte, plaintext: seq<byte>)

  datatype ReadState = ReadState(epoch: nat, seen: Seen, aead: Aead, closed: bool) {

    function VersionOk(version: nat): bool {
      if aead.isNull then version / 256 == DTLS_VERSION_MAJOR else version == aead.version
    }

    /** The plaintext if the record is of this epoch, in the window, new and authentic. */
    function Admit(rec: Parsed): Option<seq<byte>>
      requires |rec.sequence| == 8
    {
      if rec.Epoch() != epoch || seen.Discards(rec.Number()) then None
      else aead.open(rec.sequence, rec.typ, rec.version, rec.body)
    }

    function Accepts(rec: Parsed): bool
      requires |rec.sequence| == 8
    {
      VersionOk(rec.version) && Admit(rec).Some? && |Admit(rec).value| <= MAX_PLAIN_LENGTH
    }

    /** What opening `input` yields, and how much of it is consumed. */
    function Open(input: seq<byte>): (OpenResult, nat) {
      if closed then (CloseNotify, 0)
      else if input == [] then (Partial, 0)
      else
        match ParseRecord(input)
        case None => (Discard, |input|)
        case Some(rec) =>
          if !VersionOk(rec.version) then (Discard, |input|)
          else if Admit(rec).None? then (Discard, rec.size)
          else if !Accepts(rec) then (RecordOverflow, rec.size)
          else (Opened(rec.typ, Admit(rec).value), rec.size)
    }

    /** The record number that opening `input` uses up, if any. */
    function Taken(input: seq<byte>): Option<nat> {
      if Open(input).0.Opened? then Some(ParseRecord(input).value.Number()) else None
    }

    function After(input: seq<byte>): ReadState {
      match Taken(input)
      case None => this
      case Some(n) => this.(seen := seen.Record(n))
    }

    function NextEpoch(next: Aead): ReadState {
      ReadState((epoch + 1) % TWO_16, NOTHING_SEEN, next, closed)
    }
  }

  class RecordReader {
    var rEpoch: nat
    const bitmap: Bitmap
    var aead: Aead
    var closed: bool

    ghost predicate Valid()
      reads this, bitmap
    {
      rEpoch < TWO_16 && bitmap.Valid()
    }

    ghost function State(): ReadState
      reads this, bitmap
    {
      ReadState(rEpoch, bitmap.seen, aead, closed)
    }

    constructor (initial: Aead)
      ensures Valid() && fresh(bitmap)
      ensures State() == ReadState(0, NOTHING_SEEN, initial, false)
    {
      rEpoch, aead, closed := 0, initial, false;
      bitmap := new Bitmap();
    }

    /** dtls_open_record. */
    method OpenRecord(input: seq<byte>) returns (res: OpenResult, consumed: nat)
      requires Valid()
      modifies bitmap
      ensures Valid()
      ensures (res, consumed) == old(State()).Open(input)
      ensures State() == old(State()).After(input)
      ensures consumed <= |input|
    {
      if closed {
        return CloseNotify, 0;
      }
      if |input| == 0 {
        return Partial, 0;
      }
      var parsed := ParseRecord(input);
      if parsed.None? {
        return Discard, |input|;
      }
      var rec := parsed.value;
      var versionOk := if aead.isNull then rec.version / 256 == DTLS_VERSION_MAJOR
                       else rec.version == aead.version;
      if !versionOk {
        return Discard, |input|;
      }
      var epoch := rec.sequence[0] as nat * 256 + rec.sequence[1] as nat;
      assert epoch == BigEndian(rec.sequence[..2]) by { TwoBytes(rec.sequence[..2]); }
      var number := ToU64Be(rec.sequence);
      var discard := bitmap.ShouldDiscard(number);
      if epoch != rEpoch || discard {
        return Discard, rec.size;
      }
      var text := aead.open(rec.sequence, rec.typ, rec.version, rec.body);
      if text.None? {
        return Discard, rec.size;
      }
      if |text.value| > MAX_PLAIN_LENGTH {
        return RecordOverflow, rec.size;
      }
      bitmap.Record(number);
      return Opened(rec.typ, text.value), rec.size;
    }

    /** dtls1_set_read_state, once the old epoch has no leftover data. */
    method SetReadState(next: Aead)
      requires Valid()
      modifies this, bitmap
      ensures Valid() && State() == old(State()).NextEpoch(next)
    {
      rEpoch := (rEpoch + 1) % TWO_16;
      bitmap.Reset();
      aead := next;
    }
  }

  lemma TwoBytes(s: seq<byte>)
    requires |s| == 2
    ensures BigEndian(s) == s[0] as nat * 256 + s[1] as nat
  {
    assert s[..1][..0] == [];
    assert BigEndian(s[..1]) == s[0] as nat;
  }

  /** Parsing undoes WireRecord, whatever follows in the datagram. */
  lemma ParseWireRecord(typ: byte, version: nat, number: seq<byte>, text: seq<byte>, rest: seq<byte>)
    requires version < TWO_16 && |number| == 8 && |text| <= MAX_ENCRYPTED_LENGTH
    ensures ParseRecord(WireRecord(typ, version, number, text) + rest)
         == Some(Parsed(typ, version, number, text, RT_HEADER_LENGTH + |text|))
  {
    var input := WireRecord(typ, version, number, text) + rest;
    assert input[1..3] == U16(version);
    assert input[3..11] == number;
    assert input[11..13] == U16(|text|);
    assert input[RT_HEADER_LENGTH..RT_HEADER_LENGTH + |text|] == text;
  }

  /** And what parses is nothing but a written record, at the front of the datagram. */
  lemma ParsedIsWritten(input: seq<byte>)
    requires ParseRecord(input).Some?
    ensures var rec := ParseRecord(input).value;
      && rec.version < TWO_16 && |rec.sequence| == 8 && |rec.body| <= MAX_ENCRYPTED_LENGTH
      && WireRecord(rec.typ, rec.version, rec.sequence, rec.body) + input[rec.size..] == input
  {
    var rec := ParseRecord(input).value;
    assert U16(rec.version) == input[1..3] && U16(|rec.body|) == input[11..13];
    assert input == [input[0]] + input[1..3] + input[3..11] + input[11..13] + input[13..rec.size] + input[rec.size..];
  }

  /** A sealed record opens to what was sealed if its epoch is current and its number is fresh. */
  lemma SealedRecordOpens(
      wire: seq<byte>, sender: Aead, version: nat, typ: byte, number: seq<byte>, text: seq<byte>,
      s: ReadState, rest: seq<byte>)
    requires Carries(wire, sender, version, typ, number, text)
    requires Matching(sender, s.aead) && !s.closed && s.VersionOk(version)
    requires BigEndian(number[..2]) == s.epoch && !s.seen.Discards(BigEndian(number))
    requires |text| <= MAX_PLAIN_LENGTH && |wire| <= RT_HEADER_LENGTH + MAX_ENCRYPTED_LENGTH
    ensures s.Open(wire + rest) == (Opened(typ, text), |wire|)
  {
    ParseWireRecord(typ, version, number, sender.seal(number, typ, version, text).value, rest);
  }

  /**
   Exactly the records are opened that are of the version and the epoch, numbered within 64 of the
   largest number and not seen, authentic, and at most 16384 bytes of text. Only they are recorded.
   */
  lemma OpenIsExact(s: ReadState, input: seq<byte>)
    requires !s.closed && ParseRecord(input).Some?
    ensures var (res, consumed) := s.Open(input);
      var rec := ParseRecord(input).value;
      var n, text := BigEndian(rec.sequence), s.aead.open(rec.sequence, rec.typ, rec.version, rec.body);
      var version := if s.aead.isNull then rec.version / 256 == 0xfe else rec.version == s.aead.version;
      var authentic := version && BigEndian(rec.sequence[..2]) == s.epoch &&
        n !in s.seen.numbers && n + 64 > s.seen.top && text.Some?;
      && consumed == (if version then rec.size else |input|)
      && res == (if !authentic then Discard
                 else if |text.value| > 16384 then RecordOverflow else Opened(rec.typ, text.value))
      && s.After(input) == if !res.Opened? then s
                           else ReadState(s.epoch, Seen(s.seen.numbers + {n}, Max(n, s.seen.top)), s.aead, false)
  {
  }

  lemma NothingOpens(s: ReadState, input: seq<byte>)
    requires s.closed || ParseRecord(input).None?
    ensures s.Open(input) == if s.closed then (CloseNotify, 0) else if input == [] then (Partial, 0)
                             else (Discard, |input|)
    ensures s.After(input) == s
  {
  }

  datatype ReadEvent = Packet(input: seq<byte>) | NewEpoch(aead: Aead)

  function ReadStep(s: ReadState, e: ReadEvent): ReadState {
    match e
    case Packet(input) => s.After(input)
    case NewEpoch(next) => s.NextEpoch(next)
  }

  function ReadRun(s: ReadState, events: seq<ReadEvent>): ReadState {
    if events == [] then s
    else ReadStep(ReadRun(s, events[..|events| - 1]), events[|events| - 1])
  }

  /** The numbers of the records accepted in a run, oldest first. */
  function AcceptedNumbers(s: ReadState, events: seq<ReadEvent>): seq<nat> {
    if events == [] then []
    else
      var before, e := events[..|events| - 1], events[|events| - 1];
      AcceptedNumbers(s, before) +
      (if e.Packet? && ReadRun(s, before).Taken(e.input).Some?
       then [ReadRun(s, before).Taken(e.input).value] else [])
  }

  function EpochChanges(events: seq<ReadEvent>): nat {
    if events == [] then 0
    else EpochChanges(events[..|events| - 1]) + (if events[|events| - 1].NewEpoch? then 1 else 0)
  }

  /** How many cipher changes after `start` an epoch is first in use. */
  function Age(start: nat, epoch: nat): nat
    requires start < TWO_16
  {
    (epoch + TWO_16 - start) % TWO_16
  }

  /** Accepted numbers are of the current epoch and in the window's set, or of an epoch in use before. */
  ghost predicate AcceptedSoFar(start: nat, changes: nat, seen: Seen, accepted: seq<nat>)
    requires start < TWO_16
  {
    forall i :: 0 <= i < |accepted| ==>
      var age := Age(start, accepted[i] / TWO_48);
      age < changes || (age == changes && accepted[i] in seen.numbers)
  }

  lemma AgeOfCurrent(start: nat, changes: nat)
    requires start < TWO_16 && changes < TWO_16
    ensures Age(start, (start + changes) % TWO_16) == changes
    ensures ((start + changes) % TWO_16 + 1) % TWO_16 == (start + changes + 1) % TWO_16
  {
  }

  lemma EpochOfNumber(rec: Parsed)
    requires rec.Valid()
    ensures rec.Number() / TWO_48 == rec.Epoch()
  {
    NumberSplits(rec.sequence);
  }

  /** A record that is accepted is of the current epoch and was not seen. */
  lemma TakenIsFresh(s: ReadState, input: seq<byte>)
    requires s.Taken(input).Some?
    ensures var n := s.Taken(input).value;
      n / TWO_48 == s.epoch && n !in s.seen.numbers && n in s.After(input).seen.numbers
    ensures s.seen.numbers <= s.After(input).seen.numbers && s.After(input).epoch == s.epoch
  {
    EpochOfNumber(ParseRecord(input).value);
  }

  lemma {:induction false} AcceptedStaySeen(s: ReadState, events: seq<ReadEvent>)
    requires s.epoch < TWO_16 && EpochChanges(events) < TWO_16
    ensures AcceptedSoFar(s.epoch, EpochChanges(events), ReadRun(s, events).seen, AcceptedNumbers(s, events))
    ensures ReadRun(s, events).epoch == (s.epoch + EpochChanges(events)) % TWO_16
    ensures Distinct(AcceptedNumbers(s, events))
  {
    hide Age, ReadState.Taken, ReadState.After;
    if events != [] {
      var before, e := events[..|events| - 1], events[|events| - 1];
      AcceptedStaySeen(s, before);
      AgeOfCurrent(s.epoch, EpochChanges(before));
      var mid := ReadRun(s, before);
      if e.Packet? {
        if mid.Taken(e.input).Some? {
          TakenIsFresh(mid, e.input);
        } else {
          NothingTaken(mid, e.input);
        }
      }
    }
  }

  lemma NothingTaken(s: ReadState, input: seq<byte>)
    requires s.Taken(input).None?
    ensures s.After(input) == s
  {
  }

  /**
   Section 4.1.2.6 of RFC 6347: no record number is accepted twice in any run, whatever
   packets arrive and whenever the cipher changes, until the 16-bit epoch has run all the way round.
   */
  lemma NoRecordAcceptedTwice(s: ReadState, events: seq<ReadEvent>)
    requires s.epoch < TWO_16 && EpochChanges(events) < TWO_16
    ensures Distinct(AcceptedNumbers(s, events))
  {
    AcceptedStaySeen(s, events);
  }

  /** The reader after `n` changes of the cipher. */
  function Rekeyed(s: ReadState, aead: Aead, n: nat): ReadState {
    if n == 0 then s else Rekeyed(s, aead, n - 1).NextEpoch(aead)
  }

  lemma {:induction false} RekeyedEpoch(s: ReadState, aead: Aead, n: nat)
    requires s.epoch < TWO_16
    ensures Rekeyed(s, aead, n).epoch == (s.epoch + n) % TWO_16
    ensures n > 0 ==> Rekeyed(s, aead, n) == ReadState((s.epoch + n) % TWO_16, NOTHING_SEEN, aead, s.closed)
  {
    if n > 0 {
      RekeyedEpoch(s, aead, n - 1);
    }
  }

  /** The bound is exact: once the epoch has run all the way round, the same packet is accepted again. */
  lemma EpochWrapAcceptsReplay(s: ReadState, input: seq<byte>)
    requires s.epoch < TWO_16 && s.Taken(input).Some?
    ensures Rekeyed(s.After(input), s.aead, TWO_16).Taken(input) == s.Taken(input)
  {
    RekeyedEpoch(s.After(input), s.aead, TWO_16);
  }
}
