/**
 Receiving DTLS handshake messages (d1_both.cc): the window of incoming messages, which
 fragments it accepts, and when a message is handed to the handshake.
 */
module DtlsReceiver {
  import opened Bytes
  import opened DtlsRecord
  import opened Fragments
  import opened Reassembly

  datatype Alert = IllegalParameter | UnexpectedMessage | InternalError | DecodeError

  /** The messages not yet handed over: the next number to read, and what has arrived of each. */
  datatype Inbox = Inbox(readSeq: nat, pending: map<nat, Partial>) {

    ghost predicate Valid() {
      && readSeq < TWO_16
      && forall s :: s in pending ==>
           InWindow(s) && pending[s].Valid() && pending[s].seqNum == s
    }

    predicate InWindow(s: nat) {
      readSeq <= s < readSeq + MAX_FLIGHT
    }

    /** Why a fragment is refused with an alert, if it is. */
    function Problem(f: Fragment, encrypted: bool, maxLen: nat): Option<Alert> {
      if f.off + |f.bytes| > f.len || f.len > maxLen then Some(IllegalParameter)
      else if encrypted && f.seqNum != readSeq then Some(UnexpectedMessage)
      else if f.seqNum == readSeq + MAX_FLIGHT then Some(InternalError)
      else if f.seqNum in pending && (pending[f.seqNum].typ != f.typ || pending[f.seqNum].len != f.len)
      then Some(IllegalParameter)
      else None
    }

    function Slot(f: Fragment): Partial {
      if f.seqNum in pending then pending[f.seqNum] else Partial.Partial(f.typ, f.seqNum, f.len, map[])
    }

    predicate Accepts(f: Fragment, encrypted: bool, maxLen: nat) {
      Problem(f, encrypted, maxLen).None? && InWindow(f.seqNum)
    }

    /** Fragments outside the window change nothing; the others add their bytes. */
    function Take(f: Fragment, encrypted: bool, maxLen: nat): (r: Inbox)
      ensures Valid() && f.Encodable() ==> r.Valid()
      ensures Problem(f, encrypted, maxLen).Some? ==> r == this
    {
      if Accepts(f, encrypted, maxLen) then
        this.(pending := pending[f.seqNum := Slot(f).Absorb(f.off, f.bytes)])
      else this
    }

    predicate CurrentComplete() {
      readSeq in pending && pending[readSeq].Complete()
    }

    function Next(): (r: Inbox)
      ensures Valid() ==> r.Valid()
    {
      Inbox((readSeq + 1) % TWO_16, pending - {readSeq})
    }
  }

  // =====================================================================
  // Runs
  // =====================================================================

  datatype Event = Deliver(f: Fragment, encrypted: bool, maxLen: nat) | Consume

  function Step(inbox: Inbox, e: Event): Inbox {
    match e
    case Deliver(f, encrypted, maxLen) => inbox.Take(f, encrypted, maxLen)
    case Consume => if inbox.CurrentComplete() then inbox.Next() else inbox
  }

  /** The message handed over in a step: none or one. */
  ghost function Output(inbox: Inbox, e: Event): seq<seq<byte>>
    requires inbox.Valid()
  {
    if e.Consume? && inbox.CurrentComplete() then [inbox.pending[inbox.readSeq].Raw()] else []
  }

  ghost predicate Delivers(msgs: seq<Message>, e: Event) {
    e.Deliver? ==> Faithful(msgs, e.f)
  }

  ghost predicate FromSender(msgs: seq<Message>, events: seq<Event>) {
    forall i :: 0 <= i < |events| ==> Delivers(msgs, events[i])
  }

  function Run(start: nat, events: seq<Event>): Inbox {
    if events == [] then Inbox(start, map[])
    else Step(Run(start, events[..|events| - 1]), events[|events| - 1])
  }

  /** Everything received so far agrees with what was sent. */
  ghost predicate Agrees(msgs: seq<Message>, inbox: Inbox) {
    && inbox.Valid() && inbox.readSeq <= |msgs|
    && forall s :: s in inbox.pending ==> AgreesOn(msgs, s, inbox.pending[s])
  }

  ghost predicate AgreesOn(msgs: seq<Message>, s: nat, p: Partial) {
    && s < |msgs| && p.typ == msgs[s].typ && p.len == |msgs[s].body|
    && forall k :: k in p.body ==> k < p.len && p.body[k] == msgs[s].body[k]
  }

  lemma CompleteIsOriginal(msgs: seq<Message>, s: nat, p: Partial)
    requires Sendable(msgs) && p.Valid() && p.seqNum == s
    requires AgreesOn(msgs, s, p) && p.Complete()
    ensures p.Raw() == msgs[s].Raw(s)
  {
    assert p.Bytes() == msgs[s].body;
  }

  lemma StepAgrees(msgs: seq<Message>, inbox: Inbox, e: Event)
    requires Sendable(msgs) && Agrees(msgs, inbox) && Delivers(msgs, e)
    ensures Step(inbox, e).Valid() && Step(inbox, e).readSeq <= |msgs|
    ensures Agrees(msgs, Step(inbox, e))
    ensures Output(inbox, e) ==
      if Step(inbox, e).readSeq == inbox.readSeq then [] else [msgs[inbox.readSeq].Raw(inbox.readSeq)]
    ensures Step(inbox, e).readSeq == inbox.readSeq + |Output(inbox, e)|
  {
    if e.Consume? && inbox.CurrentComplete() {
      CompleteIsOriginal(msgs, inbox.readSeq, inbox.pending[inbox.readSeq]);
    }
  }

  /** Fragments of the sender's messages are refused only where the window's rules say so. */
  lemma FaithfulProblem(msgs: seq<Message>, inbox: Inbox, f: Fragment, encrypted: bool, maxLen: nat)
    requires Sendable(msgs) && Agrees(msgs, inbox) && Faithful(msgs, f)
    ensures inbox.Problem(f, encrypted, maxLen).Some? <==>
      || f.len > maxLen
      || (encrypted && f.seqNum != inbox.readSeq)
      || f.seqNum == inbox.readSeq + MAX_FLIGHT
  {
  }

  /** The messages handed over in a run, oldest first. */
  ghost function Outputs(start: nat, events: seq<Event>): seq<seq<byte>>
    requires ValidRun(start, events)
  {
    if events == [] then []
    else
      var before := events[..|events| - 1];
      Outputs(start, before) + Output(Run(start, before), events[|events| - 1])
  }

  ghost predicate ValidRun(start: nat, events: seq<Event>) {
    Run(start, events).Valid() && (events == [] || ValidRun(start, events[..|events| - 1]))
  }

  ghost function Raws(msgs: seq<Message>, from: nat, end: nat): (r: seq<seq<byte>>)
    requires Sendable(msgs) && from <= end <= |msgs|
    ensures |r| == end - from
    decreases end
  {
    if from == end then [] else Raws(msgs, from, end - 1) + [msgs[end - 1].Raw(end - 1)]
  }

  /**
   However the fragments of the sender's messages are lost, duplicated, reordered, cut and
   mixed, the handshake gets its messages byte for byte, each once and in order.
   */
  lemma {:induction false} MessagesInOrder(msgs: seq<Message>, start: nat, events: seq<Event>)
    requires Sendable(msgs) && start <= |msgs| && FromSender(msgs, events)
    ensures ValidRun(start, events) && Agrees(msgs, Run(start, events))
    ensures start <= Run(start, events).readSeq
    ensures Outputs(start, events) == Raws(msgs, start, Run(start, events).readSeq)
  {
    hide Step, Output, Agrees, Delivers, Sendable, Message.Raw;
    if events == [] {
      StartAgrees(msgs, start);
    } else {
      var before, e := events[..|events| - 1], events[|events| - 1];
      MessagesInOrder(msgs, start, before);
      StepAgrees(msgs, Run(start, before), e);
    }
  }

  lemma StartAgrees(msgs: seq<Message>, start: nat)
    requires Sendable(msgs) && start <= |msgs|
    ensures Agrees(msgs, Inbox(start, map[]))
  {
  }

  // ----- against any sender

  /** Whatever fragments arrive, as long as they are fragments. */
  ghost predicate Parseable(events: seq<Event>) {
    forall i :: 0 <= i < |events| && events[i].Deliver? ==> events[i].f.Encodable()
  }

  /** The message number in the header of raw bytes. */
  function NumberIn(raw: seq<byte>): nat {
    if |raw| < HM_HEADER_LENGTH then 0 else GetU16(raw[4..6])
  }

  lemma RawNumber(p: Partial)
    requires p.Valid() && p.Complete()
    ensures NumberIn(p.Raw()) == p.seqNum
  {
    assert p.Raw()[4..6] == U16(p.seqNum);
  }

  lemma StepNumbers(inbox: Inbox, e: Event)
    requires inbox.Valid() && (e.Deliver? ==> e.f.Encodable())
    ensures Step(inbox, e).Valid()
    ensures |Output(inbox, e)| <= 1 && Step(inbox, e).readSeq == (inbox.readSeq + |Output(inbox, e)|) % TWO_16
    ensures Output(inbox, e) != [] ==> NumberIn(Output(inbox, e)[0]) == inbox.readSeq
  {
    if e.Consume? && inbox.CurrentComplete() {
      RawNumber(inbox.pending[inbox.readSeq]);
    }
  }

  /**
   Whatever any sender sends: messages are handed over under consecutive numbers, each number once
   until the 16 bits run over.
   */
  lemma {:induction false} NumbersAreConsecutive(start: nat, events: seq<Event>)
    requires start < TWO_16 && Parseable(events)
    ensures ValidRun(start, events)
    ensures Run(start, events).readSeq == (start + |Outputs(start, events)|) % TWO_16
    ensures forall i :: 0 <= i < |Outputs(start, events)| ==>
      NumberIn(Outputs(start, events)[i]) == (start + i) % TWO_16
  {
    hide Step, Output, NumberIn, Inbox.Valid;
    if events == [] {
      EmptyInbox(start);
    } else {
      var before, e := events[..|events| - 1], events[|events| - 1];
      NumbersAreConsecutive(start, before);
      StepNumbers(Run(start, before), e);
      NextModulo(start, |Outputs(start, before)|);
    }
  }

  lemma EmptyInbox(start: nat)
    requires start < TWO_16
    ensures Inbox(start, map[]).Valid()
  {
  }

  lemma NextModulo(start: nat, n: nat)
    ensures ((start + n) % TWO_16 + 1) % TWO_16 == (start + n + 1) % TWO_16
  {
  }

  // ----- when a message is available

  ghost predicate Accepted(inbox: Inbox, e: Event, s: nat) {
    e.Deliver? && e.f.seqNum == s && inbox.Accepts(e.f, e.encrypted, e.maxLen)
  }

  /** A fragment of message s was accepted. */
  ghost predicate Touched(start: nat, events: seq<Event>, s: nat) {
    events != [] &&
    (Touched(start, events[..|events| - 1], s) ||
     Accepted(Run(start, events[..|events| - 1]), events[|events| - 1], s))
  }

  /** The offsets that the accepted fragments of message s cover. */
  ghost function Covered(start: nat, events: seq<Event>, s: nat): set<nat> {
    if events == [] then {}
    else
      var before, e := events[..|events| - 1], events[|events| - 1];
      Covered(start, before, s) +
      (if Accepted(Run(start, before), e, s) then Range(e.f.off, e.f.off + |e.f.bytes|) else {})
  }

  /** What the inbox holds of message s when the accepted fragments touched and covered this much. */
  ghost predicate Holds(inbox: Inbox, s: nat, touched: bool, covered: set<nat>) {
    && (s in inbox.pending <==> touched)
    && (s in inbox.pending ==> inbox.pending[s].body.Keys == covered)
    && (!touched ==> covered == {})
  }

  lemma StepHolds(msgs: seq<Message>, inbox: Inbox, e: Event, s: nat, touched: bool, covered: set<nat>)
    requires Sendable(msgs) && Agrees(msgs, inbox) && Delivers(msgs, e)
    requires Step(inbox, e).readSeq <= s
    requires Holds(inbox, s, touched, covered)
    ensures Holds(Step(inbox, e), s, touched || Accepted(inbox, e, s),
      covered + if Accepted(inbox, e, s) then Range(e.f.off, e.f.off + |e.f.bytes|) else {})
  {
    StepAgrees(msgs, inbox, e);
    if Accepted(inbox, e, s) {
      assert inbox.Slot(e.f).body.Keys == covered;
    }
  }

  lemma {:induction false} PendingIsCovered(msgs: seq<Message>, start: nat, events: seq<Event>, s: nat)
    requires Sendable(msgs) && start <= |msgs| && FromSender(msgs, events)
    requires Run(start, events).readSeq <= s
    ensures Holds(Run(start, events), s, Touched(start, events, s), Covered(start, events, s))
  {
    if events != [] {
      var before, e := events[..|events| - 1], events[|events| - 1];
      MessagesInOrder(msgs, start, before);
      StepAgrees(msgs, Run(start, before), e);
      PendingIsCovered(msgs, start, before, s);
      StepHolds(msgs, Run(start, before), e, s, Touched(start, before, s), Covered(start, before, s));
    }
  }

  /**
   Section 4.2.3 of RFC 6347: the next message is available exactly when the accepted
   fragments cover all of it (and at least one came, for an empty message).
   */
  lemma AvailableIffCovered(msgs: seq<Message>, start: nat, events: seq<Event>)
    requires Sendable(msgs) && start <= |msgs| && FromSender(msgs, events)
    ensures var s := Run(start, events).readSeq;
      Run(start, events).CurrentComplete() <==>
        && s < |msgs| && Touched(start, events, s)
        && Covered(start, events, s) == Range(0, |msgs[s].body|)
  {
    MessagesInOrder(msgs, start, events);
    PendingIsCovered(msgs, start, events, Run(start, events).readSeq);
  }

  /** The bound on the number of messages is exact: after message 65535 a copy of message 0 is read again. */
  lemma NumbersRunOut(msg: Message, inbox: Inbox)
    requires inbox.Valid() && inbox.readSeq == TWO_16 - 1 && inbox.CurrentComplete()
    requires |msg.body| < TWO_24
    ensures var first := Deliver(msg.Slice(0, 0, |msg.body|), false, |msg.body|);
      Step(Step(inbox, Consume), first).CurrentComplete()
  {
    var next := Step(inbox, Consume);
    assert 0 !in next.pending;
  }

  // =====================================================================
  // Records of fragments
  // =====================================================================

  /** All fragments of a handshake record, until one is refused. */
  function TakeAll(inbox: Inbox, input: seq<byte>, encrypted: bool, maxLen: nat): (Inbox, Option<Alert>)
    decreases |input|
  {
    if input == [] then (inbox, None)
    else
      match ParseFragment(input)
      case None => (inbox, Some(DecodeError))
      case Some((f, rest)) =>
        if inbox.Problem(f, encrypted, maxLen).Some? then (inbox, inbox.Problem(f, encrypted, maxLen))
        else TakeAll(inbox.Take(f, encrypted, maxLen), rest, encrypted, maxLen)
  }

  function EncodeAll(fs: seq<Fragment>): seq<byte>
    requires forall i :: 0 <= i < |fs| ==> fs[i].Encodable()
  {
    if fs == [] then [] else fs[0].Encode() + EncodeAll(fs[1..])
  }

  function TakeEach(inbox: Inbox, fs: seq<Fragment>, encrypted: bool, maxLen: nat): Inbox
    decreases |fs|
  {
    if fs == [] then inbox
    else TakeEach(inbox.Take(fs[0], encrypted, maxLen), fs[1..], encrypted, maxLen)
  }

  ghost predicate NoneRefused(inbox: Inbox, fs: seq<Fragment>, encrypted: bool, maxLen: nat)
    decreases |fs|
  {
    fs != [] ==>
      && inbox.Problem(fs[0], encrypted, maxLen).None?
      && NoneRefused(inbox.Take(fs[0], encrypted, maxLen), fs[1..], encrypted, maxLen)
  }

  /** How fragments are grouped into records makes no difference. */
  lemma {:induction false} GroupingIsIrrelevant(
      inbox: Inbox, fs: seq<Fragment>, rest: seq<byte>, encrypted: bool, maxLen: nat)
    requires forall i :: 0 <= i < |fs| ==> fs[i].Encodable()
    requires NoneRefused(inbox, fs, encrypted, maxLen)
    decreases |fs|
    ensures TakeAll(inbox, EncodeAll(fs) + rest, encrypted, maxLen)
         == TakeAll(TakeEach(inbox, fs, encrypted, maxLen), rest, encrypted, maxLen)
  {
    hide Inbox.Take, Inbox.Problem, Fragment.Encode, ParseFragment;
    if fs == [] {
      assert EncodeAll(fs) + rest == rest;
    } else {
      var tail := EncodeAll(fs[1..]) + rest;
      assert EncodeAll(fs) + rest == fs[0].Encode() + tail;
      ParseEncoded(fs[0], tail);
      GroupingIsIrrelevant(inbox.Take(fs[0], encrypted, maxLen), fs[1..], rest, encrypted, maxLen);
    }
  }

  /**
   After the fragments that are taken, a record ends well exactly at its end: what cannot be parsed is a
   decode error, and a refused fragment its own alert, and neither adds anything.
   */
  lemma RecordEnds(inbox: Inbox, fs: seq<Fragment>, rest: seq<byte>, encrypted: bool, maxLen: nat)
    requires forall i :: 0 <= i < |fs| ==> fs[i].Encodable()
    requires NoneRefused(inbox, fs, encrypted, maxLen)
    ensures var after := TakeEach(inbox, fs, encrypted, maxLen);
      var outcome := TakeAll(inbox, EncodeAll(fs) + rest, encrypted, maxLen);
      && (rest == [] ==> outcome == (after, None))
      && (rest != [] && ParseFragment(rest).None? ==> outcome == (after, Some(DecodeError)))
      && (ParseFragment(rest).Some? ==>
            var problem := after.Problem(ParseFragment(rest).value.0, encrypted, maxLen);
            problem.Some? ==> outcome == (after, problem))
  {
    hide TakeEach, EncodeAll, NoneRefused, Inbox.Problem, Inbox.Take;
    GroupingIsIrrelevant(inbox, fs, rest, encrypted, maxLen);
  }

  datatype ReadResult =
    | NotOpened(why: OpenResult)
    | AlertReceived(body: seq<byte>)
    | Ignored
    | Failed(alert: Alert)
    | Success

  function SlotOf(s: nat): (i: nat)
    ensures i < MAX_FLIGHT
  {
    s % MAX_FLIGHT
  }

  /** The slots hold exactly the pending messages, each at the index of its number. */
  ghost predicate Window(slots: seq<Option<Partial>>, inbox: Inbox) {
    && |slots| == MAX_FLIGHT
    && inbox.Valid()
    && (forall i :: 0 <= i < MAX_FLIGHT && slots[i].Some? ==>
          var p := slots[i].value;
          SlotOf(p.seqNum) == i && p.seqNum in inbox.pending && inbox.pending[p.seqNum] == p)
    && (forall s :: s in inbox.pending ==> slots[SlotOf(s)] == Some(inbox.pending[s]))
  }

  /** Numbers in one window never share a slot. */
  lemma SlotsDiffer(r: nat, s: nat, s': nat)
    requires r <= s < r + MAX_FLIGHT && r <= s' < r + MAX_FLIGHT && s != s'
    ensures SlotOf(s) != SlotOf(s')
  {
  }

  lemma SlotDecides(r: nat, s: nat)
    requires r <= s < r + MAX_FLIGHT && SlotOf(s) == SlotOf(r)
    ensures s == r
  {
  }

  /** An occupied slot always holds the number it is looked up for. */
  lemma OccupiedSlotMatches(slots: seq<Option<Partial>>, inbox: Inbox, s: nat)
    requires Window(slots, inbox) && inbox.InWindow(s)
    ensures slots[SlotOf(s)] == if s in inbox.pending then Some(inbox.pending[s]) else None
    ensures s in inbox.pending ==> inbox.pending[s].seqNum == s
  {
    if slots[SlotOf(s)].Some? && slots[SlotOf(s)].value.seqNum != s {
      SlotsDiffer(inbox.readSeq, s, slots[SlotOf(s)].value.seqNum);
    }
  }

  lemma PendingInWindow(slots: seq<Option<Partial>>, inbox: Inbox, s: nat)
    requires Window(slots, inbox)
    ensures s in inbox.pending ==> inbox.InWindow(s)
    ensures inbox.Valid()
  {
  }

  lemma OnlyCurrent(slots: seq<Option<Partial>>, inbox: Inbox, i: nat)
    requires Window(slots, inbox) && i < MAX_FLIGHT && slots[i].Some?
    ensures slots[i].value.seqNum in inbox.pending
    ensures i != SlotOf(inbox.readSeq) ==> slots[i].value.seqNum != inbox.readSeq
  {
  }

  lemma WindowPut(slots: seq<Option<Partial>>, inbox: Inbox, p: Partial)
    requires Window(slots, inbox) && inbox.InWindow(p.seqNum) && p.Valid()
    ensures Window(slots[SlotOf(p.seqNum) := Some(p)], inbox.(pending := inbox.pending[p.seqNum := p]))
  {
    OccupiedSlotMatches(slots, inbox, p.seqNum);
    forall s | s in inbox.pending && s != p.seqNum ensures SlotOf(s) != SlotOf(p.seqNum) {
      SlotsDiffer(inbox.readSeq, s, p.seqNum);
    }
  }

  lemma WindowNext(slots: seq<Option<Partial>>, inbox: Inbox)
    requires Window(slots, inbox)
    ensures Window(slots[SlotOf(inbox.readSeq) := None], inbox.Next())
  {
    OccupiedSlotMatches(slots, inbox, inbox.readSeq);
    forall s | s in inbox.pending && s != inbox.readSeq ensures SlotOf(s) != SlotOf(inbox.readSeq) {
      SlotsDiffer(inbox.readSeq, s, inbox.readSeq);
    }
  }

  lemma AbsorbKeeps(p: Partial, off: nat, bytes: seq<byte>)
    requires p.Valid() && off + |bytes| <= p.len
    ensures p.Absorb(off, bytes).Valid() && p.Absorb(off, bytes).seqNum == p.seqNum
    ensures p.Complete() ==> p.Absorb(off, bytes) == p
  {
  }

  class HandshakeReader {
    const records: RecordReader
    const incoming: array<HmFragment?>
    var readSeq: nat
    var hasMessage: bool
    var hasChangeCipherSpec: bool
    ghost var slots: seq<Option<Partial>>
    ghost var inbox: Inbox
    ghost var Repr: set<object>

    ghost predicate Valid()
      reads this, Repr
    {
      && {this, incoming, records, records.bitmap} <= Repr
      && records.Valid()
      && Window(slots, inbox) && readSeq == inbox.readSeq
      && (hasMessage ==> inbox.CurrentComplete())
      && Layout()
    }

    /** The slots' objects do not overlap and have the values in `slots`. */
    ghost predicate Layout()
      reads this, Repr
    {
      && incoming in Repr && incoming.Length == MAX_FLIGHT == |slots|
      && (forall i :: 0 <= i < MAX_FLIGHT ==>
            if incoming[i] == null then slots[i].None?
            else
              && incoming[i] in Repr && incoming[i].Repr() <= Repr
              && incoming[i].Repr() !! {this, incoming, records, records.bitmap}
              && incoming[i].Valid()
              && slots[i] == Some(incoming[i].value))
      && (forall i, j :: 0 <= i < j < MAX_FLIGHT && incoming[i] != null && incoming[j] != null ==>
            incoming[i].Repr() !! incoming[j].Repr())
    }

    constructor (initial: Aead)
      ensures Valid() && fresh(Repr)
      ensures inbox == Inbox(0, map[]) && !hasMessage && !hasChangeCipherSpec
    {
      var reader := new RecordReader(initial);
      records := reader;
      incoming := new HmFragment?[MAX_FLIGHT](_ => null);
      readSeq, hasMessage, hasChangeCipherSpec, inbox := 0, false, false, Inbox(0, map[]);
      slots := [None, None, None, None, None, None, None];
      new;
      Repr := {this, incoming, records, records.bitmap};
    }

    /** The first fragment of a message takes the empty slot of its number. */
    method Insert(f: Fragment) returns (frag: HmFragment)
      requires Valid() && f.Encodable() && inbox.InWindow(f.seqNum)
      requires incoming[SlotOf(f.seqNum)] == null
      modifies this`Repr, this`inbox, this`slots, incoming
      ensures Valid() && fresh(Repr - old(Repr))
      ensures frag == incoming[SlotOf(f.seqNum)] && frag.seqNum == f.seqNum
      ensures inbox == old(inbox).(pending :=
        old(inbox).pending[f.seqNum := Partial.Partial(f.typ, f.seqNum, f.len, map[])])
    {
      hide HmFragment.Valid, Window, Inbox.InWindow, SlotOf, RecordReader.Valid;
      var idx := SlotOf(f.seqNum);
      WindowPut(slots, inbox, Partial.Partial(f.typ, f.seqNum, f.len, map[]));
      OccupiedSlotMatches(slots, inbox, f.seqNum);
      frag := new HmFragment(f.typ, f.seqNum, f.len);
      incoming[idx] := frag;
      inbox := inbox.(pending := inbox.pending[f.seqNum := frag.value]);
      slots := slots[idx := Some(frag.value)];
      Repr := Repr + frag.Repr();
    }

    /** dtls1_get_incoming_message: the slot of a fragment in the window. */
    method GetIncoming(f: Fragment) returns (frag: HmFragment?, alert: Option<Alert>)
      requires Valid() && f.Encodable()
      modifies this`Repr, this`inbox, this`slots, incoming
      ensures Valid() && fresh(Repr - old(Repr))
      ensures frag == null <==> alert.Some?
      ensures alert ==
        if !old(inbox).InWindow(f.seqNum) then Some(InternalError)
        else if f.seqNum in old(inbox).pending &&
                (old(inbox).pending[f.seqNum].typ != f.typ || old(inbox).pending[f.seqNum].len != f.len)
        then Some(IllegalParameter) else None
      ensures inbox == if alert.Some? then old(inbox)
                       else old(inbox).(pending := old(inbox).pending[f.seqNum := old(inbox).Slot(f)])
      ensures frag != null ==> frag == incoming[SlotOf(f.seqNum)]
    {
      hide Window, SlotOf;
      if f.seqNum < readSeq || f.seqNum - readSeq >= MAX_FLIGHT {
        return null, Some(InternalError);
      }
      var idx := SlotOf(f.seqNum);
      OccupiedSlotMatches(slots, inbox, f.seqNum);
      frag := incoming[idx];
      if frag != null {
        if frag.typ != f.typ || frag.msgLen != f.len {
          return null, Some(IllegalParameter);
        }
        assert inbox.pending[f.seqNum := inbox.Slot(f)] == inbox.pending;
        return frag, None;
      }
      frag := Insert(f);
      return frag, None;
    }

    /** One turn of the fragment loop of dtls1_open_handshake. */
    method ProcessFragment(f: Fragment, maxLen: nat) returns (alert: Option<Alert>)
      requires Valid() && f.Encodable()
      modifies Repr
      ensures Valid() && fresh(Repr - old(Repr))
      ensures alert == old(inbox).Problem(f, old(records.rEpoch) == 1, maxLen)
      ensures inbox == old(inbox).Take(f, old(records.rEpoch) == 1, maxLen)
      ensures unchanged(records, records.bitmap, this`hasChangeCipherSpec, this`hasMessage)
    {
      hide Window, SlotOf, HmFragment.Valid, Partial.Absorb, Inbox.Valid, RecordReader.Valid, Partial.Complete;
      PendingInWindow(slots, inbox, f.seqNum);
      if f.off > f.len || f.off + |f.bytes| > f.len || f.len > maxLen {
        return Some(IllegalParameter);
      }
      // The encrypted epoch has only one handshake message.
      if records.rEpoch == 1 && f.seqNum != readSeq {
        return Some(UnexpectedMessage);
      }
      if f.seqNum < readSeq || f.seqNum > readSeq + MAX_FLIGHT {
        return None;
      }
      var frag;
      frag, alert := GetIncoming(f);
      if frag == null {
        return;
      }
      CopyBody(frag, f);
    }

    /** The bytes of a fragment go to the message in its slot. */
    method CopyBody(frag: HmFragment, f: Fragment)
      requires Valid() && inbox.InWindow(f.seqNum) && frag == incoming[SlotOf(f.seqNum)]
      requires f.seqNum in inbox.pending && f.off + |f.bytes| <= inbox.pending[f.seqNum].len
      modifies this`inbox, this`slots, frag.Repr()
      ensures Valid() && Repr == old(Repr)
      ensures inbox == old(inbox).(pending := old(inbox).pending[
        f.seqNum := old(inbox).pending[f.seqNum].Absorb(f.off, f.bytes)])
    {
      hide Window, SlotOf, Partial.Absorb, HmFragment.Valid, RecordReader.Valid, Partial.Complete, Partial.Valid;
      var idx := SlotOf(f.seqNum);
      OccupiedSlotMatches(slots, inbox, f.seqNum);
      assert frag.value == inbox.pending[f.seqNum];
      frag.ValueIsValid();
      ghost var next := frag.value.Absorb(f.off, f.bytes);
      AbsorbKeeps(frag.value, f.off, f.bytes);
      WindowPut(slots, inbox, next);
      frag.Receive(f.off, f.bytes);
      slots := slots[idx := Some(next)];
      inbox := inbox.(pending := inbox.pending[f.seqNum := next]);
    }

    /** The fragment loop of dtls1_open_handshake. */
    method ProcessFragments(text: seq<byte>, maxLen: nat) returns (alert: Option<Alert>)
      requires Valid()
      modifies Repr
      ensures Valid() && fresh(Repr - old(Repr))
      ensures (inbox, alert) == TakeAll(old(inbox), text, old(records.rEpoch) == 1, maxLen)
      ensures unchanged(records, records.bitmap, this`hasChangeCipherSpec, this`hasMessage)
    {
      hide Inbox.Take, Inbox.Problem, ParseFragment, Valid;
      var rest := text;
      while |rest| > 0
        invariant Valid() && fresh(Repr - old(Repr))
        invariant TakeAll(inbox, rest, old(records.rEpoch) == 1, maxLen)
               == TakeAll(old(inbox), text, old(records.rEpoch) == 1, maxLen)
        invariant unchanged(records, records.bitmap, this`hasChangeCipherSpec, this`hasMessage)
        decreases |rest|
      {
        var parsed := ParseFragment(rest);
        if parsed.None? {
          return Some(DecodeError);
        }
        alert := ProcessFragment(parsed.value.0, maxLen);
        if alert.Some? {
          return;
        }
        rest := parsed.value.1;
      }
      return None;
    }

    lemma Footprint()
      requires Valid()
      ensures {this, records, records.bitmap} <= Repr
    {
    }

    /** Flag the ChangeCipherSpec for later. */
    method FlagChangeCipherSpec()
      requires Valid()
      modifies this`hasChangeCipherSpec
      ensures Valid() && hasChangeCipherSpec
    {
      hasChangeCipherSpec := true;
    }

    method NextRecord(input: seq<byte>) returns (rec: OpenResult, consumed: nat)
      requires Valid()
      modifies records.bitmap
      ensures Valid()
      ensures (rec, consumed) == old(records.State()).Open(input)
      ensures records.State() == old(records.State()).After(input)
    {
      hide Window, ReadState.Open, ReadState.After, HmFragment.Valid;
      rec, consumed := records.OpenRecord(input);
    }

    /** dtls1_open_handshake. */
    method OpenHandshake(input: seq<byte>, maxLen: nat) returns (res: ReadResult, consumed: nat)
      requires Valid()
      modifies Repr
      ensures Valid() && fresh(Repr - old(Repr))
      ensures records.State() == old(records.State()).After(input)
      ensures consumed == old(records.State()).Open(input).1 && hasMessage == old(hasMessage)
      ensures match old(records.State()).Open(input).0
        case Opened(typ, text) =>
          var nullCipher, flag := old(records.aead.isNull), old(hasChangeCipherSpec);
          && (typ == RT_HANDSHAKE ==>
                var (after, alert) := TakeAll(old(inbox), text, old(records.rEpoch) == 1, maxLen);
                && inbox == after && hasChangeCipherSpec == flag
                && res == if alert.Some? then Failed(alert.value) else Success)
          && (typ != RT_HANDSHAKE ==> inbox == old(inbox))
          // A valid ChangeCipherSpec is flagged; one that is encrypted or malformed is an error.
          && (typ == RT_CHANGE_CIPHER_SPEC ==>
                && hasChangeCipherSpec == (flag || (nullCipher && text == [MT_CCS]))
                && res == if !nullCipher then Failed(UnexpectedMessage)
                          else if text == [MT_CCS] then Success else Failed(IllegalParameter))
          && (typ != RT_CHANGE_CIPHER_SPEC ==> hasChangeCipherSpec == flag)
          // Application data may be early if it is encrypted.
          && (typ == RT_APPLICATION_DATA ==> res == if nullCipher then Failed(UnexpectedMessage) else Ignored)
          && (typ == RT_ALERT ==> res == AlertReceived(text))
          && (typ !in {RT_HANDSHAKE, RT_CHANGE_CIPHER_SPEC, RT_APPLICATION_DATA, RT_ALERT} ==>
                res == Failed(UnexpectedMessage))
        case why =>
          inbox == old(inbox) && hasChangeCipherSpec == old(hasChangeCipherSpec) && res == NotOpened(why)
    {
      hide TakeAll, ReadState.Open, ReadState.After, Valid;
      Footprint();
      var rec;
      rec, consumed := NextRecord(input);
      if !rec.Opened? {
        return NotOpened(rec), consumed;
      }
      if rec.typ == RT_ALERT {
        return AlertReceived(rec.plaintext), consumed;
      } else if rec.typ == RT_APPLICATION_DATA {
        // Unencrypted application data records are always illegal; encrypted ones may be early.
        return if records.aead.isNull then Failed(UnexpectedMessage) else Ignored, consumed;
      } else if rec.typ == RT_CHANGE_CIPHER_SPEC {
        if !records.aead.isNull {
          return Failed(UnexpectedMessage), consumed;
        }
        if |rec.plaintext| != 1 || rec.plaintext[0] != MT_CCS {
          return Failed(IllegalParameter), consumed;
        }
        FlagChangeCipherSpec();
        return Success, consumed;
      } else if rec.typ != RT_HANDSHAKE {
        return Failed(UnexpectedMessage), consumed;
      }
      var alert := ProcessFragments(rec.plaintext, maxLen);
      return if alert.Some? then Failed(alert.value) else Success, consumed;
    }

    /**
     dtls1_open_change_cipher_spec: a flag already there is enough; otherwise a record is opened,
     and only a ChangeCipherSpec answers.
     */
    method OpenChangeCipherSpec(input: seq<byte>, maxLen: nat) returns (res: ReadResult, consumed: nat)
      requires Valid()
      modifies Repr
      ensures Valid() && fresh(Repr - old(Repr))
      ensures old(hasChangeCipherSpec) ==>
        && res == Success && consumed == 0 && !hasChangeCipherSpec
        && inbox == old(inbox) && records.State() == old(records.State())
      ensures hasMessage == old(hasMessage) && !hasChangeCipherSpec
      ensures !old(hasChangeCipherSpec) ==>
        && records.State() == old(records.State()).After(input)
        && consumed == old(records.State()).Open(input).1
        && match old(records.State()).Open(input).0
           case Opened(typ, text) =>
             var nullCipher := old(records.aead.isNull);
             && (typ == RT_HANDSHAKE ==>
                   var (after, alert) := TakeAll(old(inbox), text, old(records.rEpoch) == 1, maxLen);
                   inbox == after && res == if alert.Some? then Failed(alert.value) else Ignored)
             && (typ != RT_HANDSHAKE ==> inbox == old(inbox))
             && (typ == RT_CHANGE_CIPHER_SPEC ==>
                   res == if !nullCipher then Failed(UnexpectedMessage)
                          else if text == [MT_CCS] then Success else Failed(IllegalParameter))
             && (typ == RT_APPLICATION_DATA ==> res == if nullCipher then Failed(UnexpectedMessage) else Ignored)
             && (typ == RT_ALERT ==> res == AlertReceived(text))
             && (typ !in {RT_HANDSHAKE, RT_CHANGE_CIPHER_SPEC, RT_APPLICATION_DATA, RT_ALERT} ==>
                   res == Failed(UnexpectedMessage))
           case why => inbox == old(inbox) && res == NotOpened(why)
    {
      hide TakeAll, ReadState.Open, ReadState.After, Valid;
      consumed := 0;
      Footprint();
      if !hasChangeCipherSpec {
        // OpenHandshake processes both handshake and ChangeCipherSpec.
        res, consumed := OpenHandshake(input, maxLen);
        Footprint();
        if res != Success {
          return;
        }
      }
      if hasChangeCipherSpec {
        UnflagChangeCipherSpec();
        return Success, consumed;
      }
      return Ignored, consumed;
    }

    method UnflagChangeCipherSpec()
      requires Valid()
      modifies this`hasChangeCipherSpec
      ensures Valid() && !hasChangeCipherSpec
    {
      hasChangeCipherSpec := false;
    }

    /** dtls1_get_message. */
    method GetMessage() returns (raw: Option<seq<byte>>)
      requires Valid()
      modifies this`hasMessage
      ensures Valid()
      ensures inbox.Valid()
      ensures raw == if inbox.CurrentComplete() then Some(inbox.pending[readSeq].Raw()) else None
      ensures hasMessage == (old(hasMessage) || raw.Some?)
    {
      hide Window, SlotOf, Partial.Raw, HmFragment.Valid, Inbox.Valid;
      PendingInWindow(slots, inbox, readSeq);
      OccupiedSlotMatches(slots, inbox, readSeq);
      var frag := incoming[SlotOf(readSeq)];
      if frag == null {
        return None;
      }
      frag.CompleteIsNull();
      if frag.reassembly != null {
        return None;
      }
      var bytes := frag.Raw();
      hasMessage := true;
      return Some(bytes);
    }

    /** dtls1_next_message. */
    method NextMessage()
      requires Valid() && hasMessage
      modifies this, incoming
      ensures Valid() && Repr == old(Repr) && !hasMessage
      ensures inbox == old(inbox).Next() && hasChangeCipherSpec == old(hasChangeCipherSpec)
    {
      hide Window, SlotOf, HmFragment.Valid;
      WindowNext(slots, inbox);
      incoming[SlotOf(readSeq)] := null;
      slots := slots[SlotOf(readSeq) := None];
      inbox := inbox.Next();
      readSeq := (readSeq + 1) % TWO_16;
      hasMessage := false;
    }

    /** Something besides the message being read: a flagged ChangeCipherSpec or a later message. */
    ghost predicate LeftoverData()
      reads this
    {
      hasChangeCipherSpec || exists s :: s in inbox.pending && !(hasMessage && s == readSeq)
    }

    /** dtls_has_unprocessed_handshake_data. */
    method HasUnprocessedHandshakeData() returns (r: bool)
      requires Valid()
      ensures r <==> LeftoverData()
    {
      hide Window, SlotOf, HmFragment.Valid, RecordReader.Valid;
      if hasChangeCipherSpec {
        return true;
      }
      var current := SlotOf(readSeq);
      for i := 0 to MAX_FLIGHT
        invariant forall k :: 0 <= k < i ==> slots[k].None? || (hasMessage && k == current)
      {
        // Skip the current message.
        if !(hasMessage && i == current) && incoming[i] != null {
          OnlyCurrent(slots, inbox, i);
          return true;
        }
      }
      forall s | s in inbox.pending ensures hasMessage && s == readSeq {
        PendingInWindow(slots, inbox, s);
        OccupiedSlotMatches(slots, inbox, s);
        SlotDecides(inbox.readSeq, s);
      }
      return false;
    }

    /** dtls1_set_read_state: no message of one epoch may be finished in the next. */
    method SetReadState(next: Aead) returns (ok: bool)
      requires Valid()
      modifies Repr
      ensures Valid() && Repr == old(Repr)
      ensures ok <==> !old(LeftoverData())
      ensures records.State() == if ok then old(records.State()).NextEpoch(next) else old(records.State())
      ensures unchanged(this)
    {
      var leftover := HasUnprocessedHandshakeData();
      if leftover {
        return false;
      }
      records.SetReadState(next);
      return true;
    }
  }
}
