/**
 Both ends together: what the sender's flights put on the wire, in any number of transmissions
 cut for any MTUs, and what the receiver's handshake gets out of any part of it.
 */
module DtlsTransport {
  import opened Bytes
  import opened DtlsFlight
  import opened DtlsReceiver
  import opened DtlsRecord
  import opened DtlsSender
  import opened Fragments
  import opened Reassembly

  lemma AssembledBody(msgs: seq<Message>, first: nat, flight: seq<Outgoing>, i: nat)
    requires Assembled(msgs, first, flight) && i < |flight| && !flight[i].isCcs
    ensures flight[i].WellFormed()
    ensures flight[i].Body() == msgs[NumberOf(first, flight, i)].body
  {
    var n := NumberOf(first, flight, i);
    RawParses(msgs[n], n);
  }

  /** Whatever piece of the flight is sent, it is a piece of the message with its number. */
  lemma PieceIsFaithful(msgs: seq<Message>, first: nat, flight: seq<Outgoing>, p: Piece)
    requires Assembled(msgs, first, flight) && InBounds(flight, p) && !flight[p.index].isCcs
    ensures flight[p.index].WellFormed()
    ensures var f := PieceFragment(flight[p.index], p);
      && Faithful(msgs, f)
      && f.seqNum == NumberOf(first, flight, p.index)
      && f.off == p.from && f.off + |f.bytes| == p.end
  {
    AssembledBody(msgs, first, flight, p.index);
    var n := NumberOf(first, flight, p.index);
    RawParses(msgs[n], n);
  }

  // ----- safety

  /** One transmission: a flight, the number of its first message, and records that carry its pieces. */
  datatype Transmission = Transmission(first: nat, flight: seq<Outgoing>, sent: seq<SentRecord>)

  ghost predicate Sends(msgs: seq<Message>, t: Transmission, f: Fragment) {
    exists k :: 0 <= k < |t.sent| && CarriesFragment(msgs, t, k, f)
  }

  ghost predicate CarriesFragment(msgs: seq<Message>, t: Transmission, k: nat, f: Fragment)
    requires k < |t.sent|
  {
    && Assembled(msgs, t.first, t.flight) && t.sent[k].Ok(t.flight)
    && !t.flight[t.sent[k].piece.index].isCcs
    && f == PieceFragment(t.flight[t.sent[k].piece.index], t.sent[k].piece)
  }

  /** Everything delivered was sent in some transmission. */
  ghost predicate OnlyDeliversSent(msgs: seq<Message>, ts: seq<Transmission>, events: seq<Event>) {
    forall i :: 0 <= i < |events| && events[i].Deliver? ==>
      exists j :: 0 <= j < |ts| && Sends(msgs, ts[j], events[i].f)
  }

  lemma StaysAssembled(history: seq<Message>, msgs: seq<Message>, first: nat, flight: seq<Outgoing>)
    requires Assembled(history, first, flight) && history <= msgs
    ensures Assembled(msgs, first, flight)
  {
    hide Message.Raw, NumberOf;
  }

  /**
   What a flight writer has sent is such a transmission, of the messages that were added to it and
   whatever it is given later.
   */
  lemma WriterSends(w: FlightWriter, msgs: seq<Message>, k: nat)
    requires w.Valid() && w.assembled && |w.history| < TWO_16 && w.history <= msgs
    requires k < |w.accepted|
    ensures var t, r := Transmission(w.first, w.messages, w.accepted), w.accepted[k];
      && (w.intact ==> Leads(t.flight, START, t.sent, w.Pos()))
      && InBounds(t.flight, r.piece) && r.Ok(t.flight)
      && (!t.flight[r.piece.index].isCcs ==> Sends(msgs, t, PieceFragment(t.flight[r.piece.index], r.piece)))
  {
    hide RecordWriter.Valid, Message.Raw, NumberOf, Contiguous, SentRecord.Ok, Carries, Assembled, Sendable;
    var t, r := Transmission(w.first, w.messages, w.accepted), w.accepted[k];
    StaysAssembled(w.history, msgs, w.first, w.messages);
    assert r.Ok(t.flight);
    OkInBounds(t.flight, r);
    if !t.flight[r.piece.index].isCcs {
      assert CarriesFragment(msgs, t, k, PieceFragment(t.flight[r.piece.index], r.piece));
    }
  }

  lemma OkInBounds(flight: seq<Outgoing>, r: SentRecord)
    requires r.Ok(flight)
    ensures InBounds(flight, r.piece) && flight[r.piece.index].WellFormed()
  {
  }

  lemma SentIsFromSender(msgs: seq<Message>, ts: seq<Transmission>, events: seq<Event>)
    requires OnlyDeliversSent(msgs, ts, events)
    ensures FromSender(msgs, events)
  {
    forall i | 0 <= i < |events| && events[i].Deliver? ensures Faithful(msgs, events[i].f) {
      var f := events[i].f;
      var j :| 0 <= j < |ts| && Sends(msgs, ts[j], f);
      var k :| 0 <= k < |ts[j].sent| && CarriesFragment(msgs, ts[j], k, f);
      PieceIsFaithful(msgs, ts[j].first, ts[j].flight, ts[j].sent[k].piece);
    }
  }

  /**
   Sections 4.2.3 and 4.2.6 of RFC 6347, end to end: whatever subset of whatever transmissions
   arrives, in whatever order and however often, the messages handed to the receiver's handshake
   are the sender's, byte for byte, each once and in order.
   */
  lemma EndToEnd(msgs: seq<Message>, ts: seq<Transmission>, start: nat, events: seq<Event>)
    requires Sendable(msgs) && start <= |msgs| && OnlyDeliversSent(msgs, ts, events)
    ensures FromSender(msgs, events) && ValidRun(start, events)
    ensures start <= Run(start, events).readSeq <= |msgs|
    ensures Outputs(start, events) == Raws(msgs, start, Run(start, events).readSeq)
  {
    SentIsFromSender(msgs, ts, events);
    MessagesInOrder(msgs, start, events);
  }

  /**
   A record of a flight, arriving in its epoch with a fresh number, delivers its fragment: opening
   it and running the fragment loop is one delivery step of the receiver's run.
   */
  lemma RecordDelivers(
      flight: seq<Outgoing>, r: SentRecord, s: ReadState, inbox: Inbox, maxLen: nat, rest: seq<byte>)
    requires r.Ok(flight) && !flight[r.piece.index].isCcs
    requires Matching(r.cipher, s.aead) && !s.closed && s.VersionOk(r.version)
    requires flight[r.piece.index].epoch == s.epoch && !s.seen.Discards(BigEndian(r.number))
    requires |r.wire| <= RT_HEADER_LENGTH + MAX_ENCRYPTED_LENGTH
    requires HM_HEADER_LENGTH + r.piece.end - r.piece.from <= MAX_PLAIN_LENGTH
    ensures var f, encrypted := PieceFragment(flight[r.piece.index], r.piece), s.epoch == 1;
      && s.Open(r.wire + rest) == (Opened(RT_HANDSHAKE, f.Encode()), |r.wire|)
      && TakeAll(inbox, f.Encode(), encrypted, maxLen)
           == (Step(inbox, Deliver(f, encrypted, maxLen)), inbox.Problem(f, encrypted, maxLen))
  {
    hide ReadState.Open, ParseRecord, Inbox.Problem, ParseFragment;
    var f, encrypted := PieceFragment(flight[r.piece.index], r.piece), s.epoch == 1;
    SealedRecordOpens(r.wire, r.cipher, r.version, RT_HANDSHAKE, r.number, f.Encode(), s, rest);
    ParseEncoded(f, []);
    assert f.Encode() + [] == f.Encode() != [];
    assert TakeAll(inbox.Take(f, encrypted, maxLen), [], encrypted, maxLen)
        == (inbox.Take(f, encrypted, maxLen), None);
  }

  /** And the record of a ChangeCipherSpec opens to the one that the receiver flags. */
  lemma CcsDelivers(flight: seq<Outgoing>, r: SentRecord, s: ReadState, rest: seq<byte>)
    requires r.Ok(flight) && flight[r.piece.index].isCcs
    requires Matching(r.cipher, s.aead) && !s.closed && s.VersionOk(r.version)
    requires flight[r.piece.index].epoch == s.epoch && !s.seen.Discards(BigEndian(r.number))
    requires |r.wire| <= RT_HEADER_LENGTH + MAX_ENCRYPTED_LENGTH
    ensures s.Open(r.wire + rest) == (Opened(20, [1]), |r.wire|)
  {
    hide ReadState.Open, ParseRecord;
    SealedRecordOpens(r.wire, r.cipher, r.version, RT_CHANGE_CIPHER_SPEC, r.number, [MT_CCS], s, rest);
  }

  // ----- progress

  /** The receiver's limits do not refuse any fragment of the run. */
  ghost predicate Welcome(start: nat, events: seq<Event>) {
    events != [] ==>
      var before, e := events[..|events| - 1], events[|events| - 1];
      && Welcome(start, before)
      && (e.Deliver? ==> e.f.len <= e.maxLen && (e.encrypted ==> e.f.seqNum == Run(start, before).readSeq))
  }

  ghost predicate DeliveredFor(events: seq<Event>, i: nat, n: nat) {
    i < |events| && events[i].Deliver? && events[i].f.seqNum == n
  }

  /** The window only moves forward: what is in it or behind it stays so. */
  lemma {:induction false} WindowMovesOn(msgs: seq<Message>, start: nat, events: seq<Event>, i: nat)
    requires Sendable(msgs) && start <= |msgs| && FromSender(msgs, events) && i <= |events|
    ensures Run(start, events[..i]).readSeq <= Run(start, events).readSeq
  {
    hide Sendable, Agrees;
    if i == |events| {
      assert events[..i] == events;
    } else {
      var before, e := events[..|events| - 1], events[|events| - 1];
      assert before[..i] == events[..i];
      WindowMovesOn(msgs, start, before, i);
      MessagesInOrder(msgs, start, before);
      StepAgrees(msgs, Run(start, before), e);
    }
  }

  /**
   A fragment counts that arrives while its number is in the window or behind it, if its message
   has not been read in the end.
   */
  lemma {:induction false} EveryFragmentCounts(
      msgs: seq<Message>, start: nat, events: seq<Event>, n: nat, i: nat)
    requires Sendable(msgs) && start <= |msgs| && FromSender(msgs, events) && Welcome(start, events)
    requires DeliveredFor(events, i, n) && n < Run(start, events[..i]).readSeq + MAX_FLIGHT
    requires Run(start, events).readSeq <= n
    ensures Touched(start, events, n)
    ensures Range(events[i].f.off, events[i].f.off + |events[i].f.bytes|) <= Covered(start, events, n)
  {
    var before, e := events[..|events| - 1], events[|events| - 1];
    MessagesInOrder(msgs, start, before);
    var inbox := Run(start, before);
    StepAgrees(msgs, inbox, e);
    if i < |before| {
      assert before[..i] == events[..i];
      EveryFragmentCounts(msgs, start, before, n, i);
    } else {
      assert events[..i] == before;
      FaithfulProblem(msgs, inbox, e.f, e.encrypted, e.maxLen);
      assert Accepted(inbox, e, n);
    }
  }

  /** The run delivers this fragment while its number is in the window or behind it. */
  ghost predicate DeliversInTime(start: nat, events: seq<Event>, f: Fragment) {
    exists j :: DeliveredAt(start, events, j, f)
  }

  ghost predicate DeliveredAt(start: nat, events: seq<Event>, j: int, f: Fragment) {
    && 0 <= j < |events| && events[j].Deliver? && events[j].f == f
    && f.seqNum < Run(start, events[..j]).readSeq + MAX_FLIGHT
  }

  /** The run delivers every fragment of this transmission's message i in time. */
  ghost predicate DeliversAll(t: Transmission, i: nat, start: nat, events: seq<Event>)
    requires i < |t.flight| && !t.flight[i].isCcs && AllOk(t.flight, t.sent)
  {
    forall k :: 0 <= k < |t.sent| && t.sent[k].piece.index == i ==>
      DeliversInTime(start, events, PieceFragment(t.flight[i], t.sent[k].piece))
  }

  /** What is in the window at one time is delivered in time from then on. */
  lemma LaterIsInTime(msgs: seq<Message>, start: nat, events: seq<Event>, i: nat, j: nat, f: Fragment)
    requires Sendable(msgs) && start <= |msgs| && FromSender(msgs, events)
    requires i <= j < |events| && events[j].Deliver? && events[j].f == f
    requires f.seqNum < Run(start, events[..i]).readSeq + MAX_FLIGHT
    ensures DeliversInTime(start, events, f)
  {
    assert events[..j][..i] == events[..i];
    WindowMovesOn(msgs, start, events[..j], i);
    assert DeliveredAt(start, events, j, f);
  }

  lemma PieceCounts(msgs: seq<Message>, t: Transmission, k: nat, i: nat, start: nat, events: seq<Event>)
    requires Sendable(msgs) && start <= |msgs| && FromSender(msgs, events) && Welcome(start, events)
    requires Assembled(msgs, t.first, t.flight) && AllOk(t.flight, t.sent) && k < |t.sent|
    requires i < |t.flight| && !t.flight[i].isCcs && DeliversAll(t, i, start, events)
    requires Run(start, events).readSeq <= NumberOf(t.first, t.flight, i)
    requires t.sent[k].piece.index == i
    ensures var n, p := NumberOf(t.first, t.flight, i), t.sent[k].piece;
      Range(p.from, p.end) <= Covered(start, events, n) && Touched(start, events, n)
  {
    hide Run, Welcome, Touched, Covered, FromSender, Sendable, Carries, NumberOf;
    var p := t.sent[k].piece;
    assert t.sent[k].Ok(t.flight);
    assert DeliversInTime(start, events, PieceFragment(t.flight[i], p));
    var j :| DeliveredAt(start, events, j, PieceFragment(t.flight[i], p));
    PieceIsFaithful(msgs, t.first, t.flight, p);
    EveryFragmentCounts(msgs, start, events, NumberOf(t.first, t.flight, i), j);
  }

  /** If all ranges of the pieces of message i lie in `covered`, so does their union. */
  lemma {:induction false} CoveredByWithin(pieces: seq<Piece>, i: nat, covered: set<nat>)
    requires forall k :: 0 <= k < |pieces| && pieces[k].index == i ==>
      Range(pieces[k].from, pieces[k].end) <= covered
    ensures CoveredBy(pieces, i) <= covered
  {
    if pieces != [] {
      CoveredByWithin(pieces[..|pieces| - 1], i, covered);
    }
  }

  /**
   Once every fragment of one full transmission of a message has arrived in time, in any order and
   mixed with anything else the sender sent, the message is complete, unless it was already read.
   */
  lemma TransmissionCompletes(
      msgs: seq<Message>, t: Transmission, i: nat, start: nat, events: seq<Event>)
    requires Sendable(msgs) && start <= |msgs| && FromSender(msgs, events) && Welcome(start, events)
    requires Assembled(msgs, t.first, t.flight)
    requires Leads(t.flight, START, t.sent, Position(|t.flight|, 0))
    requires i < |t.flight| && !t.flight[i].isCcs && DeliversAll(t, i, start, events)
    ensures var n, inbox := NumberOf(t.first, t.flight, i), Run(start, events);
      n < inbox.readSeq ||
      (n in inbox.pending && inbox.pending[n].Valid() && inbox.pending[n].Complete() &&
       inbox.pending[n].Raw() == msgs[n].Raw(n))
  {
    hide Run, Welcome, Touched, Covered, FromSender, Sendable, SentRecord.Ok, NumberOf, Contiguous, DeliversAll,
      Assembled, Inbox.InWindow;
    var n, inbox := NumberOf(t.first, t.flight, i), Run(start, events);
    if n >= inbox.readSeq {
      var pieces, covered := PiecesOf(t.sent), Covered(start, events, n);
      PiecesCover(t.flight, pieces, i);
      forall k | 0 <= k < |t.sent| && t.sent[k].piece.index == i
        ensures Range(t.sent[k].piece.from, t.sent[k].piece.end) <= covered && Touched(start, events, n)
      {
        PieceCounts(msgs, t, k, i, start, events);
      }
      CoveredByWithin(pieces, i, covered);
      MessagesInOrder(msgs, start, events);
      PendingIsCovered(msgs, start, events, n);
      AssembledBody(msgs, t.first, t.flight, i);
      CompleteIsOriginal(msgs, n, inbox.pending[n]);
    }
  }

  function Consumes(k: nat): (r: seq<Event>)
    ensures |r| == k && forall i :: 0 <= i < k ==> r[i] == Consume
  {
    if k == 0 then [] else Consumes(k - 1) + [Consume]
  }

  ghost predicate CompleteUpTo(inbox: Inbox, end: nat) {
    forall n :: inbox.readSeq <= n < end ==> n in inbox.pending && inbox.pending[n].Complete()
  }

  /** `r` is the inbox after k messages were read from `inbox`, the rest being untouched. */
  ghost predicate ReadFrom(inbox: Inbox, r: Inbox, k: nat) {
    && r.readSeq == inbox.readSeq + k
    && forall n :: n >= r.readSeq ==>
         (n in r.pending <==> n in inbox.pending) && (n in inbox.pending ==> r.pending[n] == inbox.pending[n])
  }

  lemma ReadOne(inbox: Inbox, r: Inbox, k: nat)
    requires ReadFrom(inbox, r, k) && inbox.readSeq + k + 1 < TWO_16
    requires CompleteUpTo(inbox, inbox.readSeq + k + 1)
    ensures ReadFrom(inbox, Step(r, Consume), k + 1)
  {
  }

  lemma RunOneMore(start: nat, events: seq<Event>, e: Event)
    ensures Run(start, events + [e]) == Step(Run(start, events), e)
  {
    assert (events + [e])[..|events|] == events;
  }

  /** Complete messages are read one by one, and the rest of the inbox stays as it is. */
  lemma {:induction false} ReadAll(start: nat, events: seq<Event>, k: nat)
    requires Run(start, events).readSeq + k < TWO_16
    requires CompleteUpTo(Run(start, events), Run(start, events).readSeq + k)
    ensures ReadFrom(Run(start, events), Run(start, events + Consumes(k)), k)
  {
    hide Run, Step;
    if k == 0 {
      assert events + Consumes(0) == events;
    } else {
      ReadAll(start, events, k - 1);
      var before := events + Consumes(k - 1);
      assert events + Consumes(k) == before + [Consume];
      RunOneMore(start, before, Consume);
      ReadOne(Run(start, events), Run(start, before), k - 1);
    }
  }

  lemma {:induction false} AssembledFits(msgs: seq<Message>, first: nat, flight: seq<Outgoing>, m: nat)
    requires Assembled(msgs, first, flight) && first <= |msgs| && m <= |flight|
    ensures NumberOf(first, flight, m) <= |msgs|
  {
    hide Message.Raw, Outgoing.WellFormed, Outgoing.Body;
    if m > 0 {
      AssembledFits(msgs, first, flight, m - 1);
    }
  }

  /**
   A flight gets through: after one full transmission has arrived in time and in any order, and
   everything before the flight was read, reading yields every message of the flight.
   */
  lemma FlightGetsThrough(msgs: seq<Message>, t: Transmission, start: nat, events: seq<Event>, k: nat)
    requires Sendable(msgs) && start <= |msgs| && FromSender(msgs, events) && Welcome(start, events)
    requires Assembled(msgs, t.first, t.flight)
    requires Leads(t.flight, START, t.sent, Position(|t.flight|, 0))
    requires forall i :: 0 <= i < |t.flight| && !t.flight[i].isCcs ==> DeliversAll(t, i, start, events)
    requires t.first <= Run(start, events).readSeq
    requires NumberOf(t.first, t.flight, |t.flight|) == Run(start, events).readSeq + k
    ensures start <= NumberOf(t.first, t.flight, |t.flight|) <= |msgs|
    ensures ValidRun(start, events + Consumes(k))
    ensures Outputs(start, events + Consumes(k)) == Raws(msgs, start, NumberOf(t.first, t.flight, |t.flight|))
  {
    hide Run, Welcome, FromSender, Sendable, NumberOf, DeliversAll, Assembled, Leads, Raws, Outputs, Partial.Complete,
      Partial.Raw, Agrees;
    MessagesInOrder(msgs, start, events);
    var inbox, end := Run(start, events), NumberOf(t.first, t.flight, |t.flight|);
    AgreesBound(msgs, inbox);
    AssembledFits(msgs, t.first, t.flight, |t.flight|);
    forall n | inbox.readSeq <= n < end ensures n in inbox.pending && inbox.pending[n].Complete() {
      var i := IndexOf(t.first, t.flight, |t.flight|, n);
      TransmissionCompletes(msgs, t, i, start, events);
    }
    SendableBound(msgs);
    ReadAll(start, events, k);
    ConsumesAreFromSender(msgs, events, k);
    MessagesInOrder(msgs, start, events + Consumes(k));
  }

  lemma AgreesBound(msgs: seq<Message>, inbox: Inbox)
    requires Agrees(msgs, inbox)
    ensures inbox.readSeq <= |msgs|
  {
  }

  lemma SendableBound(msgs: seq<Message>)
    requires Sendable(msgs)
    ensures |msgs| < TWO_16
  {
  }

  lemma ConsumesAreFromSender(msgs: seq<Message>, events: seq<Event>, k: nat)
    requires FromSender(msgs, events)
    ensures FromSender(msgs, events + Consumes(k))
  {
  }

  /** The entry of the flight that has number n. */
  lemma {:induction false} IndexOf(first: nat, flight: seq<Outgoing>, m: nat, n: nat) returns (i: nat)
    requires m <= |flight| && first <= n < NumberOf(first, flight, m)
    ensures i < m && !flight[i].isCcs && NumberOf(first, flight, i) == n
  {
    if NumberOf(first, flight, m - 1) == n {
      i := m - 1;
    } else {
      i := IndexOf(first, flight, m - 1, n);
    }
  }
}
