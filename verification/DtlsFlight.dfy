/**
 Flights of DTLS handshake messages as values (d1_both.cc): the pieces that messages are cut into,
 the records and datagrams that carry them, and what sending a flight comes to for any answers of
 the transport.
 */
module DtlsFlight {
  import opened Bytes
  import opened DtlsRecord
  import opened Fragments
  import opened Reassembly

  const DEFAULT_MTU: nat := 1500 - 28

  // =====================================================================
  // Flights and their pieces
  // =====================================================================

  /** A message of the flight, kept as a single fragment, or a ChangeCipherSpec. */
  datatype Outgoing = Outgoing(isCcs: bool, epoch: nat, data: seq<byte>) {

    predicate WellFormed() {
      !isCcs ==>
        match ParseFragment(data)
        case None => false
        case Some((f, rest)) => rest == [] && f.off == 0 && f.len == |f.bytes|
    }

    function Body(): seq<byte> {
      if isCcs || !WellFormed() then [] else ParseFragment(data).value.0.bytes
    }
  }

  /** The first byte not yet written: an index into the flight and an offset into that body. */
  datatype Position = Position(written: nat, offset: nat)

  const START := Position(0, 0)

  /** Bytes [from, end) of one message; a ChangeCipherSpec is one empty piece. */
  datatype Piece = Piece(index: nat, from: nat, end: nat)

  predicate Fits(msgs: seq<Outgoing>, pos: Position, p: Piece) {
    && p.index == pos.written < |msgs|
    && p.from == pos.offset <= p.end <= |msgs[p.index].Body()|
    && (p.end < |msgs[p.index].Body()| ==> p.from < p.end)
  }

  function Next(msgs: seq<Outgoing>, p: Piece): Position {
    if p.index < |msgs| && p.end < |msgs[p.index].Body()| then Position(p.index, p.end)
    else Position(p.index + 1, 0)
  }

  function EndOf(msgs: seq<Outgoing>, pos: Position, pieces: seq<Piece>): Position {
    if pieces == [] then pos else Next(msgs, pieces[|pieces| - 1])
  }

  /** Each piece starts where the one before it ended. */
  ghost predicate Contiguous(msgs: seq<Outgoing>, pos: Position, pieces: seq<Piece>) {
    pieces != [] ==>
      && Contiguous(msgs, pos, pieces[..|pieces| - 1])
      && Fits(msgs, EndOf(msgs, pos, pieces[..|pieces| - 1]), pieces[|pieces| - 1])
  }

  ghost predicate PosValid(msgs: seq<Outgoing>, pos: Position) {
    && pos.written <= |msgs|
    && pos.offset <= (if pos.written < |msgs| then |msgs[pos.written].Body()| else 0)
  }

  /** How much is left to write, as a pair that every piece lowers. */
  ghost predicate Behind(msgs: seq<Outgoing>, p: Position, q: Position) {
    p.written < q.written || (p.written == q.written && p.offset < q.offset)
  }

  lemma {:induction false} ContiguousEnd(msgs: seq<Outgoing>, pos: Position, pieces: seq<Piece>)
    requires PosValid(msgs, pos) && Contiguous(msgs, pos, pieces)
    ensures PosValid(msgs, EndOf(msgs, pos, pieces))
    ensures if pieces == [] then EndOf(msgs, pos, pieces) == pos
            else Behind(msgs, pos, EndOf(msgs, pos, pieces))
  {
    if pieces != [] {
      ContiguousEnd(msgs, pos, pieces[..|pieces| - 1]);
    }
  }

  lemma {:induction false} ContiguousAppend(
      msgs: seq<Outgoing>, pos: Position, a: seq<Piece>, b: seq<Piece>)
    requires Contiguous(msgs, pos, a) && Contiguous(msgs, EndOf(msgs, pos, a), b)
    ensures Contiguous(msgs, pos, a + b)
    ensures EndOf(msgs, pos, a + b) == EndOf(msgs, EndOf(msgs, pos, a), b)
  {
    if b == [] {
      assert a + b == a;
    } else {
      var init := b[..|b| - 1];
      ContiguousAppend(msgs, pos, a, init);
      assert (a + b)[..|a + b| - 1] == a + init;
    }
  }

  lemma {:induction false} ContiguousGrow(
      msgs: seq<Outgoing>, more: seq<Outgoing>, pos: Position, pieces: seq<Piece>)
    requires Contiguous(msgs, pos, pieces)
    ensures Contiguous(msgs + more, pos, pieces)
    ensures EndOf(msgs + more, pos, pieces) == EndOf(msgs, pos, pieces)
  {
    if pieces != [] {
      ContiguousGrow(msgs, more, pos, pieces[..|pieces| - 1]);
    }
  }

  function PieceBytes(msgs: seq<Outgoing>, p: Piece): seq<byte> {
    if p.index < |msgs| && p.from <= p.end <= |msgs[p.index].Body()|
    then msgs[p.index].Body()[p.from..p.end] else []
  }

  function Content(msgs: seq<Outgoing>, pieces: seq<Piece>): seq<byte> {
    if pieces == [] then []
    else Content(msgs, pieces[..|pieces| - 1]) + PieceBytes(msgs, pieces[|pieces| - 1])
  }

  function Bodies(msgs: seq<Outgoing>, n: nat): seq<byte>
    requires n <= |msgs|
  {
    if n == 0 then [] else Bodies(msgs, n - 1) + msgs[n - 1].Body()
  }

  /** All bytes of the flight before a position. */
  ghost function Before(msgs: seq<Outgoing>, pos: Position): seq<byte>
    requires PosValid(msgs, pos)
  {
    Bodies(msgs, pos.written) + (if pos.offset == 0 then [] else msgs[pos.written].Body()[..pos.offset])
  }

  lemma PieceExtends(msgs: seq<Outgoing>, pos: Position, p: Piece)
    requires PosValid(msgs, pos) && Fits(msgs, pos, p)
    ensures PosValid(msgs, Next(msgs, p))
    ensures Before(msgs, pos) + PieceBytes(msgs, p) == Before(msgs, Next(msgs, p))
  {
    hide Outgoing.Body;
    var body := msgs[p.index].Body();
    assert body[..p.from] + body[p.from..p.end] == body[..p.end];
    if p.end == |body| {
      assert body[..p.end] == body;
    }
  }

  /** Every byte up to the position reached is in exactly one piece, in order. */
  lemma {:induction false} PiecesAreExact(msgs: seq<Outgoing>, pieces: seq<Piece>)
    requires Contiguous(msgs, START, pieces)
    ensures PosValid(msgs, EndOf(msgs, START, pieces))
    ensures Content(msgs, pieces) == Before(msgs, EndOf(msgs, START, pieces))
  {
    hide Fits, Next, Before, PieceBytes;
    ContiguousEnd(msgs, START, pieces);
    if pieces == [] {
      StartIsEmpty(msgs);
    } else {
      var init, last := pieces[..|pieces| - 1], pieces[|pieces| - 1];
      PiecesAreExact(msgs, init);
      PieceExtends(msgs, EndOf(msgs, START, init), last);
    }
  }

  lemma StartIsEmpty(msgs: seq<Outgoing>)
    ensures Before(msgs, START) == []
  {
  }

  /** The offsets of message i that the pieces cover. */
  function CoveredBy(pieces: seq<Piece>, i: nat): set<nat> {
    if pieces == [] then {}
    else
      var last := pieces[|pieces| - 1];
      CoveredBy(pieces[..|pieces| - 1], i) + (if last.index == i then Range(last.from, last.end) else {})
  }

  predicate HasPiece(pieces: seq<Piece>, i: nat) {
    exists k :: 0 <= k < |pieces| && pieces[k].index == i
  }

  /** Up to the position reached, the pieces cover the messages without a gap. */
  lemma {:induction false} PiecesCover(msgs: seq<Outgoing>, pieces: seq<Piece>, i: nat)
    requires Contiguous(msgs, START, pieces)
    ensures var e := EndOf(msgs, START, pieces);
      && (i < e.written ==>
            i < |msgs| && HasPiece(pieces, i) && CoveredBy(pieces, i) == Range(0, |msgs[i].Body()|))
      && (i == e.written ==> CoveredBy(pieces, i) == Range(0, e.offset))
      && (i > e.written ==> CoveredBy(pieces, i) == {})
  {
    if pieces != [] {
      var init, last := pieces[..|pieces| - 1], pieces[|pieces| - 1];
      PiecesCover(msgs, init, i);
      if HasPiece(init, i) {
        var k :| 0 <= k < |init| && init[k].index == i;
        assert pieces[k].index == i;
      }
    }
  }

  // =====================================================================
  // Sealing
  // =====================================================================

  function PieceType(msg: Outgoing): byte {
    if msg.isCcs then RT_CHANGE_CIPHER_SPEC else RT_HANDSHAKE
  }

  /** The fragment of a handshake message that a piece is. */
  function PieceFragment(msg: Outgoing, p: Piece): (f: Fragment)
    requires !msg.isCcs && msg.WellFormed() && p.from <= p.end <= |msg.Body()|
    ensures f.Encodable()
  {
    var whole := ParseFragment(msg.data).value.0;
    Fragment(whole.typ, whole.len, whole.seqNum, p.from, msg.Body()[p.from..p.end])
  }

  function PieceText(msg: Outgoing, p: Piece): seq<byte>
    requires msg.WellFormed() && p.from <= p.end <= |msg.Body()|
  {
    if msg.isCcs then [MT_CCS] else PieceFragment(msg, p).Encode()
  }

  /** A record of the flight: the piece it carries and how it was sealed, in the epoch of its message. */
  datatype SentRecord = SentRecord(piece: Piece, cipher: Aead, version: nat, number: seq<byte>, wire: seq<byte>) {
    ghost predicate Ok(msgs: seq<Outgoing>) {
      && InBounds(msgs, piece)
      && msgs[piece.index].WellFormed()
      && Carries(wire, cipher, version, PieceType(msgs[piece.index]), number,
                 PieceText(msgs[piece.index], piece))
      && BigEndian(number[..2]) == msgs[piece.index].epoch
    }
  }

  predicate InBounds(msgs: seq<Outgoing>, p: Piece) {
    p.index < |msgs| && p.from <= p.end <= |msgs[p.index].Body()|
  }

  function PiecesOf(sent: seq<SentRecord>): (r: seq<Piece>)
    ensures |r| == |sent| && forall i :: 0 <= i < |r| ==> r[i] == sent[i].piece
  {
    seq(|sent|, i requires 0 <= i < |sent| => sent[i].piece)
  }

  function Wires(sent: seq<SentRecord>): seq<byte> {
    if sent == [] then [] else Wires(sent[..|sent| - 1]) + sent[|sent| - 1].wire
  }

  ghost predicate AllOk(msgs: seq<Outgoing>, sent: seq<SentRecord>) {
    forall i :: 0 <= i < |sent| ==> sent[i].Ok(msgs)
  }

  /** A run of records that takes the flight from one position to another. */
  ghost predicate Leads(msgs: seq<Outgoing>, pos: Position, sent: seq<SentRecord>, end: Position) {
    && AllOk(msgs, sent)
    && Contiguous(msgs, pos, PiecesOf(sent))
    && EndOf(msgs, pos, PiecesOf(sent)) == end
  }

  lemma LeadsOneMore(msgs: seq<Outgoing>, pos: Position, sent: seq<SentRecord>, mid: Position, r: SentRecord)
    requires Leads(msgs, pos, sent, mid) && r.Ok(msgs) && Fits(msgs, mid, r.piece)
    ensures Leads(msgs, pos, sent + [r], Next(msgs, r.piece))
    ensures Wires(sent + [r]) == Wires(sent) + r.wire
  {
    hide SentRecord.Ok, Outgoing.Body, Next, Fits;
    assert PiecesOf(sent + [r])[..|sent|] == PiecesOf(sent);
    assert (sent + [r])[..|sent|] == sent;
  }

  lemma LeadsAppend(msgs: seq<Outgoing>, pos: Position, a: seq<SentRecord>, mid: Position,
                    b: seq<SentRecord>, end: Position)
    requires Leads(msgs, pos, a, mid) && Leads(msgs, mid, b, end)
    ensures Leads(msgs, pos, a + b, end)
  {
    hide Contiguous, Next, Fits, EndOf, SentRecord.Ok, Outgoing.Body, PiecesOf;
    ContiguousAppend(msgs, pos, PiecesOf(a), PiecesOf(b));
    assert PiecesOf(a + b) == PiecesOf(a) + PiecesOf(b);
  }

  lemma {:induction false} WiresAppend(a: seq<SentRecord>, b: seq<SentRecord>)
    ensures Wires(a + b) == Wires(a) + Wires(b)
  {
    hide Wires;
    if b == [] {
      NoWires();
      assert a + b == a;
    } else {
      var init, last := b[..|b| - 1], b[|b| - 1];
      WiresAppend(a, init);
      assert b == init + [last] && a + b == a + init + [last];
      WiresOneMore(a + init, last);
      WiresOneMore(init, last);
    }
  }

  lemma NoWires()
    ensures Wires([]) == []
  {
  }

  lemma WiresOneMore(a: seq<SentRecord>, r: SentRecord)
    ensures Wires(a + [r]) == Wires(a) + r.wire
  {
    assert (a + [r])[..|a|] == a;
  }

  lemma LeadsNothing(msgs: seq<Outgoing>, pos: Position)
    ensures Leads(msgs, pos, [], pos) && Wires([]) == []
  {
  }

  lemma AllOkAppend(msgs: seq<Outgoing>, a: seq<SentRecord>, b: seq<SentRecord>)
    requires AllOk(msgs, a) && AllOk(msgs, b)
    ensures AllOk(msgs, a + b)
  {
    hide SentRecord.Ok;
  }

  lemma AllOkGrow(msgs: seq<Outgoing>, m: Outgoing, sent: seq<SentRecord>)
    requires AllOk(msgs, sent)
    ensures AllOk(msgs + [m], sent)
  {
    hide Outgoing.WellFormed, Outgoing.Body, Carries, PieceText;
    forall i | 0 <= i < |sent| ensures sent[i].Ok(msgs + [m]) {
      assert sent[i].Ok(msgs);
    }
  }

  lemma LeadsGrow(msgs: seq<Outgoing>, m: Outgoing, pos: Position, sent: seq<SentRecord>, end: Position)
    requires Leads(msgs, pos, sent, end)
    ensures Leads(msgs + [m], pos, sent, end)
  {
    ContiguousGrow(msgs, [m], pos, PiecesOf(sent));
  }

  // =====================================================================
  // Sending a flight
  // =====================================================================

  predicate UsesPrevious(epoch: nat, msg: Outgoing) {
    epoch >= 1 && msg.epoch == epoch - 1
  }

  /** The cipher of the message's epoch is still at hand. */
  predicate EpochOk(epoch: nat, msg: Outgoing) {
    msg.epoch == epoch || UsesPrevious(epoch, msg)
  }

  ghost function CipherFor(keys: WriteKeys, msg: Outgoing): Aead {
    keys.Cipher(UsesPrevious(keys.counters.epoch, msg))
  }

  /** How much of the body fits in `maxOut`; None when not even one byte would. */
  function Room(msg: Outgoing, cipher: Aead, maxOut: nat): Option<nat> {
    var overhead := RT_HEADER_LENGTH + cipher.maxOverhead;
    if msg.isCcs then (if maxOut < 1 + overhead then None else Some(0))
    else if maxOut < HM_HEADER_LENGTH + 1 + overhead then None
    else Some(maxOut - HM_HEADER_LENGTH - overhead)
  }

  /** What comes of sealing the next piece. `after` are the keys then. */
  datatype Turn = Fails(after: WriteKeys) | NoRoom | Goes(record: SentRecord, after: WriteKeys)

  ghost predicate Ready(msgs: seq<Outgoing>, keys: WriteKeys, pos: Position) {
    keys.Valid() && PosValid(msgs, pos)
  }

  ghost predicate SameKeys(a: WriteKeys, b: WriteKeys) {
    a.Valid() && a.counters.epoch == b.counters.epoch && a.aead == b.aead && a.lastAead == b.lastAead
  }

  /** As much of the rest of the next message as there is room for. */
  function NextPiece(msgs: seq<Outgoing>, pos: Position, room: nat): Piece
    requires pos.written < |msgs| && pos.offset <= |msgs[pos.written].Body()|
  {
    Piece(pos.written, pos.offset, pos.offset + Min(|msgs[pos.written].Body()| - pos.offset, room))
  }

  ghost function SealTurn(msgs: seq<Outgoing>, keys: WriteKeys, piece: Piece, maxOut: nat): (t: Turn)
    requires keys.Valid() && InBounds(msgs, piece) && msgs[piece.index].WellFormed()
    ensures !t.NoRoom? && SameKeys(t.after, keys)
    ensures t.Goes? ==> t.record.piece == piece
  {
    var msg := msgs[piece.index];
    var previous, typ, text := UsesPrevious(keys.counters.epoch, msg), PieceType(msg), PieceText(msg, piece);
    var wire, after := keys.Record(previous, typ, text, maxOut), keys.After(previous, typ, text, maxOut);
    if wire.None? then Fails(after)
    else Goes(SentRecord(piece, CipherFor(keys, msg), keys.aead.version, keys.Number(previous), wire.value), after)
  }

  /** seal_next_message. */
  ghost function TurnOf(msgs: seq<Outgoing>, keys: WriteKeys, pos: Position, maxOut: nat): (t: Turn)
    requires Ready(msgs, keys, pos) && pos.written < |msgs|
    ensures !t.NoRoom? ==> SameKeys(t.after, keys)
  {
    var msg := msgs[pos.written];
    if !EpochOk(keys.counters.epoch, msg) || !msg.WellFormed() then Fails(keys)
    else
      match Room(msg, CipherFor(keys, msg), maxOut)
      case None => NoRoom
      case Some(room) => SealTurn(msgs, keys, NextPiece(msgs, pos, room), maxOut)
  }

  /** The record is sealed in its message's epoch: under that epoch's cipher and next sequence, which moves. */
  ghost predicate InEpoch(msg: Outgoing, keys: WriteKeys, r: SentRecord, after: WriteKeys) {
    var current, now, then_ := msg.epoch == keys.counters.epoch, keys.counters, after.counters;
    && |r.number| == 8 && BigEndian(r.number[..2]) == msg.epoch
    && BigEndian(r.number[2..]) == (if current then now.next else now.last)
    && r.cipher == (if current then keys.aead else keys.lastAead) && r.version == keys.aead.version
    && then_.next == (if current then now.next + 1 else now.next)
    && then_.last == (if current then now.last else now.last + 1)
  }

  lemma SealedInEpoch(msgs: seq<Outgoing>, keys: WriteKeys, piece: Piece, maxOut: nat)
    requires keys.Valid() && InBounds(msgs, piece) && msgs[piece.index].WellFormed()
    requires EpochOk(keys.counters.epoch, msgs[piece.index]) && SealTurn(msgs, keys, piece, maxOut).Goes?
    ensures var turn := SealTurn(msgs, keys, piece, maxOut);
      InEpoch(msgs[piece.index], keys, turn.record, turn.after) && turn.record.Ok(msgs)
  {
    hide ParseFragment, Bounded, Carries, Outgoing.WellFormed, Outgoing.Body, PieceText, PieceType, WriteKeys.Number;
    keys.NumberParts(UsesPrevious(keys.counters.epoch, msgs[piece.index]));
  }

  /** A record that goes carries the next piece of the flight. */
  lemma TurnGoes(msgs: seq<Outgoing>, keys: WriteKeys, pos: Position, maxOut: nat)
    requires Ready(msgs, keys, pos) && pos.written < |msgs| && TurnOf(msgs, keys, pos, maxOut).Goes?
    ensures var r := TurnOf(msgs, keys, pos, maxOut).record;
      && r.Ok(msgs) && Fits(msgs, pos, r.piece) && |r.wire| <= maxOut
      && PosValid(msgs, Next(msgs, r.piece)) && Behind(msgs, pos, Next(msgs, r.piece))
      && InEpoch(msgs[pos.written], keys, r, TurnOf(msgs, keys, pos, maxOut).after)
  {
    hide ParseFragment, Bounded, Carries, Outgoing.WellFormed, PieceText, PieceType, SentRecord.Ok, InEpoch, SealTurn;
    var room := Room(msgs[pos.written], CipherFor(keys, msgs[pos.written]), maxOut).value;
    SealedInEpoch(msgs, keys, NextPiece(msgs, pos, room), maxOut);
    RecordFits(msgs, keys, NextPiece(msgs, pos, room), maxOut);
  }

  lemma RecordFits(msgs: seq<Outgoing>, keys: WriteKeys, piece: Piece, maxOut: nat)
    requires keys.Valid() && InBounds(msgs, piece) && msgs[piece.index].WellFormed()
    requires SealTurn(msgs, keys, piece, maxOut).Goes?
    ensures |SealTurn(msgs, keys, piece, maxOut).record.wire| <= maxOut
  {
    hide Outgoing.WellFormed, PieceText, PieceType;
  }

  /**
   A message is sealed whole or in a record that fills its room, so that with the cipher's most
   overhead not one byte more could go; and it has to wait only where not even one byte would fit.
   */
  lemma TurnIsFull(msgs: seq<Outgoing>, keys: WriteKeys, pos: Position, maxOut: nat)
    requires Ready(msgs, keys, pos) && pos.written < |msgs|
    ensures var turn, msg := TurnOf(msgs, keys, pos, maxOut), msgs[pos.written];
      var cipher := if msg.epoch == keys.counters.epoch then keys.aead else keys.lastAead;
      var least := (if msg.isCcs then 1 else HM_HEADER_LENGTH + 1) + RT_HEADER_LENGTH + cipher.maxOverhead;
      && (turn.NoRoom? ==> maxOut < least)
      && (turn.Goes? ==> maxOut >= least)
      && (turn.Goes? && turn.record.piece.end < |msg.Body()| ==>
            HM_HEADER_LENGTH + turn.record.piece.end - pos.offset + RT_HEADER_LENGTH + cipher.maxOverhead == maxOut)
  {
    hide ParseFragment, Bounded, SealTurn, Outgoing.WellFormed;
  }

  /** What a datagram comes to: its records, where they end, and whether sealing the next one failed. */
  datatype Packed = Packed(sent: seq<SentRecord>, end: Position, keys: WriteKeys, refused: Option<WriteKeys>) {

    /** The records of the datagram are given to the transport. */
    predicate Full() {
      refused.None? && sent != []
    }

    function After(): WriteKeys {
      if refused.Some? then refused.value else keys
    }

    /** The same with these records in front. */
    function Following(before: seq<SentRecord>): Packed {
      this.(sent := before + sent)
    }
  }

  /** seal_next_packet: as many records as fit. */
  ghost function Datagram(msgs: seq<Outgoing>, keys: WriteKeys, pos: Position, maxOut: nat): (p: Packed)
    requires Ready(msgs, keys, pos)
    ensures Ready(msgs, p.keys, p.end) && SameKeys(p.keys, keys) && SameKeys(p.After(), keys)
    ensures if p.sent == [] then p.end == pos else Behind(msgs, pos, p.end)
    decreases |msgs| - pos.written
  {
    if pos.written >= |msgs| then Packed([], pos, keys, None)
    else
      var turn := TurnOf(msgs, keys, pos, maxOut);
      match turn
      case Fails(after) => Packed([], pos, keys, Some(after))
      case NoRoom => Packed([], pos, keys, None)
      case Goes(r, after) =>
        TurnGoes(msgs, keys, pos, maxOut);
        var next := Next(msgs, r.piece);
        if next.written == pos.written then Packed([r], next, after, None)
        else
          Datagram(msgs, after, next, maxOut - |r.wire|).Following([r])
  }

  function Join(datagrams: seq<seq<SentRecord>>): seq<SentRecord> {
    if datagrams == [] then [] else Join(datagrams[..|datagrams| - 1]) + datagrams[|datagrams| - 1]
  }

  /**
   What sending a flight comes to: the datagrams the transport took, where they end and the keys
   there, the records that were sealed and then dropped, and the position, keys and result in the end.
   */
  datatype Sending = Sending(
    ret: int, datagrams: seq<seq<SentRecord>>, reached: Position, from: WriteKeys, lost: seq<SentRecord>,
    end: Position, keys: WriteKeys)
  {
    /** The same with these datagrams in front. */
    function Following(before: seq<seq<SentRecord>>): Sending {
      this.(datagrams := before + datagrams)
    }
  }

  /** send_flight. The transport answers its k-th write with `bio(k)` and the flush with `flushed`. */
  ghost function Send(msgs: seq<Outgoing>, keys: WriteKeys, pos: Position, mtu: nat,
                      bio: nat -> int, k: nat, flushed: int): (s: Sending)
    requires Ready(msgs, keys, pos)
    ensures Ready(msgs, s.keys, s.end) && SameKeys(s.keys, keys)
    decreases |msgs| - pos.written, if pos.written < |msgs| then |msgs[pos.written].Body()| - pos.offset else 0
  {
    if pos.written >= |msgs| then Sending(if flushed > 0 then 1 else -1, [], pos, keys, [], pos, keys)
    else
      var p := Datagram(msgs, keys, pos, mtu);
      if !p.Full() then Sending(-1, [], pos, keys, p.sent, p.end, p.After())
      else if bio(k) <= 0 then Sending(bio(k), [], pos, keys, [], pos, p.keys)
      else Send(msgs, p.keys, p.end, mtu, bio, k + 1, flushed).Following([p.sent])
  }

  /** The next turn of a datagram that has these records so far. */
  lemma DatagramGoesOn(msgs: seq<Outgoing>, keys: WriteKeys, pos: Position, room: nat, before: seq<SentRecord>)
    requires Ready(msgs, keys, pos)
    ensures var d := Datagram(msgs, keys, pos, room).Following(before);
      if pos.written >= |msgs| then d == Packed(before, pos, keys, None)
      else
        match TurnOf(msgs, keys, pos, room)
        case Fails(after) => d == Packed(before, pos, keys, Some(after))
        case NoRoom => d == Packed(before, pos, keys, None)
        case Goes(r, after) =>
          var next := Next(msgs, r.piece);
          && Ready(msgs, after, next) && |r.wire| <= room
          && if r.piece.end == |msgs[pos.written].Body()|
             then next == Position(pos.written + 1, 0) &&
                  d == Datagram(msgs, after, next, room - |r.wire|).Following(before + [r])
             else next == Position(pos.written, r.piece.end) && d == Packed(before + [r], next, after, None)
  {
    hide TurnOf, SentRecord.Ok, Outgoing.Body, PosValid, WriteKeys.Valid;
    assert before + [] == before;
    if pos.written < |msgs| && TurnOf(msgs, keys, pos, room).Goes? {
      TurnGoes(msgs, keys, pos, room);
      var r, rest := TurnOf(msgs, keys, pos, room).record, Datagram(msgs, keys, pos, room).sent[1..];
      assert Datagram(msgs, keys, pos, room).sent == [r] + rest;
      assert before + ([r] + rest) == before + [r] + rest;
    }
  }

  /** One more piece is tried at the position a datagram ends at: none was cut short to end it. */
  ghost predicate TriesMore(msgs: seq<Outgoing>, p: Packed) {
    p.end.written < |msgs| && (p.sent == [] || p.end.offset == 0)
  }

  /**
   What a datagram is: a run of whole records within its size, as long as there is room. Sealing
   fails if and only if the turn after its last record fails.
   */
  lemma {:induction false} DatagramFacts(msgs: seq<Outgoing>, keys: WriteKeys, pos: Position, maxOut: nat)
    requires Ready(msgs, keys, pos)
    ensures var p := Datagram(msgs, keys, pos, maxOut);
      && Leads(msgs, pos, p.sent, p.end) && |Wires(p.sent)| <= maxOut
      && (p.refused.Some? ==> TriesMore(msgs, p))
      && (TriesMore(msgs, p) ==>
            var turn := TurnOf(msgs, p.keys, p.end, maxOut - |Wires(p.sent)|);
            !turn.Goes? && p.refused == if turn.Fails? then Some(turn.after) else None)
    decreases |msgs| - pos.written
  {
    hide TurnOf, Leads, Wires, SentRecord.Ok, Outgoing.Body, Carries, PosValid, WriteKeys.Valid;
    LeadsNothing(msgs, pos);
    if pos.written < |msgs| && TurnOf(msgs, keys, pos, maxOut).Goes? {
      var turn := TurnOf(msgs, keys, pos, maxOut);
      TurnGoes(msgs, keys, pos, maxOut);
      var next := Next(msgs, turn.record.piece);
      LeadsOneMore(msgs, pos, [], pos, turn.record);
      assert [] + [turn.record] == [turn.record];
      assert next.written == pos.written ==> next.offset > 0;
      if next.written != pos.written {
        assert next == Position(pos.written + 1, 0);
        DatagramFacts(msgs, turn.after, next, maxOut - |turn.record.wire|);
        var rest := Datagram(msgs, turn.after, next, maxOut - |turn.record.wire|);
        LeadsAppend(msgs, pos, [turn.record], next, rest.sent, rest.end);
        WiresAppend([turn.record], rest.sent);
      }
    }
  }

  lemma {:induction false} JoinFront(d: seq<SentRecord>, datagrams: seq<seq<SentRecord>>)
    ensures Join([d] + datagrams) == d + Join(datagrams)
  {
    if datagrams == [] {
      assert [d] + datagrams == [d] && [d][..0] == [];
      assert Join([d]) == Join([]) + d == d;
    } else {
      var init, last := datagrams[..|datagrams| - 1], datagrams[|datagrams| - 1];
      JoinFront(d, init);
      assert ([d] + datagrams)[..|datagrams|] == [d] + init;
    }
  }

  /** The next datagram of a flight, behind those the transport took. */
  lemma SendGoesOn(msgs: seq<Outgoing>, keys: WriteKeys, pos: Position, mtu: nat,
                   bio: nat -> int, k: nat, flushed: int, before: seq<seq<SentRecord>>)
    requires Ready(msgs, keys, pos)
    ensures var s, p := Send(msgs, keys, pos, mtu, bio, k, flushed).Following(before), Datagram(msgs, keys, pos, mtu);
      if pos.written >= |msgs| then s == Sending(if flushed > 0 then 1 else -1, before, pos, keys, [], pos, keys)
      else if !p.Full() then s == Sending(-1, before, pos, keys, p.sent, p.end, p.After())
      else if bio(k) <= 0 then s == Sending(bio(k), before, pos, keys, [], pos, p.keys)
      else s == Send(msgs, p.keys, p.end, mtu, bio, k + 1, flushed).Following(before + [p.sent])
  {
    hide Datagram, Outgoing.Body, PosValid, WriteKeys.Valid;
    assert before + [] == before;
    var p := Datagram(msgs, keys, pos, mtu);
    if pos.written < |msgs| && p.Full() && bio(k) > 0 {
      var rest := Send(msgs, p.keys, p.end, mtu, bio, k + 1, flushed).datagrams;
      assert before + ([p.sent] + rest) == before + [p.sent] + rest;
    }
  }

  /**
   What sending comes to: the datagrams taken are a run of records to the position reached, and
   the records lost go on from there. Success means that the whole flight was taken.
   */
  lemma {:induction false} SendFacts(msgs: seq<Outgoing>, keys: WriteKeys, pos: Position, mtu: nat,
                                     bio: nat -> int, k: nat, flushed: int)
    requires Ready(msgs, keys, pos)
    ensures var s := Send(msgs, keys, pos, mtu, bio, k, flushed);
      && Leads(msgs, pos, Join(s.datagrams), s.reached) && Leads(msgs, s.reached, s.lost, s.end)
      && (forall d <- s.datagrams :: d != [] && |Wires(d)| <= mtu)
      && (s.ret > 0 ==> s.ret == 1 && s.end == Position(|msgs|, 0) && s.lost == [])
      && (s.lost != [] ==> s.ret == -1)
      && (s.lost == [] ==> s.end == s.reached)
    decreases |msgs| - pos.written, if pos.written < |msgs| then |msgs[pos.written].Body()| - pos.offset else 0
  {
    hide Datagram, Leads, Wires, Outgoing.Body, WriteKeys.Valid;
    LeadsNothing(msgs, pos);
    if pos.written < |msgs| {
      var p := Datagram(msgs, keys, pos, mtu);
      DatagramFacts(msgs, keys, pos, mtu);
      if p.Full() && bio(k) > 0 {
        SendFacts(msgs, p.keys, p.end, mtu, bio, k + 1, flushed);
        var rest := Send(msgs, p.keys, p.end, mtu, bio, k + 1, flushed);
        JoinFront(p.sent, rest.datagrams);
        LeadsAppend(msgs, pos, p.sent, p.end, Join(rest.datagrams), rest.reached);
      }
    }
  }

  /**
   How sending ends: with the whole flight taken, with the transport's first refusal, or with a
   datagram that could not be sealed. Records are lost if and only if sealing failed behind a
   first record of that datagram.
   */
  lemma {:induction false} SendEnds(msgs: seq<Outgoing>, keys: WriteKeys, pos: Position, mtu: nat,
                                    bio: nat -> int, k: nat, flushed: int)
    requires Ready(msgs, keys, pos)
    ensures var s := Send(msgs, keys, pos, mtu, bio, k, flushed);
      && Ready(msgs, s.from, s.reached)
      && (forall i :: k <= i < k + |s.datagrams| ==> bio(i) > 0)
      && var p, last := Datagram(msgs, s.from, s.reached, mtu), k + |s.datagrams|;
         && (s.lost != [] <==> p.refused.Some? && p.sent != [])
         && if s.reached.written >= |msgs| then s.ret == if flushed > 0 then 1 else -1
            else if !p.Full() then s.ret == -1 && s.lost == p.sent && s.end == p.end && s.keys == p.After()
            else s.ret == bio(last) <= 0 && s.lost == [] && s.end == s.reached && s.keys == p.keys
    decreases |msgs| - pos.written, if pos.written < |msgs| then |msgs[pos.written].Body()| - pos.offset else 0
  {
    hide Outgoing.Body, WriteKeys.Valid, Datagram, SameKeys;
    if pos.written < |msgs| {
      var p := Datagram(msgs, keys, pos, mtu);
      if p.Full() && bio(k) > 0 {
        SendEnds(msgs, p.keys, p.end, mtu, bio, k + 1, flushed);
      }
    }
  }

  // ----- when nothing is lost

  /** The most text that a record of this message carries. */
  function TextLimit(msg: Outgoing): nat {
    if msg.isCcs then 1 else HM_HEADER_LENGTH + |msg.Body()|
  }

  /** The cipher seals any text up to this length. */
  ghost predicate Total(cipher: Aead, limit: nat) {
    forall n, t, v, p :: |p| <= limit ==> cipher.seal(n, t, v, p).Some?
  }

  /** The message is well formed and the cipher of its epoch at hand. */
  ghost predicate Usable(keys: WriteKeys, msg: Outgoing) {
    EpochOk(keys.counters.epoch, msg) && msg.WellFormed()
  }

  /** The cipher seals the message whole or in any pieces, and their length fits the record header. */
  ghost predicate Sealable(keys: WriteKeys, msg: Outgoing, mtu: nat) {
    && Total(CipherFor(keys, msg), TextLimit(msg))
    && (mtu < RT_HEADER_LENGTH + TWO_16 || TextLimit(msg) + CipherFor(keys, msg).maxOverhead < TWO_16)
  }

  /** At least one byte of the message fits a datagram, in a record of its epoch. */
  ghost predicate Writable(keys: WriteKeys, msg: Outgoing, mtu: nat) {
    Usable(keys, msg) && Room(msg, CipherFor(keys, msg), mtu).Some?
  }

  ghost predicate AllWritable(msgs: seq<Outgoing>, keys: WriteKeys, mtu: nat, from: nat) {
    forall i :: from <= i < |msgs| ==> Writable(keys, msgs[i], mtu)
  }

  /** What can be written can be sealed. */
  ghost predicate CiphersLast(msgs: seq<Outgoing>, keys: WriteKeys, mtu: nat, from: nat) {
    forall i :: from <= i < |msgs| && Writable(keys, msgs[i], mtu) ==> Sealable(keys, msgs[i], mtu)
  }

  /** The most records that the flight can still take. */
  ghost function Remaining(msgs: seq<Outgoing>, pos: Position): nat
    requires PosValid(msgs, pos)
    decreases |msgs| - pos.written
  {
    if pos.written >= |msgs| then 0
    else |msgs[pos.written].Body()| - pos.offset + 1 + Remaining(msgs, Position(pos.written + 1, 0))
  }

  /** Neither counter runs over before the flight is written. */
  ghost predicate CountersLast(msgs: seq<Outgoing>, keys: WriteKeys, pos: Position)
    requires PosValid(msgs, pos)
  {
    keys.counters.next + Remaining(msgs, pos) < TWO_48 && keys.counters.last + Remaining(msgs, pos) < TWO_48
  }

  lemma RemainingFalls(msgs: seq<Outgoing>, pos: Position, p: Piece)
    requires PosValid(msgs, pos) && Fits(msgs, pos, p) && PosValid(msgs, Next(msgs, p))
    ensures Remaining(msgs, Next(msgs, p)) < Remaining(msgs, pos)
  {
    hide Outgoing.Body;
  }

  /** Text that the cipher seals gets a record if there is room and a number for it, and one counter moves. */
  lemma RecordGoes(keys: WriteKeys, previous: bool, typ: byte, text: seq<byte>, maxOut: nat)
    requires keys.Valid() && (previous ==> keys.counters.epoch >= 1)
    requires keys.Cipher(previous).seal(keys.Number(previous), typ, keys.aead.version, text).Some?
    requires RT_HEADER_LENGTH + |text| + keys.Cipher(previous).maxOverhead <= maxOut
    requires maxOut < RT_HEADER_LENGTH + TWO_16 || |text| + keys.Cipher(previous).maxOverhead < TWO_16
    requires keys.counters.next + 1 < TWO_48 && keys.counters.last + 1 < TWO_48
    ensures keys.Record(previous, typ, text, maxOut).Some?
    ensures var c := keys.After(previous, typ, text, maxOut).counters;
      c.next <= keys.counters.next + 1 && c.last <= keys.counters.last + 1
  {
    var sealed := keys.Cipher(previous).seal(keys.Number(previous), typ, keys.aead.version, text);
    assert sealed.Some? && |sealed.value| <= |text| + keys.Cipher(previous).maxOverhead;
    assert Outcome(sealed, maxOut).Sealed?;
  }

  lemma CiphersLastAfter(msgs: seq<Outgoing>, keys: WriteKeys, after: WriteKeys, mtu: nat, from: nat)
    requires SameKeys(after, keys) && CiphersLast(msgs, keys, mtu, from)
    ensures CiphersLast(msgs, after, mtu, from)
  {
    hide Outgoing.WellFormed, Total, TextLimit, Room;
    forall i | from <= i < |msgs| && Writable(after, msgs[i], mtu) ensures Sealable(after, msgs[i], mtu) {
      assert Writable(keys, msgs[i], mtu);
    }
  }

  lemma TextFits(msg: Outgoing, p: Piece)
    requires msg.WellFormed() && p.from <= p.end <= |msg.Body()|
    ensures |PieceText(msg, p)| <= TextLimit(msg)
    ensures |PieceText(msg, p)| == if msg.isCcs then 1 else HM_HEADER_LENGTH + p.end - p.from
    ensures msg.isCcs ==> msg.Body() == []
  {
    hide ParseFragment;
  }

  /** While ciphers and counters last, a turn fails if and only if the message is not usable. */
  lemma TurnFailsIff(msgs: seq<Outgoing>, keys: WriteKeys, pos: Position, mtu: nat, maxOut: nat, from: nat)
    requires Ready(msgs, keys, pos) && from <= pos.written < |msgs| && maxOut <= mtu
    requires CiphersLast(msgs, keys, mtu, from) && CountersLast(msgs, keys, pos)
    ensures var turn, msg := TurnOf(msgs, keys, pos, maxOut), msgs[pos.written];
      && (turn.Fails? <==> !Usable(keys, msg))
      && (turn.NoRoom? <==> Usable(keys, msg) && Room(msg, CipherFor(keys, msg), maxOut).None?)
      && (turn.Goes? ==>
            var next := Next(msgs, turn.record.piece);
            PosValid(msgs, next) && CountersLast(msgs, turn.after, next) && CiphersLast(msgs, turn.after, mtu, from))
  {
    hide CiphersLast, Total, Outgoing.WellFormed, Outgoing.Body, PieceText, PieceType, Bounded, TextLimit, SameKeys,
      WriteKeys.Record, WriteKeys.After, Next, SentRecord.Ok, Fits;
    var msg, cipher := msgs[pos.written], CipherFor(keys, msgs[pos.written]);
    if Usable(keys, msg) && Room(msg, cipher, maxOut).Some? {
      SealableAt(msgs, keys, mtu, from, pos.written);
      var piece := NextPiece(msgs, pos, Room(msg, cipher, maxOut).value);
      TextFits(msg, piece);
      var previous := UsesPrevious(keys.counters.epoch, msg);
      TotalSeals(cipher, TextLimit(msg), keys.Number(previous), PieceType(msg), keys.aead.version,
                 PieceText(msg, piece));
      RecordGoes(keys, previous, PieceType(msg), PieceText(msg, piece), maxOut);
      TurnGoes(msgs, keys, pos, maxOut);
      RemainingFalls(msgs, pos, piece);
      CiphersLastAfter(msgs, keys, TurnOf(msgs, keys, pos, maxOut).after, mtu, from);
    }
  }

  lemma SealableAt(msgs: seq<Outgoing>, keys: WriteKeys, mtu: nat, from: nat, i: nat)
    requires CiphersLast(msgs, keys, mtu, from) && from <= i < |msgs| && Writable(keys, msgs[i], mtu)
    ensures Sealable(keys, msgs[i], mtu)
  {
  }

  lemma TotalSeals(cipher: Aead, limit: nat, n: seq<byte>, t: byte, v: nat, p: seq<byte>)
    requires Total(cipher, limit) && |p| <= limit
    ensures cipher.seal(n, t, v, p).Some?
  {
  }

  /** Then a datagram fails if and only if it comes to a message that is not usable. */
  lemma {:induction false} DatagramFailsIff(
      msgs: seq<Outgoing>, keys: WriteKeys, pos: Position, mtu: nat, maxOut: nat, from: nat)
    requires Ready(msgs, keys, pos) && maxOut <= mtu && from <= pos.written
    requires CiphersLast(msgs, keys, mtu, from) && CountersLast(msgs, keys, pos)
    ensures var p := Datagram(msgs, keys, pos, maxOut);
      && (p.refused.Some? <==> TriesMore(msgs, p) && !Usable(keys, msgs[p.end.written]))
      && CiphersLast(msgs, p.keys, mtu, from) && CountersLast(msgs, p.keys, p.end)
      && (p.sent != [] <==> pos.written < |msgs| && Writable(keys, msgs[pos.written], maxOut))
    decreases |msgs| - pos.written
  {
    hide CiphersLast, TurnOf, CountersLast, Outgoing.Body, Outgoing.WellFormed, WriteKeys.Valid, Room;
    if pos.written < |msgs| {
      TurnFailsIff(msgs, keys, pos, mtu, maxOut, from);
      var turn := TurnOf(msgs, keys, pos, maxOut);
      if turn.Goes? {
        TurnGoes(msgs, keys, pos, maxOut);
        var next := Next(msgs, turn.record.piece);
        if next.written != pos.written {
          DatagramFailsIff(msgs, turn.after, next, mtu, maxOut - |turn.record.wire|, from);
        }
      }
    }
  }

  /** What a datagram has records of was writable. */
  lemma {:induction false} DatagramWrites(
      msgs: seq<Outgoing>, keys: WriteKeys, pos: Position, mtu: nat, maxOut: nat, i: nat)
    requires Ready(msgs, keys, pos) && maxOut <= mtu && pos.written <= i
    requires var p := Datagram(msgs, keys, pos, maxOut);
      i < p.end.written || (i == p.end.written && p.sent != [] && p.end.offset > 0)
    ensures i < |msgs| && Writable(keys, msgs[i], mtu)
    decreases |msgs| - pos.written
  {
    hide SealTurn, Outgoing.Body, Outgoing.WellFormed, WriteKeys.Valid, SentRecord.Ok;
    if TurnOf(msgs, keys, pos, maxOut).Goes? {
      TurnGoes(msgs, keys, pos, maxOut);
      var turn := TurnOf(msgs, keys, pos, maxOut);
      var next := Next(msgs, turn.record.piece);
      if i > pos.written {
        DatagramWrites(msgs, turn.after, next, mtu, maxOut - |turn.record.wire|, i);
      }
    }
  }

  /** Message j is not usable, and a record can be made of everything before it. */
  ghost predicate StopsAt(msgs: seq<Outgoing>, keys: WriteKeys, pos: Position, mtu: nat, j: nat) {
    && pos.written < j < |msgs| && !Usable(keys, msgs[j])
    && forall i :: pos.written <= i < j ==> Writable(keys, msgs[i], mtu)
  }

  /** A full datagram does not end at a message that is not usable, and so leaves where sending stops. */
  lemma StopsLater(msgs: seq<Outgoing>, keys: WriteKeys, pos: Position, mtu: nat, j: nat)
    requires Ready(msgs, keys, pos) && CiphersLast(msgs, keys, mtu, pos.written) && CountersLast(msgs, keys, pos)
    requires Datagram(msgs, keys, pos, mtu).Full()
    ensures var p := Datagram(msgs, keys, pos, mtu);
      StopsAt(msgs, keys, pos, mtu, j) <==> StopsAt(msgs, p.keys, p.end, mtu, j)
  {
    hide Datagram, CiphersLast, CountersLast, Outgoing.Body, Outgoing.WellFormed, WriteKeys.Valid, Room;
    var p := Datagram(msgs, keys, pos, mtu);
    DatagramFailsIff(msgs, keys, pos, mtu, mtu, pos.written);
    forall i | pos.written <= i < p.end.written ensures Writable(keys, msgs[i], mtu) {
      DatagramWrites(msgs, keys, pos, mtu, mtu, i);
    }
    if p.end.offset > 0 {
      DatagramWrites(msgs, keys, pos, mtu, mtu, p.end.written);
    }
    forall i | 0 <= i < |msgs|
      ensures Usable(p.keys, msgs[i]) <==> Usable(keys, msgs[i])
      ensures Writable(p.keys, msgs[i], mtu) <==> Writable(keys, msgs[i], mtu)
    {
    }
  }

  /** A datagram that fails behind a first record fails where sending stops, and only there. */
  lemma StopsHere(msgs: seq<Outgoing>, keys: WriteKeys, pos: Position, mtu: nat)
    requires Ready(msgs, keys, pos) && CiphersLast(msgs, keys, mtu, pos.written) && CountersLast(msgs, keys, pos)
    requires !Datagram(msgs, keys, pos, mtu).Full()
    ensures var p := Datagram(msgs, keys, pos, mtu);
      && (p.sent != [] ==> StopsAt(msgs, keys, pos, mtu, p.end.written))
      && (p.sent == [] ==> forall j :: !StopsAt(msgs, keys, pos, mtu, j))
  {
    hide Datagram, CiphersLast, CountersLast, Outgoing.Body, Outgoing.WellFormed, WriteKeys.Valid, Room;
    var p := Datagram(msgs, keys, pos, mtu);
    DatagramFailsIff(msgs, keys, pos, mtu, mtu, pos.written);
    forall i | pos.written <= i < p.end.written ensures Writable(keys, msgs[i], mtu) {
      DatagramWrites(msgs, keys, pos, mtu, mtu, i);
    }
  }

  /**
   While ciphers and counters last, sealed records are lost only if the flight has a message that
   is malformed or of another epoch behind messages that can be written; and they are lost
   whenever it has one and the transport takes everything.
   */
  lemma {:induction false} LostIffStops(msgs: seq<Outgoing>, keys: WriteKeys, pos: Position, mtu: nat,
                                        bio: nat -> int, k: nat, flushed: int)
    requires Ready(msgs, keys, pos) && CiphersLast(msgs, keys, mtu, pos.written) && CountersLast(msgs, keys, pos)
    ensures var lost := Send(msgs, keys, pos, mtu, bio, k, flushed).lost;
      && (lost != [] ==> exists j :: StopsAt(msgs, keys, pos, mtu, j))
      && ((forall i :: i >= k ==> bio(i) > 0) ==> (lost != [] <==> exists j :: StopsAt(msgs, keys, pos, mtu, j)))
    decreases |msgs| - pos.written, if pos.written < |msgs| then |msgs[pos.written].Body()| - pos.offset else 0
  {
    hide CiphersLast, CountersLast, Outgoing.Body, WriteKeys.Valid, Datagram, Writable, Usable;
    if pos.written < |msgs| {
      var p := Datagram(msgs, keys, pos, mtu);
      if !p.Full() {
        StopsHere(msgs, keys, pos, mtu);
      } else if bio(k) > 0 {
        DatagramFailsIff(msgs, keys, pos, mtu, mtu, pos.written);
        CiphersLastFrom(msgs, p.keys, mtu, pos.written, p.end.written);
        LostIffStops(msgs, p.keys, p.end, mtu, bio, k + 1, flushed);
        forall j ensures StopsAt(msgs, keys, pos, mtu, j) <==> StopsAt(msgs, p.keys, p.end, mtu, j) {
          StopsLater(msgs, keys, pos, mtu, j);
        }
      }
    }
  }

  lemma CiphersLastFrom(msgs: seq<Outgoing>, keys: WriteKeys, mtu: nat, from: nat, later: nat)
    requires CiphersLast(msgs, keys, mtu, from) && from <= later
    ensures CiphersLast(msgs, keys, mtu, later)
  {
  }

  /** So nothing is lost of a flight whose messages are all usable, whatever the transport answers. */
  lemma NothingIsLost(msgs: seq<Outgoing>, keys: WriteKeys, pos: Position, mtu: nat,
                      bio: nat -> int, k: nat, flushed: int)
    requires Ready(msgs, keys, pos) && CiphersLast(msgs, keys, mtu, pos.written) && CountersLast(msgs, keys, pos)
    requires forall i :: pos.written <= i < |msgs| ==> Usable(keys, msgs[i])
    ensures Send(msgs, keys, pos, mtu, bio, k, flushed).lost == []
  {
    hide Send, Usable, CiphersLast, CountersLast, WriteKeys.Valid;
    LostIffStops(msgs, keys, pos, mtu, bio, k, flushed);
  }

  lemma {:induction false} WritableIsSent(msgs: seq<Outgoing>, keys: WriteKeys, pos: Position, mtu: nat,
                                          bio: nat -> int, k: nat, flushed: int, from: nat)
    requires Ready(msgs, keys, pos) && from <= pos.written
    requires CiphersLast(msgs, keys, mtu, from) && CountersLast(msgs, keys, pos)
    requires AllWritable(msgs, keys, mtu, from) && forall i :: i >= k ==> bio(i) > 0
    ensures var s := Send(msgs, keys, pos, mtu, bio, k, flushed);
      s.lost == [] && s.end == Position(|msgs|, 0) && s.ret == if flushed > 0 then 1 else -1
    decreases |msgs| - pos.written, if pos.written < |msgs| then |msgs[pos.written].Body()| - pos.offset else 0
  {
    hide CiphersLast, CountersLast, Outgoing.Body, Outgoing.WellFormed, WriteKeys.Valid, Datagram, Room;
    if pos.written < |msgs| {
      DatagramFailsIff(msgs, keys, pos, mtu, mtu, from);
      var p := Datagram(msgs, keys, pos, mtu);
      assert Writable(keys, msgs[pos.written], mtu);
      if p.end.written < |msgs| {
        assert Writable(keys, msgs[p.end.written], mtu);
      }
      WritableAfter(msgs, keys, p.keys, mtu, from);
      WritableIsSent(msgs, p.keys, p.end, mtu, bio, k + 1, flushed, from);
    }
  }

  lemma WritableAfter(msgs: seq<Outgoing>, keys: WriteKeys, after: WriteKeys, mtu: nat, from: nat)
    requires SameKeys(after, keys) && AllWritable(msgs, keys, mtu, from)
    ensures AllWritable(msgs, after, mtu, from)
  {
    hide Outgoing.WellFormed, Room;
    forall i | from <= i < |msgs| ensures Writable(after, msgs[i], mtu) {
      assert Writable(keys, msgs[i], mtu);
    }
  }

  lemma {:induction false} SendWrites(msgs: seq<Outgoing>, keys: WriteKeys, pos: Position, mtu: nat,
                                      bio: nat -> int, k: nat, flushed: int, i: nat)
    requires Ready(msgs, keys, pos) && pos.written <= i < |msgs|
    requires Send(msgs, keys, pos, mtu, bio, k, flushed).ret == 1
    ensures Writable(keys, msgs[i], mtu)
    decreases |msgs| - pos.written, if pos.written < |msgs| then |msgs[pos.written].Body()| - pos.offset else 0
  {
    hide Outgoing.Body, Outgoing.WellFormed, WriteKeys.Valid, Datagram, Room;
    var p := Datagram(msgs, keys, pos, mtu);
    if i < p.end.written {
      DatagramWrites(msgs, keys, pos, mtu, mtu, i);
    } else {
      SendWrites(msgs, p.keys, p.end, mtu, bio, k + 1, flushed, i);
    }
  }

  /**
   Where the transport takes everything and ciphers and counters last, a flight is sent if and
   only if each message left is well formed, of the current or the previous epoch, and has room
   for a byte in a datagram.
   */
  lemma SentIffWritable(msgs: seq<Outgoing>, keys: WriteKeys, pos: Position, mtu: nat,
                        bio: nat -> int, k: nat, flushed: int)
    requires Ready(msgs, keys, pos) && CountersLast(msgs, keys, pos) && CiphersLast(msgs, keys, mtu, pos.written)
    requires (forall i :: i >= k ==> bio(i) > 0) && flushed > 0
    ensures Send(msgs, keys, pos, mtu, bio, k, flushed).ret == 1 <==> AllWritable(msgs, keys, mtu, pos.written)
  {
    hide Send, Writable, Sealable, CountersLast, WriteKeys.Valid;
    if AllWritable(msgs, keys, mtu, pos.written) {
      WritableIsSent(msgs, keys, pos, mtu, bio, k, flushed, pos.written);
    } else if Send(msgs, keys, pos, mtu, bio, k, flushed).ret == 1 {
      forall i | pos.written <= i < |msgs| ensures Writable(keys, msgs[i], mtu) {
        SendWrites(msgs, keys, pos, mtu, bio, k, flushed, i);
      }
    }
  }

  // ----- when something is

  /** A cipher that seals handshake text as it is and refuses everything else. */
  function HandshakeOnly(): Aead {
    Aead(true, 0xfeff, 0, 0, (n, t, v, p) => if t == RT_HANDSHAKE then Some(p) else None, (n, t, v, p) => Some(p))
  }

  /** A handshake message and the ChangeCipherSpec behind it. */
  function TwoMessages(): seq<Outgoing> {
    [Outgoing(false, 0, Message(16, [1, 2, 3]).Raw(0)), Outgoing(true, 0, [])]
  }

  const ONLY_HANDSHAKE := WriteKeys(FIRST_NUMBERS, HandshakeOnly(), HandshakeOnly())

  lemma TwoOf()
    ensures |TwoMessages()| == 2
  {
  }

  lemma FirstGoes()
    ensures Ready(TwoMessages(), ONLY_HANDSHAKE, START)
    ensures var turn := TurnOf(TwoMessages(), ONLY_HANDSHAKE, START, DEFAULT_MTU);
      && turn.Goes? && turn.record.piece == Piece(0, 0, 3) && |turn.record.wire| <= 28
      && turn.after.counters == WriteNumbers(0, 1, 0, false, false)
    ensures |TwoMessages()[0].Body()| == 3
  {
    hide ParseFragment, WriteKeys.Number, PieceText, Carries;
    RawParses(Message(16, [1, 2, 3]), 0);
    var msg, piece := TwoMessages()[0], Piece(0, 0, 3);
    TextFits(msg, piece);
    RecordGoes(ONLY_HANDSHAKE, false, RT_HANDSHAKE, PieceText(msg, piece), DEFAULT_MTU);
  }

  lemma SecondFails(keys: WriteKeys, maxOut: nat)
    requires SameKeys(keys, ONLY_HANDSHAKE) && maxOut >= 14
    ensures TurnOf(TwoMessages(), keys, Position(1, 0), maxOut) == Fails(keys)
  {
    hide ParseFragment, WriteKeys.Number;
  }

  /** The first record is sealed, numbered and then dropped, because the one behind it is refused. */
  lemma SealedThenLost(bio: nat -> int, flushed: int)
    ensures Ready(TwoMessages(), ONLY_HANDSHAKE, START)
    ensures var s := Send(TwoMessages(), ONLY_HANDSHAKE, START, DEFAULT_MTU, bio, 0, flushed);
      && s.ret == -1 && s.datagrams == [] && s.reached == START
      && |s.lost| == 1 && s.end == Position(1, 0) && s.keys.counters.next == 1
  {
    hide TurnOf, Datagram, Send, Outgoing.Body, SentRecord.Ok, Fits, WriteKeys.Valid, PosValid, TwoMessages;
    FirstGoes();
    TwoOf();
    var turn := TurnOf(TwoMessages(), ONLY_HANDSHAKE, START, DEFAULT_MTU);
    var r, room := turn.record, DEFAULT_MTU - |turn.record.wire|;
    SecondFails(turn.after, room);
    DatagramGoesOn(TwoMessages(), ONLY_HANDSHAKE, START, DEFAULT_MTU, []);
    DatagramGoesOn(TwoMessages(), turn.after, Position(1, 0), room, [r]);
    assert [] + [r] == [r];
    var p := Datagram(TwoMessages(), ONLY_HANDSHAKE, START, DEFAULT_MTU);
    assert [] + p.sent == p.sent;
    SendGoesOn(TwoMessages(), ONLY_HANDSHAKE, START, DEFAULT_MTU, bio, 0, flushed, []);
    var s := Send(TwoMessages(), ONLY_HANDSHAKE, START, DEFAULT_MTU, bio, 0, flushed);
    assert [] + s.datagrams == s.datagrams;
  }

  // =====================================================================
  // Numbers
  // =====================================================================

  /** The number of the i-th entry of a flight whose first message has number `first`. */
  function NumberOf(first: nat, flight: seq<Outgoing>, i: nat): (n: nat)
    requires i <= |flight|
    ensures first <= n <= first + i
  {
    if i == 0 then first
    else NumberOf(first, flight, i - 1) + (if flight[i - 1].isCcs then 0 else 1)
  }

  lemma RawLength(m: Message, n: nat)
    requires n < TWO_16 && |m.body| < TWO_24
    ensures |m.Raw(n)| == HM_HEADER_LENGTH + |m.body|
  {
  }

  /** The bytes are the n-th message, as dtls1_finish_message left it. */
  ghost predicate KeptAs(msgs: seq<Message>, n: nat, data: seq<byte>) {
    n < |msgs| && n < TWO_16 && |msgs[n].body| < TWO_24 && data == msgs[n].Raw(n)
  }

  /** The flight keeps each message as one fragment, numbered in order. */
  ghost predicate Assembled(msgs: seq<Message>, first: nat, flight: seq<Outgoing>) {
    forall i :: 0 <= i < |flight| && !flight[i].isCcs ==> KeptAs(msgs, NumberOf(first, flight, i), flight[i].data)
  }

  lemma RawParses(m: Message, n: nat)
    requires n < TWO_16 && |m.body| < TWO_24
    ensures ParseFragment(m.Raw(n)) == Some((m.Slice(n, 0, |m.body|), []))
  {
    var f := m.Slice(n, 0, |m.body|);
    ParseEncoded(f, []);
    assert f.Encode() + [] == m.Raw(n);
  }
}
