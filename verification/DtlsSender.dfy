/**
 The flight writer of d1_both.cc: assembling messages, cutting them into fragments that fit the
 MTU, packing those into datagrams, and resuming or rewinding after a failed write.
 */
module DtlsSender {
  import opened Bytes
  import opened DtlsFlight
  import opened DtlsRecord
  import opened Fragments

  const MIN_MTU: nat := 256 - 28
  const MAX_QUERIED_MTU: nat := 0x4000_0000

  /** The message that bytes are the only fragment of. */
  function MessageOf(data: seq<byte>): Message {
    match ParseFragment(data)
    case None => Message(0, [])
    case Some((f, rest)) => Message(f.typ, f.bytes)
  }

  /** The bytes are a whole message under this number. */
  predicate IsRaw(data: seq<byte>, n: nat) {
    n < TWO_16 && |MessageOf(data).body| < TWO_24 && data == MessageOf(data).Raw(n)
  }

  lemma RawIsRaw(m: Message, n: nat)
    requires n < TWO_16 && |m.body| < TWO_24
    ensures MessageOf(m.Raw(n)) == m && IsRaw(m.Raw(n), n)
  {
    RawParses(m, n);
  }

  lemma {:induction false} NumberOfGrows(first: nat, flight: seq<Outgoing>, o: Outgoing, i: nat)
    requires i <= |flight|
    ensures NumberOf(first, flight + [o], i) == NumberOf(first, flight, i)
  {
    if i > 0 {
      NumberOfGrows(first, flight, o, i - 1);
    }
  }

  /** One more message, under the next number, keeps a flight assembled. */
  lemma AssembledGrows(history: seq<Message>, first: nat, flight: seq<Outgoing>, o: Outgoing)
    requires Assembled(history, first, flight) && Sendable(history)
    requires NumberOf(first, flight, |flight|) == |history|
    requires o.isCcs || IsRaw(o.data, |history|)
    ensures var more := if o.isCcs then history else history + [MessageOf(o.data)];
      && Assembled(more, first, flight + [o])
      && NumberOf(first, flight + [o], |flight| + 1) == |more|
      && (|more| < TWO_16 ==> Sendable(more))
  {
    hide KeptAs, MessageOf, IsRaw, Message.Raw, NumberOf;
    var more, grown := if o.isCcs then history else history + [MessageOf(o.data)], flight + [o];
    NumberOfGrows(first, flight, o, |flight|);
    NumberOfLast(first, flight, o);
    forall i | 0 <= i < |grown| && !grown[i].isCcs ensures KeptAs(more, NumberOf(first, grown, i), grown[i].data) {
      if i < |flight| {
        NumberOfGrows(first, flight, o, i);
        assert grown[i] == flight[i];
        StaysKept(history, more, NumberOf(first, flight, i), flight[i].data);
      } else {
        NewIsKept(history, o.data);
      }
    }
    if !o.isCcs && |more| < TWO_16 {
      NewIsKept(history, o.data);
    }
  }

  lemma NumberOfLast(first: nat, flight: seq<Outgoing>, o: Outgoing)
    ensures NumberOf(first, flight + [o], |flight| + 1) ==
            NumberOf(first, flight + [o], |flight|) + (if o.isCcs then 0 else 1)
  {
  }

  lemma StaysKept(history: seq<Message>, more: seq<Message>, n: nat, data: seq<byte>)
    requires KeptAs(history, n, data) && history <= more
    ensures KeptAs(more, n, data)
  {
    hide Message.Raw;
  }

  lemma NewIsKept(history: seq<Message>, data: seq<byte>)
    requires IsRaw(data, |history|)
    ensures KeptAs(history + [MessageOf(data)], |history|, data) && |MessageOf(data).body| < TWO_24
  {
    hide Message.Raw, MessageOf;
  }

  lemma NothingAssembled(history: seq<Message>)
    ensures Assembled(history, |history|, []) && NumberOf(|history|, [], 0) == |history| && PosValid([], START)
  {
  }

  lemma PosGrows(msgs: seq<Outgoing>, o: Outgoing, pos: Position)
    requires PosValid(msgs, pos)
    ensures PosValid(msgs + [o], pos)
  {
    hide Outgoing.Body;
  }

  /** What dtls1_update_mtu makes of the MTU; `queried` is what the BIO answers. */
  function UpdatedMtu(mtu: nat, noQuery: bool, queried: int): nat {
    if mtu >= MIN_MTU || noQuery then mtu
    else if MIN_MTU <= queried <= MAX_QUERIED_MTU then queried
    else DEFAULT_MTU
  }

  /** Each datagram is the bytes of its records. */
  ghost predicate AreWires(datagrams: seq<seq<byte>>, records: seq<seq<SentRecord>>) {
    |datagrams| == |records| && forall i :: 0 <= i < |datagrams| ==> datagrams[i] == Wires(records[i])
  }

  /** The bytes of the next message that are still to be written. */
  function Left(msgs: seq<Outgoing>, pos: Position): nat {
    if pos.written < |msgs| && pos.offset <= |msgs[pos.written].Body()|
    then |msgs[pos.written].Body()| - pos.offset else 0
  }

  lemma LeftFalls(msgs: seq<Outgoing>, p: Position, q: Position)
    requires PosValid(msgs, p) && PosValid(msgs, q) && Behind(msgs, p, q)
    ensures p.written < q.written <= |msgs| || (p.written == q.written && Left(msgs, q) < Left(msgs, p))
  {
    hide Outgoing.Body;
  }

  function NotSent(pos: Position, keys: WriteKeys): Sending {
    Sending(-1, [], pos, keys, [], pos, keys)
  }

  /**
   What is sent on top of the accepted records are records of the flight too. If those end where
   sending begins, all lead to the position reached, which is the one in the end if nothing is lost.
   */
  lemma SendExtends(msgs: seq<Outgoing>, keys: WriteKeys, pos: Position, mtu: nat, bio: nat -> int, flushed: int,
                    accepted: seq<SentRecord>)
    requires Ready(msgs, keys, pos) && AllOk(msgs, accepted)
    ensures var s := Send(msgs, keys, pos, mtu, bio, 0, flushed);
      && AllOk(msgs, accepted + Join(s.datagrams))
      && (Leads(msgs, START, accepted, pos) ==> Leads(msgs, START, accepted + Join(s.datagrams), s.reached))
      && (s.lost == [] ==> s.end == s.reached)
  {
    hide Send, Leads, Join, Wires, AllOk;
    SendFacts(msgs, keys, pos, mtu, bio, 0, flushed);
    var s := Send(msgs, keys, pos, mtu, bio, 0, flushed);
    LeadsAreOk(msgs, pos, Join(s.datagrams), s.reached);
    AllOkAppend(msgs, accepted, Join(s.datagrams));
    if Leads(msgs, START, accepted, pos) {
      LeadsAppend(msgs, START, accepted, pos, Join(s.datagrams), s.reached);
    }
  }

  lemma LeadsAreOk(msgs: seq<Outgoing>, pos: Position, sent: seq<SentRecord>, end: Position)
    requires Leads(msgs, pos, sent, end)
    ensures AllOk(msgs, sent)
  {
  }

  datatype SealResult = SealError | NoProgress | PartSealed | MessageSealed

  class FlightWriter {
    const records: RecordWriter
    var messages: seq<Outgoing>
    var written: nat
    var offset: nat
    var complete: bool
    var flightHasReply: bool
    var writeSeq: nat
    var mtu: nat
    /** The records in datagrams the BIO took since the flight was last rewound. */
    ghost var accepted: seq<SentRecord>
    /** No record was sealed and then dropped since then. */
    ghost var intact: bool
    /** Write-state changes since the flight's first message was added. */
    ghost var changes: nat
    /** All handshake messages ever added, how many there were before this flight, and whether all were assembled. */
    ghost var history: seq<Message>
    ghost var first: nat
    ghost var assembled: bool

    ghost predicate Valid()
      reads this, records, records.writeSequence, records.lastWriteSequence
    {
      && records.Valid()
      && |messages| <= MAX_FLIGHT && writeSeq < TWO_16
      && PosValid(messages, Pos())
      && AllOk(messages, accepted) && (intact ==> Leads(messages, START, accepted, Pos()))
      && EpochsOk() && Numbered()
      && (flightHasReply ==> complete)
    }

    ghost function Pos(): Position
      reads this
    {
      Position(written, offset)
    }

    /** Messages carry consecutive numbers over the whole connection, for as long as there are numbers. */
    ghost predicate Numbered()
      reads this`messages, this`writeSeq, this`history, this`first, this`assembled
    {
      assembled && |history| < TWO_16 ==>
        && writeSeq == |history| && Sendable(history) && first <= |history|
        && Assembled(history, first, messages) && NumberOf(first, messages, |messages|) == |history|
    }

    /** At most one change of the write state leaves every message in the current or previous epoch. */
    ghost predicate EpochsOk()
      reads this`messages, this`changes, records`wEpoch
    {
      && (messages == [] ==> changes == 0)
      && (forall i :: 0 <= i < |messages| ==>
            && (changes == 0 ==> messages[i].epoch == records.wEpoch)
            && (changes == 1 && records.wEpoch >= 1 ==>
                  messages[i].epoch == records.wEpoch || messages[i].epoch == records.wEpoch - 1))
    }

    /**
     The epoch check of seal_next_message cannot fail when the write state changed at most once
     since the flight was begun and the epoch did not run over.
     */
    lemma EpochMismatchUnreachable(i: nat)
      requires Valid() && i < |messages|
      requires changes <= 1 && (changes == 1 ==> records.wEpoch >= 1)
      ensures EpochOk(records.wEpoch, messages[i])
    {
      assert changes == 0 || changes == 1;
    }

    constructor (initial: Aead)
      requires Bounded(initial)
      ensures Valid() && fresh(records) && fresh(records.writeSequence) && fresh(records.lastWriteSequence)
      ensures messages == [] && intact && accepted == [] && !complete && !flightHasReply
      ensures assembled && history == [] && writeSeq == 0
    {
      records := new RecordWriter(initial);
      messages, written, offset, complete, flightHasReply := [], 0, 0, false, false;
      writeSeq, mtu, accepted, intact, changes := 0, 0, [], true, 0;
      history, first, assembled := [], 0, true;
    }

    /** dtls_clear_outgoing_messages. */
    method Clear()
      requires Valid()
      modifies this
      ensures Valid() && messages == [] && Pos() == START && !complete && !flightHasReply
      ensures accepted == [] && intact && writeSeq == old(writeSeq) && mtu == old(mtu)
      ensures history == old(history) && assembled == old(assembled)
    {
      hide RecordWriter.Valid, Leads, AllOk, PosValid, Sendable, Assembled, NumberOf;
      messages, written, offset, complete, flightHasReply := [], 0, 0, false, false;
      accepted, intact, changes, first := [], true, 0, |history|;
      LeadsNothing(messages, START);
      NothingAssembled(history);
      assert EpochsOk() && Numbered();
    }

    /**
     dtls1_init_message and dtls1_finish_message: the header under the next number, with the length
     filled in from the body's, and the body. None when the body is too long for its length prefix.
     */
    method Assemble(typ: byte, body: seq<byte>) returns (data: Option<seq<byte>>)
      requires writeSeq < TWO_16
      ensures data == if |body| < TWO_24 then Some(Message(typ, body).Raw(writeSeq)) else None
    {
      if |body| >= TWO_24 {
        return None;
      }
      var bytes := [typ] + U24(0) + U16(writeSeq) + U24(0) + U24(|body|) + body;
      assert bytes[HM_HEADER_LENGTH - 3..HM_HEADER_LENGTH] == U24(|body|);
      bytes := bytes[..1] + bytes[HM_HEADER_LENGTH - 3..HM_HEADER_LENGTH] + bytes[4..];
      assert bytes == Message(typ, body).Raw(writeSeq);
      return Some(bytes);
    }

    /** A handshake message: assembled under the next number and added to the flight. */
    method AddMessage(typ: byte, body: seq<byte>) returns (ok: bool)
      requires Valid()
      modifies this
      ensures Valid() && assembled == old(assembled)
      ensures var flight := if old(complete) then [] else old(messages);
        && (ok <==> |body| < TWO_24 && |flight| < MAX_FLIGHT)
        && (ok ==> messages == flight + [Outgoing(false, records.wEpoch, Message(typ, body).Raw(old(writeSeq)))])
      ensures history == if ok then old(history) + [Message(typ, body)] else old(history)
    {
      hide RecordWriter.Valid, Leads, AllOk, Outgoing.Body, Message.Raw, MessageOf, IsRaw, Numbered, EpochsOk;
      var data := Assemble(typ, body);
      if data.None? {
        return false;
      }
      RawIsRaw(Message(typ, body), writeSeq);
      RawLength(Message(typ, body), writeSeq);
      ok := AddOutgoing(false, data.value);
    }

    /** add_outgoing; a finished flight is discarded first. */
    method AddOutgoing(isCcs: bool, data: seq<byte>) returns (ok: bool)
      requires Valid()
      modifies this
      ensures Valid()
      ensures var flight := if old(complete) then [] else old(messages);
        && ok == (|flight| < MAX_FLIGHT && |data| < TWO_32)
        && messages == (if ok then flight + [Outgoing(isCcs, records.wEpoch, data)] else flight)
        && writeSeq == (if ok && !isCcs then (old(writeSeq) + 1) % TWO_16 else old(writeSeq))
      ensures Pos() == if old(complete) then START else old(Pos())
      ensures history == if ok && !isCcs then old(history) + [MessageOf(data)] else old(history)
      ensures assembled <==> old(assembled) && (ok && !isCcs ==> IsRaw(data, old(writeSeq)))
    {
      hide RecordWriter.Valid, Leads, AllOk, Message.Raw, MessageOf, IsRaw, Assembled, Sendable, NumberOf, PosValid;
      if complete {
        Clear();
      }
      if |messages| >= MAX_FLIGHT || |data| >= TWO_32 {
        return false;
      }
      ghost var msg := Outgoing(isCcs, records.wEpoch, data);
      PosGrows(messages, msg, Pos());
      if assembled && |history| < TWO_16 && (isCcs || IsRaw(data, writeSeq)) {
        AssembledGrows(history, first, messages, msg);
      }
      if !isCcs {
        assembled := assembled && IsRaw(data, writeSeq);
        history := history + [MessageOf(data)];
        writeSeq := (writeSeq + 1) % TWO_16;
      }
      AllOkGrow(messages, msg, accepted);
      if intact {
        LeadsGrow(messages, msg, START, accepted, Pos());
      }
      messages := messages + [Outgoing(isCcs, records.wEpoch, data)];
      return true;
    }

    /** The part of dtls1_next_message that concerns the flight: the peer's answer shows that it arrived. */
    method NoteReply()
      requires Valid()
      modifies this`flightHasReply
      ensures Valid() && flightHasReply == complete
    {
      if complete {
        flightHasReply := true;
      }
    }

    /** dtls1_on_handshake_complete: a flight without a reply stays for post-handshake retransmission. */
    method OnHandshakeComplete()
      requires Valid()
      modifies this
      ensures Valid() && writeSeq == old(writeSeq) && mtu == old(mtu)
      ensures messages == (if old(flightHasReply) then [] else old(messages))
      ensures !old(flightHasReply) ==> Pos() == old(Pos()) && complete == old(complete) && accepted == old(accepted)
    {
      if flightHasReply {
        Clear();
      }
    }

    /** dtls1_set_write_state while a flight may be open. */
    method SetWriteState(next: Aead)
      requires Valid() && Bounded(next)
      modifies this`changes, records, records.writeSequence, records.lastWriteSequence
      ensures Valid()
      ensures changes == if messages == [] then 0 else old(changes) + 1
      ensures records.Keys() == WriteKeys(old(records.counters).Step(ChangeState), next, old(records.aead))
    {
      hide RecordWriter.Valid, Leads, AllOk;
      records.ValidFacts();
      records.SetWriteState(next);
      records.ValidFacts();
      changes := if messages == [] then 0 else changes + 1;
    }

    /** Sealing one piece of the next message. */
    method SealPiece(msg: Outgoing, typ: byte, text: seq<byte>, maxOut: nat, usePrevious: bool, ghost piece: Piece)
      returns (r: Option<seq<byte>>, ghost turn: Turn)
      requires records.Valid() && usePrevious == UsesPrevious(records.wEpoch, msg)
      requires InBounds(messages, piece) && msg == messages[piece.index] && msg.WellFormed()
      requires typ == PieceType(msg) && text == PieceText(msg, piece)
      modifies records`counters, records.writeSequence, records.lastWriteSequence
      ensures records.Valid() && old(records.Keys()).Valid()
      ensures turn == SealTurn(messages, old(records.Keys()), piece, maxOut)
      ensures records.Keys() == turn.after
      ensures r == if turn.Goes? then Some(turn.record.wire) else None
    {
      hide RecordWriter.Valid, WriteNumbers.Step, WriteNumbers.Emitted, WriteNumbers.Number, Outcome, Carries,
        Bounded, RecordWriter.NextNumber, WriteKeys.Number, PieceText, PieceType, Outgoing.Body, Outgoing.WellFormed;
      records.ValidFacts();
      records.NumberIs(usePrevious);
      ghost var keys := records.Keys();
      turn := SealTurn(messages, keys, piece, maxOut);
      r := records.SealRecord(typ, text, maxOut, usePrevious);
    }

    /** seal_next_message. */
    method SealNextMessage(maxOut: nat) returns (res: SealResult, out: seq<byte>, ghost turn: Turn)
      requires records.Valid() && PosValid(messages, Pos()) && written < |messages|
      modifies this`offset, records`counters, records.writeSequence, records.lastWriteSequence
      ensures records.Valid() && Ready(messages, old(records.Keys()), old(Pos()))
      ensures turn == TurnOf(messages, old(records.Keys()), old(Pos()), maxOut)
      ensures res.SealError? <==> turn.Fails?
      ensures res.NoProgress? <==> turn.NoRoom?
      ensures records.Keys() == if turn.NoRoom? then old(records.Keys()) else turn.after
      ensures if turn.Goes? then
                && out == turn.record.wire
                && (res.MessageSealed? <==> turn.record.piece.end == |messages[written].Body()|)
                && offset == if res.PartSealed? then turn.record.piece.end else 0
              else out == [] && offset == old(offset)
    {
      hide Leads, AllOk, RecordWriter.Valid, SentRecord.Ok, HmHeader, ParseFragment, Bounded, Fragment.Encode, Carries,
        SealTurn, WriteKeys.Number, WriteNumbers.Step, WriteNumbers.Emitted;
      records.ValidFacts();
      records.NumberIs(false);
      var msg := messages[written];
      turn := TurnOf(messages, records.Keys(), Pos(), maxOut);
      var usePrevious := false;
      if records.wEpoch >= 1 && msg.epoch == records.wEpoch - 1 {
        usePrevious := true;
      } else if msg.epoch != records.wEpoch {
        return SealError, [], turn;
      }
      var cipher := records.UseAead(usePrevious);
      var overhead := RT_HEADER_LENGTH + cipher.maxOverhead;
      var r;
      if msg.isCcs {
        if maxOut < 1 + overhead {
          return NoProgress, [], turn;
        }
        r, turn := SealPiece(msg, RT_CHANGE_CIPHER_SPEC, [MT_CCS], maxOut, usePrevious, Piece(written, offset, offset));
        if r.None? {
          return SealError, [], turn;
        }
        return MessageSealed, r.value, turn;
      }
      // The message is kept as a single fragment.
      var parsed := ParseFragment(msg.data);
      if parsed.None? {
        return SealError, [], turn;
      }
      var hdr, rest := parsed.value.0, parsed.value.1;
      if hdr.off != 0 || hdr.len != |hdr.bytes| || offset > |hdr.bytes| || rest != [] {
        return SealError, [], turn;
      }
      var body := hdr.bytes[offset..];
      // Determine how much progress can be made.
      if maxOut < HM_HEADER_LENGTH + 1 + overhead || maxOut < RT_HEADER_LENGTH + cipher.nonceLen {
        return NoProgress, [], turn;
      }
      var todo := |body|;
      if todo > maxOut - HM_HEADER_LENGTH - overhead {
        todo := maxOut - HM_HEADER_LENGTH - overhead;
      }
      var frag := Fragment(hdr.typ, hdr.len, hdr.seqNum, offset, body[..todo]);
      ghost var piece := Piece(written, offset, offset + todo);
      assert frag == PieceFragment(msg, piece);
      r, turn := SealPiece(msg, RT_HANDSHAKE, frag.Encode(), maxOut, usePrevious, piece);
      if r.None? {
        return SealError, [], turn;
      }
      if todo == |body| {
        offset := 0;
        return MessageSealed, r.value, turn;
      }
      offset := offset + todo;
      return PartSealed, r.value, turn;
    }

    /**
     seal_next_packet: as many records as fit. When it fails, the position has moved past what it
     sealed until then.
     */
    method SealNextPacket(maxOut: nat) returns (ok: bool, packet: seq<byte>, ghost p: Packed)
      requires records.Valid() && PosValid(messages, Pos()) && written < |messages|
      modifies this`written, this`offset, records`counters, records.writeSequence, records.lastWriteSequence
      ensures records.Valid() && Ready(messages, old(records.Keys()), old(Pos()))
      ensures p == Datagram(messages, old(records.Keys()), old(Pos()), maxOut)
      ensures ok == p.Full()
      ensures packet == if ok then Wires(p.sent) else []
      ensures Pos() == p.end && PosValid(messages, Pos()) && records.Keys() == p.After()
    {
      hide RecordWriter.Valid, Wires, TurnOf, Outgoing.Body, Outgoing.WellFormed, SentRecord.Ok, WriteKeys.Valid,
        PosValid, Datagram, Next;
      records.ValidFacts();
      records.NumberIs(false);
      p := Datagram(messages, records.Keys(), Pos(), maxOut);
      ghost var sent: seq<SentRecord> := [];
      var madeProgress := false;
      var room: nat := maxOut;
      packet := [];
      NoWires();
      while written < |messages|
        invariant records.Valid() && Ready(messages, records.Keys(), Pos())
        invariant p == Datagram(messages, records.Keys(), Pos(), room).Following(sent)
        invariant packet == Wires(sent) && |packet| + room == maxOut
        invariant madeProgress <==> sent != []
        decreases |messages| - written
      {
        ghost var keys, pos := records.Keys(), Pos();
        var ret, out;
        ghost var turn;
        DatagramGoesOn(messages, keys, pos, room, sent);
        ret, out, turn := SealNextMessage(room);
        if ret.SealError? {
          return false, [], p;
        }
        if ret.NoProgress? {
          break;
        }
        WiresOneMore(sent, turn.record);
        sent := sent + [turn.record];
        packet, room, madeProgress := packet + out, room - |out|, true;
        if ret.PartSealed? {
          break;
        }
        written := written + 1;
      }
      if written >= |messages| {
        DatagramGoesOn(messages, records.Keys(), Pos(), room, sent);
      }
      assert p == Packed(sent, Pos(), records.Keys(), None);
      if !madeProgress {
        return false, [], p;
      }
      return true, packet, p;
    }

    /** dtls1_update_mtu. */
    method UpdateMtu(noQuery: bool, queried: int)
      requires noQuery ==> mtu >= MIN_MTU
      modifies this`mtu
      ensures mtu == UpdatedMtu(old(mtu), noQuery, queried) >= MIN_MTU
      ensures old(mtu) >= 228 ==> mtu == old(mtu)
      ensures old(mtu) < 228 ==> mtu == if 228 <= queried <= 0x4000_0000 then queried else 1472
    {
      if mtu < MIN_MTU && !noQuery {
        mtu := if 0 <= queried <= MAX_QUERIED_MTU && queried >= MIN_MTU then queried else DEFAULT_MTU;
      }
    }

    /**
     The loop of send_flight and the flush. The transport answers the k-th datagram with `bio(k)`; a
     datagram it refuses is rolled back. `datagrams` are those it took.
     */
    method SendDatagrams(bio: nat -> int, flushed: int)
      returns (ret: int, datagrams: seq<seq<byte>>, ghost s: Sending)
      requires records.Valid() && PosValid(messages, Pos())
      modifies this`written, this`offset, records`counters, records.writeSequence, records.lastWriteSequence
      ensures records.Valid() && Ready(messages, old(records.Keys()), old(Pos()))
      ensures s == Send(messages, old(records.Keys()), old(Pos()), mtu, bio, 0, flushed)
      ensures ret == s.ret && Pos() == s.end && PosValid(messages, Pos()) && records.Keys() == s.keys
      ensures AreWires(datagrams, s.datagrams)
    {
      hide RecordWriter.Valid, Wires, Outgoing.Body, PosValid, Left, Datagram, WriteKeys.Valid, Send;
      records.ValidFacts();
      records.NumberIs(false);
      ret, datagrams, s := -1, [], Send(messages, records.Keys(), Pos(), mtu, bio, 0, flushed);
      ghost var taken: seq<seq<SentRecord>> := [];
      var k := 0;
      while written < |messages|
        invariant records.Valid() && Ready(messages, records.Keys(), Pos())
        invariant s == Send(messages, records.Keys(), Pos(), mtu, bio, k, flushed).Following(taken)
        invariant AreWires(datagrams, taken) && k == |taken| && ret == -1
        decreases |messages| - written, Left(messages, Pos())
      {
        SendGoesOn(messages, records.Keys(), Pos(), mtu, bio, k, flushed, taken);
        ghost var start := Pos();
        var oldWritten, oldOffset := written, offset;
        var ok, packet;
        ghost var p;
        ok, packet, p := SealNextPacket(mtu);
        if !ok {
          return;
        }
        var bioRet := bio(k);
        if bioRet <= 0 {
          // Retry this packet the next time around.
          written, offset := oldWritten, oldOffset;
          return bioRet, datagrams, s;
        }
        LeftFalls(messages, start, Pos());
        datagrams, taken, k := datagrams + [packet], taken + [p.sent], k + 1;
      }
      SendGoesOn(messages, records.Keys(), Pos(), mtu, bio, k, flushed, taken);
      if flushed > 0 {
        ret := 1;
      }
    }

    /** send_flight. */
    method SendFlight(writeShutdown: bool, noQuery: bool, queried: int, bio: nat -> int, flushed: int)
      returns (ret: int, datagrams: seq<seq<byte>>, ghost s: Sending)
      requires Valid() && (noQuery ==> mtu >= MIN_MTU)
      modifies this`written, this`offset, this`mtu, this`accepted, this`intact,
               records`counters, records.writeSequence, records.lastWriteSequence
      ensures Valid() && Ready(messages, old(records.Keys()), old(Pos()))
      ensures s == if writeShutdown then NotSent(old(Pos()), old(records.Keys()))
                   else Send(messages, old(records.Keys()), old(Pos()), mtu, bio, 0, flushed)
      ensures ret == s.ret && Pos() == s.end && records.Keys() == s.keys
      ensures mtu == if writeShutdown then old(mtu) else UpdatedMtu(old(mtu), noQuery, queried)
      ensures AreWires(datagrams, s.datagrams)
      ensures accepted == old(accepted) + Join(s.datagrams)
      ensures intact <==> old(intact) && s.lost == []
    {
      hide RecordWriter.Valid, Leads, AllOk, Wires, PosValid, WriteKeys.Valid, Numbered, Send;
      ghost var keys, pos := records.Keys(), Pos();
      records.ValidFacts();
      records.NumberIs(false);
      if writeShutdown {
        assert accepted + Join([]) == accepted;
        return -1, [], NotSent(pos, keys);
      }
      UpdateMtu(noQuery, queried);
      ret, datagrams, s := SendDatagrams(bio, flushed);
      records.ValidFacts();
      SendExtends(messages, keys, pos, mtu, bio, flushed, accepted);
      accepted, intact := accepted + Join(s.datagrams), intact && s.lost == [];
    }

    /** dtls1_flush_flight. */
    method FlushFlight(writeShutdown: bool, noQuery: bool, queried: int, bio: nat -> int, flushed: int)
      returns (ret: int, datagrams: seq<seq<byte>>, ghost s: Sending)
      requires Valid() && (noQuery ==> mtu >= MIN_MTU)
      modifies this, records`counters, records.writeSequence, records.lastWriteSequence
      ensures Valid() && complete && Ready(messages, old(records.Keys()), old(Pos()))
      ensures messages == old(messages) && writeSeq == old(writeSeq) && history == old(history)
      ensures s == if writeShutdown then NotSent(old(Pos()), old(records.Keys()))
                   else Send(messages, old(records.Keys()), old(Pos()), mtu, bio, 0, flushed)
      ensures ret == s.ret && Pos() == s.end && records.Keys() == s.keys && AreWires(datagrams, s.datagrams)
      ensures accepted == old(accepted) + Join(s.datagrams)
      ensures intact <==> old(intact) && s.lost == []
    {
      hide RecordWriter.Valid, Leads, AllOk, Wires, Outgoing.Body, PosValid, Join, WriteKeys.Valid, Send;
      complete := true;
      ret, datagrams, s := SendFlight(writeShutdown, noQuery, queried, bio, flushed);
    }

    /** dtls1_retransmit_outgoing_messages: rewind, and write the whole flight again. */
    method Retransmit(writeShutdown: bool, noQuery: bool, queried: int, bio: nat -> int, flushed: int)
      returns (ret: int, datagrams: seq<seq<byte>>, ghost s: Sending)
      requires Valid() && (noQuery ==> mtu >= MIN_MTU)
      modifies this, records`counters, records.writeSequence, records.lastWriteSequence
      ensures Valid() && complete == old(complete) && Ready(messages, old(records.Keys()), START)
      ensures messages == old(messages) && writeSeq == old(writeSeq) && history == old(history)
      ensures s == if writeShutdown then NotSent(START, old(records.Keys()))
                   else Send(messages, old(records.Keys()), START, mtu, bio, 0, flushed)
      ensures ret == s.ret && Pos() == s.end && records.Keys() == s.keys && AreWires(datagrams, s.datagrams)
      ensures accepted == Join(s.datagrams) && (intact <==> s.lost == [])
      ensures ret > 0 ==> ret == 1 && Leads(messages, START, accepted, Position(|messages|, 0))
    {
      hide RecordWriter.Valid, Leads, AllOk, Wires, Outgoing.Body, Join, WriteKeys.Valid, Send;
      written, offset, accepted, intact := 0, 0, [], true;
      LeadsNothing(messages, START);
      ghost var keys := records.Keys();
      ret, datagrams, s := SendFlight(writeShutdown, noQuery, queried, bio, flushed);
      assert [] + Join(s.datagrams) == Join(s.datagrams);
      if !writeShutdown {
        SendFacts(messages, keys, START, mtu, bio, 0, flushed);
      }
    }
  }
}
