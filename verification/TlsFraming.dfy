/**
 TLS handshake messages over records (s3_both.cc): messages are cut into records of bounded size
 on one side and put together again from a byte buffer on the other.
 */
module TlsFraming {
  import opened Bytes
  import opened Fragments

  const MESSAGE_HEADER: nat := 4

  // =====================================================================
  // Messages as bytes
  // =====================================================================

  function Encode(m: Message): (r: seq<byte>)
    requires |m.body| < TWO_24
    ensures |r| == MESSAGE_HEADER + |m.body|
  {
    [m.typ] + U24(|m.body|) + m.body
  }

  /** Section 7.4 of RFC 5246: the type, the length in three bytes, most significant first, and the body. */
  lemma MessageLayout(m: Message)
    requires |m.body| < TWO_24
    ensures var r := Encode(m);
      r[0] == m.typ && BigEndian(r[1..4]) == |m.body| && r[MESSAGE_HEADER..] == m.body
  {
    assert Encode(m)[1..4] == U24(|m.body|);
    BigEndianOfThree(Encode(m)[1..4]);
  }

  ghost predicate AllFit(msgs: seq<Message>) {
    forall i :: 0 <= i < |msgs| ==> |msgs[i].body| < TWO_24
  }

  /** How many bytes the first message of the buffer takes, as far as can be told yet. */
  function BytesNeeded(buf: seq<byte>): (n: nat)
    ensures n >= MESSAGE_HEADER
  {
    if |buf| < MESSAGE_HEADER then MESSAGE_HEADER else MESSAGE_HEADER + GetU24(buf[1..4])
  }

  predicate HasComplete(buf: seq<byte>) {
    |buf| >= BytesNeeded(buf)
  }

  /** All complete messages of the buffer, in order, as raw bytes. */
  function Complete(buf: seq<byte>): seq<seq<byte>>
    decreases |buf|
  {
    if HasComplete(buf) then [buf[..BytesNeeded(buf)]] + Complete(buf[BytesNeeded(buf)..]) else []
  }

  /** The incomplete message at the end. */
  function Leftover(buf: seq<byte>): seq<byte>
    decreases |buf|
  {
    if HasComplete(buf) then Leftover(buf[BytesNeeded(buf)..]) else buf
  }

  /** More bytes do not change the messages that are already complete. */
  lemma {:induction false} CompleteAppend(a: seq<byte>, b: seq<byte>)
    ensures Complete(a + b) == Complete(a) + Complete(Leftover(a) + b)
    ensures Leftover(a + b) == Leftover(Leftover(a) + b)
    decreases |a|
  {
    if HasComplete(a) {
      var n := BytesNeeded(a);
      assert (a + b)[1..4] == a[1..4];
      assert (a + b)[..n] == a[..n] && (a + b)[n..] == a[n..] + b;
      CompleteAppend(a[n..], b);
    }
  }

  lemma EncodedIsComplete(m: Message, rest: seq<byte>)
    requires |m.body| < TWO_24
    ensures var buf := Encode(m) + rest;
      BytesNeeded(buf) == |Encode(m)| && buf[..|Encode(m)|] == Encode(m) && buf[|Encode(m)|..] == rest
  {
    var buf := Encode(m) + rest;
    assert buf[1..4] == U24(|m.body|);
  }

  function Raws(msgs: seq<Message>): seq<seq<byte>>
    requires AllFit(msgs)
  {
    if msgs == [] then [] else [Encode(msgs[0])] + Raws(msgs[1..])
  }

  function Join(parts: seq<seq<byte>>): seq<byte> {
    if parts == [] then [] else parts[0] + Join(parts[1..])
  }

  lemma {:induction false} JoinAppend(a: seq<seq<byte>>, b: seq<seq<byte>>)
    ensures Join(a + b) == Join(a) + Join(b)
  {
    if a == [] {
      assert a + b == b;
    } else {
      assert (a + b)[1..] == a[1..] + b;
      JoinAppend(a[1..], b);
    }
  }

  lemma {:induction false} CompleteEncoded(msgs: seq<Message>)
    requires AllFit(msgs)
    ensures Complete(Join(Raws(msgs))) == Raws(msgs) && Leftover(Join(Raws(msgs))) == []
  {
    if msgs != [] {
      var rest := Join(Raws(msgs[1..]));
      assert Raws(msgs)[1..] == Raws(msgs[1..]);
      EncodedIsComplete(msgs[0], rest);
      CompleteEncoded(msgs[1..]);
    }
  }

  // =====================================================================
  // Sending
  // =====================================================================

  /** A message cut into records of at most `max` bytes. */
  function Chunks(msg: seq<byte>, max: nat): (r: seq<seq<byte>>)
    requires max > 0
    ensures Join(r) == msg
    decreases |msg|
  {
    if |msg| <= max then
      assert Join([msg]) == msg;
      [msg]
    else
      var rest := Chunks(msg[max..], max);
      assert ([msg[..max]] + rest)[1..] == rest && msg[..max] + msg[max..] == msg;
      [msg[..max]] + rest
  }

  /** All records but the last are full, and none is empty unless the message is. */
  lemma {:induction false} ChunksAreFull(msg: seq<byte>, max: nat)
    requires max > 0
    ensures var r := Chunks(msg, max);
      && r != []
      && (forall i :: 0 <= i < |r| ==> |r[i]| <= max && (msg != [] ==> r[i] != []))
      && (forall i :: 0 <= i < |r| - 1 ==> |r[i]| == max)
    decreases |msg|
  {
    if |msg| > max {
      ChunksAreFull(msg[max..], max);
    }
  }

  /** ssl3_add_message: at least one record, even for an empty message. */
  method AddMessage(msg: seq<byte>, maxSendFragment: nat) returns (records: seq<seq<byte>>)
    requires maxSendFragment > 0
    ensures records == Chunks(msg, maxSendFragment) != [] && Join(records) == msg
    ensures forall i :: 0 <= i < |records| ==> |records[i]| <= maxSendFragment
    ensures forall i :: 0 <= i < |records| - 1 ==> |records[i]| == maxSendFragment
    ensures msg != [] ==> forall i :: 0 <= i < |records| ==> records[i] != []
  {
    hide Join;
    var rest := msg;
    records := [];
    var first := true;
    while first || |rest| > 0
      invariant if first || |rest| > 0 then records + Chunks(rest, maxSendFragment) == Chunks(msg, maxSendFragment)
                else records == Chunks(msg, maxSendFragment)
      decreases first, |rest|
    {
      first := false;
      var n := if |rest| < maxSendFragment then |rest| else maxSendFragment;
      var chunk := rest[..n];
      OneMoreChunk(records, rest, n, maxSendFragment);
      records, rest := records + [chunk], rest[n..];
    }
    ChunksAreFull(msg, maxSendFragment);
  }

  lemma OneMoreChunk(records: seq<seq<byte>>, rest: seq<byte>, n: nat, max: nat)
    requires max > 0 && n == if |rest| < max then |rest| else max
    ensures records + Chunks(rest, max) ==
      records + [rest[..n]] + if |rest| > n then Chunks(rest[n..], max) else []
  {
    if |rest| <= max {
      assert rest[..n] == rest;
    }
  }

  // =====================================================================
  // Receiving
  // =====================================================================

  class HandshakeBuffer {
    var hsBuf: Option<seq<byte>>
    var hasMessage: bool

    ghost function Contents(): seq<byte>
      reads this
    {
      if hsBuf.None? then [] else hsBuf.value
    }

    ghost predicate Valid()
      reads this
    {
      hasMessage ==> HasComplete(Contents())
    }

    constructor ()
      ensures Valid() && Contents() == [] && !hasMessage
    {
      hsBuf, hasMessage := None, false;
    }

    /** parse_message: the length of the first message, or how many bytes it needs. */
    method Parse() returns (ok: bool, bytes: nat)
      ensures ok <==> HasComplete(Contents())
      ensures bytes == BytesNeeded(Contents())
    {
      if hsBuf.None? {
        return false, MESSAGE_HEADER;
      }
      var buf := hsBuf.value;
      if |buf| < MESSAGE_HEADER {
        return false, MESSAGE_HEADER;
      }
      var len := GetU24(buf[1..4]);
      return |buf| - MESSAGE_HEADER >= len, MESSAGE_HEADER + len;
    }

    /** tls_can_accept_handshake_data: the message before must be consumed, and sizes are limited. */
    method CanAcceptHandshakeData(maxLen: nat) returns (ok: bool)
      ensures ok <==> !HasComplete(Contents()) && BytesNeeded(Contents()) <= MESSAGE_HEADER + maxLen
    {
      var complete, needed := Parse();
      ok := !complete && needed <= MESSAGE_HEADER + maxLen;
    }

    /** The end of ssl3_open_handshake: the body of a handshake record is appended. */
    method AppendRecord(body: seq<byte>)
      requires Valid()
      modifies this`hsBuf
      ensures Valid() && Contents() == old(Contents()) + body
    {
      if hsBuf.None? {
        hsBuf := Some([]);
      }
      ghost var before := hsBuf.value;
      hsBuf := Some(hsBuf.value + body);
      if hasMessage {
        assert (before + body)[1..4] == before[1..4];
      }
    }

    /** ssl3_get_message. */
    method GetMessage() returns (raw: Option<seq<byte>>)
      requires Valid()
      modifies this`hasMessage
      ensures Valid()
      ensures raw == if Complete(Contents()) == [] then None else Some(Complete(Contents())[0])
      ensures hasMessage == (old(hasMessage) || raw.Some?)
    {
      var complete, n := Parse();
      if !complete {
        return None;
      }
      hasMessage := true;
      return Some(hsBuf.value[..n]);
    }

    /** ssl3_next_message: the first message leaves the buffer. */
    method NextMessage(inInit: bool)
      requires Valid() && hasMessage
      modifies this
      ensures Valid() && !hasMessage
      ensures Contents() == old(Contents())[BytesNeeded(old(Contents()))..]
      ensures Complete(old(Contents())) == [Complete(old(Contents()))[0]] + Complete(Contents())
      ensures Leftover(Contents()) == Leftover(old(Contents()))
    {
      var complete, n := Parse();
      hsBuf, hasMessage := Some(hsBuf.value[n..]), false;
      // Post-handshake messages are rare: release the buffer.
      if !inInit && |hsBuf.value| == 0 {
        hsBuf := None;
      }
    }

    /** tls_has_unprocessed_handshake_data: bytes beyond the message being read. */
    method HasUnprocessedHandshakeData() returns (r: bool)
      requires Valid()
      ensures r <==> |Contents()| > (if hasMessage then BytesNeeded(Contents()) else 0)
    {
      var msgLen := 0;
      if hasMessage {
        var complete, n := Parse();
        msgLen := n;
      }
      r := hsBuf.Some? && |hsBuf.value| > msgLen;
    }
  }

  // =====================================================================
  // Runs
  // =====================================================================

  datatype Event = Record(body: seq<byte>) | Consume

  /** The buffer after a run, and the messages handed over. */
  function Run(events: seq<Event>): (seq<byte>, seq<seq<byte>>) {
    if events == [] then ([], [])
    else
      var (buf, out) := Run(events[..|events| - 1]);
      match events[|events| - 1]
      case Record(body) => (buf + body, out)
      case Consume =>
        if HasComplete(buf) then (buf[BytesNeeded(buf)..], out + [buf[..BytesNeeded(buf)]]) else (buf, out)
  }

  /** The bytes of all records of a run. */
  function Received(events: seq<Event>): seq<byte> {
    if events == [] then []
    else
      Received(events[..|events| - 1]) +
      (if events[|events| - 1].Record? then events[|events| - 1].body else [])
  }

  /**
   Whatever the records' boundaries and whenever messages are taken out, what was handed over and
   what is still in the buffer are together the messages of the byte stream.
   */
  lemma {:induction false} BoundariesDoNotMatter(events: seq<Event>)
    ensures var (buf, out) := Run(events);
      && out + Complete(buf) == Complete(Received(events))
      && Leftover(buf) == Leftover(Received(events))
  {
    hide Complete, Leftover, BytesNeeded;
    if events == [] {
      NothingIsComplete();
    } else {
      var before, e := events[..|events| - 1], events[|events| - 1];
      var (buf, out) := Run(before);
      BoundariesDoNotMatter(before);
      if e.Record? {
        CompleteAppend(Received(before), e.body);
        CompleteAppend(buf, e.body);
        assert out + (Complete(buf) + Complete(Leftover(buf) + e.body))
            == out + Complete(buf) + Complete(Leftover(buf) + e.body);
      } else {
        assert Received(events) == Received(before);
        if HasComplete(buf) {
          FirstComplete(buf);
          var first, rest := buf[..BytesNeeded(buf)], Complete(buf[BytesNeeded(buf)..]);
          assert out + ([first] + rest) == out + [first] + rest;
        }
      }
    }
  }

  lemma NothingIsComplete()
    ensures Complete([]) == [] && Leftover([]) == []
  {
  }

  lemma FirstComplete(buf: seq<byte>)
    requires HasComplete(buf)
    ensures Complete(buf) == [buf[..BytesNeeded(buf)]] + Complete(buf[BytesNeeded(buf)..])
    ensures Leftover(buf) == Leftover(buf[BytesNeeded(buf)..])
  {
  }

  /**
   When the records carry exactly these messages, cut anywhere, these are handed over, in order. A
   reader that has read what there is has all of them, and nothing is left.
   */
  lemma FramingRoundTrip(msgs: seq<Message>, events: seq<Event>)
    requires AllFit(msgs) && Received(events) == Join(Raws(msgs))
    ensures Run(events).1 + Complete(Run(events).0) == Raws(msgs)
    ensures Leftover(Run(events).0) == []
    ensures !HasComplete(Run(events).0) ==> Run(events) == ([], Raws(msgs))
  {
    CompleteEncoded(msgs);
    BoundariesDoNotMatter(events);
    if !HasComplete(Run(events).0) {
      assert Run(events).1 + [] == Run(events).1;
    }
  }

  /** The records of all messages, each cut at the limit in force when it was added. */
  function AllChunks(msgs: seq<Message>, limits: seq<nat>): (r: seq<seq<byte>>)
    requires AllFit(msgs) && |limits| == |msgs| && forall i :: 0 <= i < |limits| ==> limits[i] > 0
    ensures Join(r) == Join(Raws(msgs))
  {
    if msgs == [] then []
    else
      var first, rest := Chunks(Encode(msgs[0]), limits[0]), AllChunks(msgs[1..], limits[1..]);
      JoinAppend(first, rest);
      assert Raws(msgs)[1..] == Raws(msgs[1..]);
      first + rest
  }

  /** The bodies of the records of a run. */
  function Bodies(events: seq<Event>): seq<seq<byte>> {
    if events == [] then []
    else
      Bodies(events[..|events| - 1]) +
      (if events[|events| - 1].Record? then [events[|events| - 1].body] else [])
  }

  lemma {:induction false} BodiesAreReceived(events: seq<Event>)
    ensures Join(Bodies(events)) == Received(events)
  {
    if events != [] {
      var before, e := events[..|events| - 1], events[|events| - 1];
      BodiesAreReceived(before);
      var last := if e.Record? then [e.body] else [];
      JoinAppend(Bodies(before), last);
      assert e.Record? ==> Join(last) == e.body + Join(last[1..]);
    }
  }

  /** From sender to receiver: the records the messages are cut into, at any limits, bring the messages back. */
  lemma SentIsReceived(msgs: seq<Message>, limits: seq<nat>, events: seq<Event>)
    requires AllFit(msgs) && |limits| == |msgs| && forall i :: 0 <= i < |limits| ==> limits[i] > 0
    requires Bodies(events) == AllChunks(msgs, limits)
    ensures Run(events).1 + Complete(Run(events).0) == Raws(msgs)
    ensures Leftover(Run(events).0) == []
    ensures !HasComplete(Run(events).0) ==> Run(events) == ([], Raws(msgs))
  {
    BodiesAreReceived(events);
    FramingRoundTrip(msgs, events);
  }

  /** The size limit never stops a peer whose messages respect it, wherever its stream is cut. */
  lemma {:induction false} LimitIsEnough(msgs: seq<Message>, maxLen: nat, n: nat)
    requires AllFit(msgs) && n <= |Join(Raws(msgs))|
    requires forall i :: 0 <= i < |msgs| ==> |msgs[i].body| <= maxLen
    ensures BytesNeeded(Leftover(Join(Raws(msgs))[..n])) <= MESSAGE_HEADER + maxLen
  {
    var all, part := Join(Raws(msgs)), Join(Raws(msgs))[..n];
    if msgs != [] {
      var first, rest := Encode(msgs[0]), Join(Raws(msgs[1..]));
      assert Raws(msgs)[1..] == Raws(msgs[1..]);
      assert all == first + rest;
      EncodedIsComplete(msgs[0], rest);
      if |first| <= n {
        assert part == first + rest[..n - |first|];
        EncodedIsComplete(msgs[0], rest[..n - |first|]);
        LimitIsEnough(msgs[1..], maxLen, n - |first|);
      } else if n >= MESSAGE_HEADER {
        assert part[1..4] == all[1..4];
      }
    }
  }
}
