/**
 Client and server together over two FIFO channels: an honest handshake never fails, always
 finishes, and both sides compute their secrets and Finished messages over the same transcript.
 */
module TlsAgreement {
  import opened Bytes
  import opened TlsHandshake

  // =====================================================================
  // The script of a handshake
  // =====================================================================

  /** Everything either side may send. */
  datatype Slot =
    | CHello | SHello | SCert | SStatus | SKeyExchange | SCertRequest | SHelloDone | CCert | CKeyExchange | CVerify
    | CCcs | CNextProto | CChannelId | CFinished | STicket | SCcs | SFinished

  function Size(p: Params): nat {
    if p.resumed then 9 else 17
  }

  /** The order of the slots: the server finishes first when a session is resumed. */
  function SlotAt(p: Params, i: nat): Slot
    requires i < Size(p)
  {
    if i == 0 then CHello
    else if i == 1 then SHello
    else if p.resumed then
      if i == 2 then STicket else if i == 3 then SCcs else if i == 4 then SFinished
      else if i == 5 then CCcs else if i == 6 then CNextProto else if i == 7 then CChannelId else CFinished
    else if i == 2 then SCert else if i == 3 then SStatus else if i == 4 then SKeyExchange
    else if i == 5 then SCertRequest else if i == 6 then SHelloDone else if i == 7 then CCert
    else if i == 8 then CKeyExchange else if i == 9 then CVerify else if i == 10 then CCcs
    else if i == 11 then CNextProto else if i == 12 then CChannelId else if i == 13 then CFinished
    else if i == 14 then STicket else if i == 15 then SCcs else SFinished
  }

  predicate ByServer(slot: Slot) {
    match slot
    case SHello => true
    case SCert => true
    case SStatus => true
    case SKeyExchange => true
    case SCertRequest => true
    case SHelloDone => true
    case STicket => true
    case SCcs => true
    case SFinished => true
    case _ => false
  }

  predicate Present(p: Params, slot: Slot) {
    match slot
    case SCert => p.certAuth
    case SStatus => p.certAuth && p.statusSent
    case SKeyExchange => p.skeSent
    case SCertRequest => p.certRequest
    case CCert => p.certRequest
    case CVerify => p.certRequest && p.clientCert
    case CNextProto => p.npn
    case CChannelId => p.channelId
    case STicket => p.ticket
    case _ => true
  }

  /** What a slot carries, given the transcript before it. */
  function ItemOf(p: Params, slot: Slot, t: seq<Msg>): Item {
    match slot
    case CHello => Hs(Msg(ClientHello, p.body(ClientHello, false)))
    case SHello => Hs(Msg(ServerHello, p.body(ServerHello, true)))
    case SCert => Hs(Msg(Certificate, p.body(Certificate, true)))
    case SStatus => Hs(Msg(CertificateStatus, p.body(CertificateStatus, true)))
    case SKeyExchange => Hs(Msg(ServerKeyExchange, p.body(ServerKeyExchange, true)))
    case SCertRequest => Hs(Msg(CertificateRequest, p.body(CertificateRequest, true)))
    case SHelloDone => Hs(Msg(ServerHelloDone, p.body(ServerHelloDone, true)))
    case CCert => Hs(Msg(Certificate, if p.clientCert then p.body(Certificate, false) else []))
    case CKeyExchange => Hs(Msg(ClientKeyExchange, p.body(ClientKeyExchange, false)))
    case CVerify => Hs(Msg(CertificateVerify, p.body(CertificateVerify, false)))
    case CCcs => Ccs
    case CNextProto => Hs(Msg(NextProto, p.body(NextProto, false)))
    case CChannelId => Hs(Msg(ChannelId, p.body(ChannelId, false)))
    case CFinished => Hs(Msg(Finished, p.mac(t, false)))
    case STicket => Hs(Msg(NewSessionTicket, p.body(NewSessionTicket, true)))
    case SCcs => Ccs
    case SFinished => Hs(Msg(Finished, p.mac(t, true)))
  }

  /** The messages of the first n slots: the transcript at that point. */
  function Transcript(p: Params, n: nat): seq<Msg>
    requires n <= Size(p)
  {
    if n == 0 then []
    else
      var t, slot := Transcript(p, n - 1), SlotAt(p, n - 1);
      match ItemOf(p, slot, t)
      case Hs(m) => if Present(p, slot) then t + [m] else t
      case Ccs => t
  }

  function ItemAt(p: Params, i: nat): Item
    requires i < Size(p)
  {
    ItemOf(p, SlotAt(p, i), Transcript(p, i))
  }

  predicate Sends(p: Params, server: bool, i: nat)
    requires i < Size(p)
  {
    Present(p, SlotAt(p, i)) && ByServer(SlotAt(p, i)) == server
  }

  /** What one side sends in the first n slots. */
  function Sent(p: Params, server: bool, n: nat): seq<Item>
    requires n <= Size(p)
  {
    if n == 0 then []
    else Sent(p, server, n - 1) + (if Sends(p, server, n - 1) then [ItemAt(p, n - 1)] else [])
  }

  /** One slot further. */
  lemma NextSlot(p: Params, i: nat)
    requires i < Size(p)
    ensures Sent(p, true, i + 1) ==
      if Sends(p, true, i) then Sent(p, true, i) + [ItemAt(p, i)] else Sent(p, true, i)
    ensures Sent(p, false, i + 1) ==
      if Sends(p, false, i) then Sent(p, false, i) + [ItemAt(p, i)] else Sent(p, false, i)
    ensures Transcript(p, i + 1) ==
      if Present(p, SlotAt(p, i)) && ItemAt(p, i).Hs? then Transcript(p, i) + [ItemAt(p, i).msg] else Transcript(p, i)
  {
    hide ItemOf, Present, ByServer, SlotAt;
    assert Sent(p, true, i) + [] == Sent(p, true, i);
    assert Sent(p, false, i) + [] == Sent(p, false, i);
  }

  lemma {:induction false} SentGrows(p: Params, server: bool, m: nat, n: nat)
    requires m <= n <= Size(p)
    ensures Sent(p, server, m) <= Sent(p, server, n)
  {
    if m < n {
      SentGrows(p, server, m, n - 1);
    }
  }

  lemma {:induction false} SentGrowsStrictly(p: Params, server: bool, m: nat, k: nat, n: nat)
    requires m <= k < n <= Size(p) && Sends(p, server, k)
    ensures |Sent(p, server, m)| < |Sent(p, server, n)|
  {
    SentGrows(p, server, m, k);
    SentGrows(p, server, k + 1, n);
  }

  /** The next thing to arrive is what the next slot of the sender carries. */
  lemma HeadIs(p: Params, server: bool, i: nat, hi: nat, head: Item, rest: seq<Item>)
    requires i < Size(p) && hi <= Size(p) && Sends(p, server, i)
    requires Sent(p, server, i) + ([head] + rest) == Sent(p, server, hi)
    ensures head == ItemAt(p, i) && i < hi
    ensures Sent(p, server, i + 1) + rest == Sent(p, server, hi)
  {
    hide ItemAt, Sends;
    if hi <= i {
      SentGrows(p, server, hi, i);
    }
    SentGrows(p, server, i + 1, hi);
    NextSlot(p, i);
    assert Sent(p, server, hi)[|Sent(p, server, i)|] == head;
    assert Sent(p, server, i) + [head] + rest == Sent(p, server, i) + ([head] + rest);
  }

  // =====================================================================
  // Where each side is in the script
  // =====================================================================

  /** The first slot the client has neither sent nor taken in. */
  function CPos(p: Params, c: Client): (i: nat)
    ensures i <= Size(p)
  {
    if p.resumed then
      match c.state
      case StartConnect => 0
      case EnterEarlyData => 1
      case ReadServerHello => 1
      case ReadSessionTicket => 2
      case ProcessServerCcs => if c.wait == ReadCcs then 3 else 4
      case ReadServerFinished => 4
      case SendClientFinished => 5
      case _ => 9
    else
      match c.state
      case StartConnect => 0
      case EnterEarlyData => 1
      case ReadServerHello => 1
      case ReadServerCertificate => 2
      case ReadCertificateStatus => 3
      case VerifyServerCertificate => 4
      case ReadServerKeyExchange => 4
      case ReadCertificateRequest => 5
      case ReadServerHelloDone => 6
      case SendClientCertificate => 7
      case SendClientKeyExchange => 8
      case SendClientCertificateVerify => 9
      case SendClientFinished => 10
      case FinishFlight => 14
      case ReadSessionTicket => 14
      case ProcessServerCcs => if c.wait == ReadCcs then 15 else 16
      case ReadServerFinished => 16
      case _ => 17
  }

  function SPos(p: Params, s: Server): (i: nat)
    ensures i <= Size(p)
  {
    if p.resumed then
      match s.state
      case SendServerHello => 1
      case SendServerFinished => 2
      case ReadClientCcs => 5
      case ProcessClientCcs => if s.wait == ReadCcs then 5 else 6
      case ReadNextProto => 6
      case ReadChannelId => 7
      case ReadClientFinished => 8
      case FinishServer => 9
      case ServerDone => 9
      case _ => 0
    else
      match s.state
      case SendServerHello => 1
      case SendServerCertificate => 2
      case SendServerKeyExchange => 4
      case SendServerHelloDone => 5
      case ReadClientCertificate => 7
      case VerifyClientCertificate => 8
      case ReadClientKeyExchange => 8
      case ReadClientCertificateVerify => 9
      case ReadClientCcs => 10
      case ProcessClientCcs => if s.wait == ReadCcs then 10 else 11
      case ReadNextProto => 11
      case ReadChannelId => 12
      case ReadClientFinished => 13
      case SendServerFinished => 14
      case FinishServer => 17
      case ServerDone => 17
      case _ => 0
  }

  /** The slots of the two Finished messages, and of the ClientKeyExchange. */
  function CFin(p: Params): nat { if p.resumed then 8 else 13 }
  function SFin(p: Params): nat { if p.resumed then 4 else 16 }
  const CKE_SLOT: nat := 8

  /** Secrets and Finished messages were computed where the script says. */
  ghost predicate DidByScript(p: Params, did: Deeds, sentAt: nat, gotAt: nat)
    requires sentAt <= Size(p) && gotAt <= Size(p)
  {
    && (did.secret.Some? ==> !p.resumed && did.secret.value.over == Transcript(p, CKE_SLOT + 1))
    && (did.sent.Some? ==> did.sent.value.over == Transcript(p, sentAt))
    && (did.got.Some? ==> did.got.value.over == Transcript(p, gotAt))
  }

  /** While the client sends, its outbox may fill; otherwise it is flushed. */
  predicate CSending(state: CState) {
    match state
    case EnterEarlyData => true
    case SendClientKeyExchange => true
    case SendClientCertificateVerify => true
    case SendClientFinished => true
    case FinishFlight => true
    case _ => false
  }

  predicate SSending(state: SState) {
    match state
    case SendServerCertificate => true
    case SendServerKeyExchange => true
    case SendServerHelloDone => true
    case SendServerFinished => true
    case ReadClientCertificate => true
    case ReadClientCcs => true
    case FinishServer => true
    case _ => false
  }

  /** The client alone: on the script, waiting for nothing it has, and not failed. */
  ghost predicate ClientOn(p: Params, c: Client) {
    && c.wait in {Proceed, ReadMessage, ReadCcs, Flush, EarlyReturn}
    && (c.wait == EarlyReturn ==> c.state == ReadSessionTicket)
    && !c.begun
    && c.io.transcript == Transcript(p, CPos(p, c))
    && DidByScript(p, c.did, CFin(p), SFin(p))
    && (p.resumed ==> CRank(true, c.state) < 10)
    && (c.wait == ReadMessage ==> c.io.hsBuf == [])
    && (c.state == ProcessServerCcs ==> c.io.hsBuf == [] && c.wait != ReadMessage)
    && (c.wait == ReadCcs ==> c.state == ProcessServerCcs)
    && (!p.resumed && FullRank(c.state) <= 10 ==> c.asked == p.certRequest)
    && (!p.resumed && FullRank(c.state) > 10 ==> !c.asked)
    && (c.io.outbox != [] ==> CSending(c.state))
    && (c.wait == Flush ==> c.state == EnterEarlyData || c.state == FinishFlight)
    && (c.state == EnterEarlyData || c.state == FinishFlight ==> c.wait == Flush || c.io.outbox == [])
  }

  ghost predicate ServerOn(p: Params, s: Server) {
    && s.wait in {Proceed, ReadMessage, ReadCcs, Flush}
    && !s.begun
    && s.io.transcript == Transcript(p, SPos(p, s))
    && DidByScript(p, s.did, SFin(p), CFin(p))
    && (p.resumed ==> SRank(true, s.state) < 20)
    && (s.wait == ReadMessage ==> s.io.hsBuf == [])
    && (s.state == ProcessClientCcs ==> s.io.hsBuf == [] && s.wait != ReadMessage)
    && (s.wait == ReadCcs ==> s.state == ProcessClientCcs)
    && (!p.resumed && FullSRank(s.state) <= 10 ==> s.asked == (p.certRequest && p.clientCert))
    && (!p.resumed && FullSRank(s.state) > 10 ==> !s.asked)
    && (s.io.outbox != [] ==> SSending(s.state))
    && (s.wait == Flush ==> s.state in {ReadClientCertificate, ReadClientCcs, FinishServer})
    && (s.state in {ReadClientCertificate, ReadClientCcs, FinishServer} ==> s.wait == Flush || s.io.outbox == [])
  }

  function Unread(buf: seq<Msg>): (r: seq<Item>)
    ensures |r| == |buf|
  {
    seq(|buf|, i requires 0 <= i < |buf| => Hs(buf[i]))
  }

  /** A channel: what the receiver took, holds unread, and has still coming is what the sender sent. */
  ghost predicate Channel(p: Params, server: bool, taken: nat, buf: seq<Msg>, coming: seq<Item>, hi: nat)
    requires taken <= Size(p) && hi <= Size(p)
  {
    Sent(p, server, taken) + (Unread(buf) + coming) == Sent(p, server, hi)
  }

  // =====================================================================
  // Steps of the client
  // =====================================================================

  /** The client is about to take a turn, with `coming` on its way from a server at slot `hi`. */
  ghost predicate ClientReady(p: Params, c: Client, env: Env, coming: seq<Item>, hi: nat) {
    && p.Consistent() && env.bodyOk && !env.pause && env.verdict == Good && hi <= Size(p)
    && ClientOn(p, c) && c.wait == Proceed
    && Channel(p, true, CPos(p, c), c.io.hsBuf, coming, hi)
  }

  /** It stays on the script, both channels stay right, and `x` is what it sends. */
  ghost predicate ClientFollows(p: Params, c: Client, r: Client, coming: seq<Item>, hi: nat, x: seq<Item>)
    requires hi <= Size(p)
  {
    && ClientOn(p, r)
    && Channel(p, true, CPos(p, r), r.io.hsBuf, coming, hi)
    && r.io.outbox == c.io.outbox + x
    && Sent(p, false, CPos(p, r)) == Sent(p, false, CPos(p, c)) + x
  }

  /** Taking in the message of slot i, which the other side sends there. */
  lemma Takes(p: Params, server: bool, i: nat, buf: seq<Msg>, coming: seq<Item>, hi: nat)
    requires i < Size(p) && hi <= Size(p) && Sends(p, server, i) && buf != []
    requires Channel(p, server, i, buf, coming, hi)
    ensures ItemAt(p, i) == Hs(buf[0])
    ensures Channel(p, server, i + 1, buf[1..], coming, hi)
    ensures Transcript(p, i + 1) == Transcript(p, i) + [buf[0]]
    ensures Sent(p, !server, i + 1) == Sent(p, !server, i)
  {
    hide ItemAt, Sends, Sent, Transcript;
    assert Unread(buf) + coming == [Hs(buf[0])] + (Unread(buf[1..]) + coming);
    HeadIs(p, server, i, hi, Hs(buf[0]), Unread(buf[1..]) + coming);
    BySender(p, server, i);
    NextSlot(p, i);
  }

  lemma BySender(p: Params, server: bool, i: nat)
    requires i < Size(p) && Sends(p, server, i)
    ensures !Sends(p, !server, i) && Present(p, SlotAt(p, i))
  {
  }

  /** A slot that is not used changes nothing. */
  lemma Skips(p: Params, i: nat)
    requires i < Size(p) && !Present(p, SlotAt(p, i))
    ensures Sent(p, true, i + 1) == Sent(p, true, i) && Sent(p, false, i + 1) == Sent(p, false, i)
    ensures Transcript(p, i + 1) == Transcript(p, i)
  {
    NextSlot(p, i);
  }

  /** A slot that is not used, passed over. */
  lemma SkipsOver(p: Params, server: bool, i: nat, buf: seq<Msg>, coming: seq<Item>, hi: nat)
    requires i < Size(p) && hi <= Size(p) && !Present(p, SlotAt(p, i))
    requires Channel(p, server, i, buf, coming, hi)
    ensures Channel(p, server, i + 1, buf, coming, hi)
    ensures Sent(p, !server, i + 1) == Sent(p, !server, i) && Transcript(p, i + 1) == Transcript(p, i)
  {
    hide Sent, Transcript;
    Skips(p, i);
  }

  lemma NothingMore(p: Params, c: Client)
    ensures c.io.outbox + [] == c.io.outbox
    ensures Sent(p, false, CPos(p, c)) + [] == Sent(p, false, CPos(p, c))
  {
  }

  lemma CStart(p: Params, c: Client, env: Env, coming: seq<Item>, hi: nat) returns (x: seq<Item>)
    requires ClientReady(p, c, env, coming, hi) && c.state == StartConnect
    ensures ClientFollows(p, c, DoStartConnect(p, c, env), coming, hi, x)
  {
    NextSlot(p, 0);
    x := [ItemAt(p, 0)];
  }

  lemma CEarly(p: Params, c: Client, env: Env, coming: seq<Item>, hi: nat) returns (x: seq<Item>)
    requires ClientReady(p, c, env, coming, hi) && c.state == EnterEarlyData
    ensures ClientFollows(p, c, DoEnterEarlyData(p, c, env), coming, hi, x)
  {
    x := [];
    NothingMore(p, c);
  }

  lemma CReadServerHello(p: Params, c: Client, env: Env, coming: seq<Item>, hi: nat) returns (x: seq<Item>)
    requires ClientReady(p, c, env, coming, hi) && c.state == ReadServerHello
    ensures ClientFollows(p, c, DoReadServerHello(p, c, env), coming, hi, x)
  {
    hide Sent, Transcript, Channel;
    x := [];
    NothingMore(p, c);
    if c.io.hsBuf != [] {
      Takes(p, true, 1, c.io.hsBuf, coming, hi);
    }
  }

  lemma CReadServerCertificate(p: Params, c: Client, env: Env, coming: seq<Item>, hi: nat) returns (x: seq<Item>)
    requires ClientReady(p, c, env, coming, hi) && c.state == ReadServerCertificate
    ensures ClientFollows(p, c, DoReadServerCertificate(p, c, env), coming, hi, x)
  {
    hide Sent, Transcript;
    x := [];
    NothingMore(p, c);
    if !p.certAuth {
      Skips(p, 2);
    } else if c.io.hsBuf != [] {
      Takes(p, true, 2, c.io.hsBuf, coming, hi);
    }
  }

  /** The next message from the server in its first flight, wherever optional ones are left out. */
  lemma {:induction false} FirstFrom(p: Params, i: nat, buf: seq<Msg>, coming: seq<Item>, hi: nat) returns (k: nat)
    requires !p.resumed && 2 <= i <= 6 && hi <= Size(p) && buf != []
    requires Channel(p, true, i, buf, coming, hi)
    ensures i <= k <= 6 && Sends(p, true, k) && ItemAt(p, k) == Hs(buf[0])
    ensures Present(p, SlotAt(p, i)) <==> k == i
    ensures Channel(p, true, k, buf, coming, hi)
    ensures i < 5 && !Present(p, SlotAt(p, i)) && !Present(p, SlotAt(p, i + 1)) ==> k > i + 1
    decreases 6 - i
  {
    hide Sent, Transcript;
    if Present(p, SlotAt(p, i)) {
      k := i;
      Takes(p, true, i, buf, coming, hi);
    } else {
      Skips(p, i);
      k := FirstFrom(p, i + 1, buf, coming, hi);
    }
  }

  /** No message can be waiting where the ChangeCipherSpec is due. */
  lemma NoMessageAtCcs(p: Params, server: bool, i: nat, buf: seq<Msg>, coming: seq<Item>, hi: nat)
    requires i < Size(p) && hi <= Size(p) && Sends(p, server, i) && ItemAt(p, i) == Ccs
    requires Channel(p, server, i, buf, coming, hi)
    ensures buf == []
  {
    if buf != [] {
      Takes(p, server, i, buf, coming, hi);
    }
  }

  lemma Append4(s: seq<Item>, a: seq<Item>, b: seq<Item>, c: seq<Item>, d: seq<Item>)
    ensures s + (a + b + c + d) == s + a + b + c + d
  {
  }

  lemma CReadCertificateStatus(p: Params, c: Client, env: Env, coming: seq<Item>, hi: nat) returns (x: seq<Item>)
    requires ClientReady(p, c, env, coming, hi) && c.state == ReadCertificateStatus
    ensures ClientFollows(p, c, DoReadCertificateStatus(p, c, env), coming, hi, x)
  {
    hide ClientStep, Sent, Transcript, Channel;
    x := [];
    NothingMore(p, c);
    if !p.statusExpected {
      SkipsOver(p, true, 3, c.io.hsBuf, coming, hi);
    } else if c.io.hsBuf != [] {
      var k := FirstFrom(p, 3, c.io.hsBuf, coming, hi);
      if k == 3 {
        Takes(p, true, 3, c.io.hsBuf, coming, hi);
      } else {
        SkipsOver(p, true, 3, c.io.hsBuf, coming, hi);
      }
    }
  }

  lemma CVerifyServerCertificate(p: Params, c: Client, env: Env, coming: seq<Item>, hi: nat) returns (x: seq<Item>)
    requires ClientReady(p, c, env, coming, hi) && c.state == VerifyServerCertificate
    ensures ClientFollows(p, c, DoVerifyServerCertificate(p, c, env), coming, hi, x)
  {
    hide Sent, Transcript, Channel;
    x := [];
    NothingMore(p, c);
  }

  lemma CReadServerKeyExchange(p: Params, c: Client, env: Env, coming: seq<Item>, hi: nat) returns (x: seq<Item>)
    requires ClientReady(p, c, env, coming, hi) && c.state == ReadServerKeyExchange
    ensures ClientFollows(p, c, DoReadServerKeyExchange(p, c, env), coming, hi, x)
  {
    hide Sent, Transcript;
    x := [];
    NothingMore(p, c);
    if c.io.hsBuf != [] {
      var k := FirstFrom(p, 4, c.io.hsBuf, coming, hi);
      if k == 4 {
        Takes(p, true, 4, c.io.hsBuf, coming, hi);
      } else {
        Skips(p, 4);
      }
    }
  }

  lemma CReadCertificateRequest(p: Params, c: Client, env: Env, coming: seq<Item>, hi: nat) returns (x: seq<Item>)
    requires ClientReady(p, c, env, coming, hi) && c.state == ReadCertificateRequest
    ensures ClientFollows(p, c, DoReadCertificateRequest(p, c, env), coming, hi, x)
  {
    hide Sent, Transcript;
    x := [];
    NothingMore(p, c);
    if !p.certAuth {
      Skips(p, 5);
    } else if c.io.hsBuf != [] {
      var k := FirstFrom(p, 5, c.io.hsBuf, coming, hi);
      if k == 5 {
        Takes(p, true, 5, c.io.hsBuf, coming, hi);
      } else {
        Skips(p, 5);
      }
    }
  }

  lemma CReadServerHelloDone(p: Params, c: Client, env: Env, coming: seq<Item>, hi: nat) returns (x: seq<Item>)
    requires ClientReady(p, c, env, coming, hi) && c.state == ReadServerHelloDone
    ensures ClientFollows(p, c, DoReadServerHelloDone(p, c, env), coming, hi, x)
  {
    hide Sent, Transcript, Channel;
    x := [];
    NothingMore(p, c);
    if c.io.hsBuf != [] {
      Takes(p, true, 6, c.io.hsBuf, coming, hi);
    }
  }

  lemma CSendClientCertificate(p: Params, c: Client, env: Env, coming: seq<Item>, hi: nat) returns (x: seq<Item>)
    requires ClientReady(p, c, env, coming, hi) && c.state == SendClientCertificate
    ensures ClientFollows(p, c, DoSendClientCertificate(p, c, env), coming, hi, x)
  {
    hide Sent, Transcript;
    x := [];
    NothingMore(p, c);
    NextSlot(p, 7);
    if p.certRequest {
      x := [ItemAt(p, 7)];
    }
  }

  lemma CSendClientKeyExchange(p: Params, c: Client, env: Env, coming: seq<Item>, hi: nat) returns (x: seq<Item>)
    requires ClientReady(p, c, env, coming, hi) && c.state == SendClientKeyExchange
    ensures ClientFollows(p, c, DoSendClientKeyExchange(p, c, env), coming, hi, x)
  {
    hide Sent, Transcript;
    x := [];
    NothingMore(p, c);
    NextSlot(p, 8);
    x := [ItemAt(p, 8)];
  }

  lemma CSendClientCertificateVerify(p: Params, c: Client, env: Env, coming: seq<Item>, hi: nat) returns (x: seq<Item>)
    requires ClientReady(p, c, env, coming, hi) && c.state == SendClientCertificateVerify
    ensures ClientFollows(p, c, DoSendClientCertificateVerify(p, c, env), coming, hi, x)
  {
    hide Sent, Transcript;
    x := [];
    NothingMore(p, c);
    NextSlot(p, 9);
    if p.certRequest && p.clientCert {
      x := [ItemAt(p, 9)];
    }
  }

  /** The client's last flight: ChangeCipherSpec, the optional messages, and Finished. */
  lemma ClientFlight(p: Params, i: nat, outbox: seq<Item>) returns (x: seq<Item>)
    requires i + 4 <= Size(p) && i == if p.resumed then 5 else 10
    ensures Sent(p, false, i + 4) == Sent(p, false, i) + x && Sent(p, true, i + 4) == Sent(p, true, i)
    ensures var np, id := Msg(NextProto, p.body(NextProto, false)), Msg(ChannelId, p.body(ChannelId, false));
      var io := Io(Transcript(p, i), [], outbox).SendCcs().SendIf(p.npn, np).SendIf(p.channelId, id);
      var fin := Msg(Finished, p.mac(io.transcript, false));
      && Transcript(p, i + 3) == io.transcript && Transcript(p, i + 4) == io.transcript + [fin]
      && io.outbox + [Hs(fin)] == outbox + x
  {
    hide Sent, Transcript, ItemAt, SlotAt;
    FlightSlots(p);
    var io := Io(Transcript(p, i), [], outbox);
    var x0, io1 := SendsSlot(p, false, i, io);
    var x1, io2 := SendsSlot(p, false, i + 1, io1);
    var x2, io3 := SendsSlot(p, false, i + 2, io2);
    var x3, io4 := SendsSlot(p, false, i + 3, io3);
    x := x0 + x1 + x2 + x3;
    Append4(outbox, x0, x1, x2, x3);
    Append4(Sent(p, false, i), x0, x1, x2, x3);
  }

  /** Sending one slot of one's own, or leaving it out. */
  lemma SendsSlot(p: Params, server: bool, i: nat, io: Io) returns (x: seq<Item>, io': Io)
    requires i < Size(p) && io.transcript == Transcript(p, i) && ByServer(SlotAt(p, i)) == server
    ensures io' == if !Present(p, SlotAt(p, i)) then io
                   else match ItemOf(p, SlotAt(p, i), io.transcript) case Ccs => io.SendCcs() case Hs(m) => io.Send(m)
    ensures io'.transcript == Transcript(p, i + 1) && io'.outbox == io.outbox + x
    ensures Sent(p, server, i + 1) == Sent(p, server, i) + x && Sent(p, !server, i + 1) == Sent(p, !server, i)
  {
    hide Sent, Transcript, ItemOf;
    NextSlot(p, i);
    if !Present(p, SlotAt(p, i)) {
      x, io' := [], io;
    } else {
      x := [ItemAt(p, i)];
      io' := match ItemAt(p, i) case Ccs => io.SendCcs() case Hs(m) => io.Send(m);
    }
  }

  lemma CSendClientFinished(p: Params, c: Client, env: Env, coming: seq<Item>, hi: nat) returns (x: seq<Item>)
    requires ClientReady(p, c, env, coming, hi) && c.state == SendClientFinished
    ensures ClientFollows(p, c, DoSendClientFinished(p, c, env), coming, hi, x)
  {
    hide Sent, Transcript;
    x := [];
    NothingMore(p, c);
    hide SlotAt, ItemOf, Present, ByServer;
    x := ClientFlight(p, CPos(p, c), c.io.outbox);
  }

  lemma CFinishFlight(p: Params, c: Client, env: Env, coming: seq<Item>, hi: nat) returns (x: seq<Item>)
    requires ClientReady(p, c, env, coming, hi) && c.state == FinishFlight
    ensures ClientFollows(p, c, DoFinishFlight(p, c, env), coming, hi, x)
  {
    hide Sent, Transcript, Channel;
    x := [];
    NothingMore(p, c);
  }

  lemma CReadSessionTicket(p: Params, c: Client, env: Env, coming: seq<Item>, hi: nat) returns (x: seq<Item>)
    requires ClientReady(p, c, env, coming, hi) && c.state == ReadSessionTicket
    ensures ClientFollows(p, c, DoReadSessionTicket(p, c, env), coming, hi, x)
  {
    hide ClientStep, Sent, Transcript, Channel;
    x := [];
    NothingMore(p, c);
    var i := CPos(p, c);
    if !p.ticket {
      SkipsOver(p, true, i, c.io.hsBuf, coming, hi);
      NoMessageAtCcs(p, true, i + 1, c.io.hsBuf, coming, hi);
    } else if c.io.hsBuf != [] {
      Takes(p, true, i, c.io.hsBuf, coming, hi);
      NoMessageAtCcs(p, true, i + 1, c.io.hsBuf[1..], coming, hi);
    }
  }

  lemma CProcessServerCcs(p: Params, c: Client, env: Env, coming: seq<Item>, hi: nat) returns (x: seq<Item>)
    requires ClientReady(p, c, env, coming, hi) && c.state == ProcessServerCcs
    ensures ClientFollows(p, c, DoProcessServerCcs(p, c, env), coming, hi, x)
  {
    hide Sent, Transcript, Channel;
    x := [];
    NothingMore(p, c);
  }

  lemma CReadServerFinished(p: Params, c: Client, env: Env, coming: seq<Item>, hi: nat) returns (x: seq<Item>)
    requires ClientReady(p, c, env, coming, hi) && c.state == ReadServerFinished
    ensures ClientFollows(p, c, DoReadServerFinished(p, c, env), coming, hi, x)
  {
    hide Sent, Transcript, Channel;
    x := [];
    NothingMore(p, c);
    if c.io.hsBuf != [] {
      Takes(p, true, SFin(p), c.io.hsBuf, coming, hi);
    }
  }

  lemma CFinishClient(p: Params, c: Client, env: Env, coming: seq<Item>, hi: nat) returns (x: seq<Item>)
    requires ClientReady(p, c, env, coming, hi) && c.state == FinishClient
    ensures ClientFollows(p, c, DoFinishClient(p, c, env), coming, hi, x)
  {
    hide Sent, Transcript, Channel;
    x := [];
    NothingMore(p, c);
  }

  /** Every turn of the client's machine follows the script. */
  lemma ClientTurn(p: Params, c: Client, env: Env, coming: seq<Item>, hi: nat) returns (x: seq<Item>)
    requires ClientReady(p, c, env, coming, hi) && c.state != ClientDone
    ensures ClientFollows(p, c, CDo(p, c, env), coming, hi, x)
  {
    hide DoStartConnect, DoEnterEarlyData, DoReadServerHello, DoReadServerCertificate, DoReadCertificateStatus,
      DoVerifyServerCertificate, DoReadServerKeyExchange, DoReadCertificateRequest, DoReadServerHelloDone,
      DoSendClientCertificate, DoSendClientKeyExchange, DoSendClientCertificateVerify, DoSendClientFinished,
      DoFinishFlight, DoReadSessionTicket, DoProcessServerCcs, DoReadServerFinished, DoFinishClient, ClientReady,
      ClientFollows;
    match c.state {
      case StartConnect => x := CStart(p, c, env, coming, hi);
      case EnterEarlyData => x := CEarly(p, c, env, coming, hi);
      case ReadServerHello => x := CReadServerHello(p, c, env, coming, hi);
      case ReadServerCertificate => x := CReadServerCertificate(p, c, env, coming, hi);
      case ReadCertificateStatus => x := CReadCertificateStatus(p, c, env, coming, hi);
      case VerifyServerCertificate => x := CVerifyServerCertificate(p, c, env, coming, hi);
      case ReadServerKeyExchange => x := CReadServerKeyExchange(p, c, env, coming, hi);
      case ReadCertificateRequest => x := CReadCertificateRequest(p, c, env, coming, hi);
      case ReadServerHelloDone => x := CReadServerHelloDone(p, c, env, coming, hi);
      case SendClientCertificate => x := CSendClientCertificate(p, c, env, coming, hi);
      case SendClientKeyExchange => x := CSendClientKeyExchange(p, c, env, coming, hi);
      case SendClientCertificateVerify => x := CSendClientCertificateVerify(p, c, env, coming, hi);
      case SendClientFinished => x := CSendClientFinished(p, c, env, coming, hi);
      case FinishFlight => x := CFinishFlight(p, c, env, coming, hi);
      case ReadSessionTicket => x := CReadSessionTicket(p, c, env, coming, hi);
      case ProcessServerCcs => x := CProcessServerCcs(p, c, env, coming, hi);
      case ReadServerFinished => x := CReadServerFinished(p, c, env, coming, hi);
      case FinishClient => x := CFinishClient(p, c, env, coming, hi);
    }
  }

  // =====================================================================
  // Steps of the server
  // =====================================================================

  ghost predicate ServerReady(p: Params, s: Server, coming: seq<Item>, hi: nat) {
    && p.Consistent() && hi <= Size(p)
    && ServerOn(p, s) && s.wait == Proceed
    && Channel(p, false, SPos(p, s), s.io.hsBuf, coming, hi)
  }

  ghost predicate ServerFollows(p: Params, s: Server, r: Server, coming: seq<Item>, hi: nat, x: seq<Item>)
    requires hi <= Size(p)
  {
    && ServerOn(p, r)
    && Channel(p, false, SPos(p, r), r.io.hsBuf, coming, hi)
    && r.io.outbox == s.io.outbox + x
    && Sent(p, true, SPos(p, r)) == Sent(p, true, SPos(p, s)) + x
  }

  lemma NothingMoreS(p: Params, s: Server)
    ensures s.io.outbox + [] == s.io.outbox
    ensures Sent(p, true, SPos(p, s)) + [] == Sent(p, true, SPos(p, s))
  {
  }

  lemma Append2(s: seq<Item>, a: seq<Item>, b: seq<Item>)
    ensures s + (a + b) == s + a + b
  {
  }

  lemma SStartAccept(p: Params, s: Server, coming: seq<Item>, hi: nat) returns (x: seq<Item>)
    requires ServerReady(p, s, coming, hi) && s.state == StartAccept
    ensures ServerFollows(p, s, DoStartAccept(p, s, FAIR), coming, hi, x)
  {
    hide Sent, Transcript, Channel;
    x := [];
    NothingMoreS(p, s);
  }

  lemma SReadClientHello(p: Params, s: Server, coming: seq<Item>, hi: nat) returns (x: seq<Item>)
    requires ServerReady(p, s, coming, hi) && s.state == ReadClientHello
    ensures ServerFollows(p, s, DoReadClientHello(p, s, FAIR), coming, hi, x)
  {
    hide Sent, Transcript, Channel;
    x := [];
    NothingMoreS(p, s);
    if s.io.hsBuf != [] {
      Takes(p, false, 0, s.io.hsBuf, coming, hi);
    }
  }

  lemma SSelectCertificate(p: Params, s: Server, coming: seq<Item>, hi: nat) returns (x: seq<Item>)
    requires ServerReady(p, s, coming, hi) && s.state == SelectCertificate
    ensures ServerFollows(p, s, DoSelectCertificate(p, s, FAIR), coming, hi, x)
  {
    hide Sent, Transcript, Channel;
    x := [];
    NothingMoreS(p, s);
  }

  lemma SSelectParameters(p: Params, s: Server, coming: seq<Item>, hi: nat) returns (x: seq<Item>)
    requires ServerReady(p, s, coming, hi) && s.state == SelectParameters
    ensures ServerFollows(p, s, DoSelectParameters(p, s, FAIR), coming, hi, x)
  {
    hide Sent, Transcript, Channel;
    x := [];
    NothingMoreS(p, s);
    if s.io.hsBuf != [] {
      Takes(p, false, 0, s.io.hsBuf, coming, hi);
    }
  }

  lemma SSendServerHello(p: Params, s: Server, coming: seq<Item>, hi: nat) returns (x: seq<Item>)
    requires ServerReady(p, s, coming, hi) && s.state == SendServerHello
    ensures ServerFollows(p, s, DoSendServerHello(p, s, FAIR), coming, hi, x)
  {
    hide Sent, Transcript;
    x := [];
    NothingMoreS(p, s);
    var io;
    x, io := SendsSlot(p, true, 1, s.io);
  }

  lemma SSendServerCertificate(p: Params, s: Server, coming: seq<Item>, hi: nat) returns (x: seq<Item>)
    requires ServerReady(p, s, coming, hi) && s.state == SendServerCertificate
    ensures ServerFollows(p, s, DoSendServerCertificate(p, s, FAIR), coming, hi, x)
  {
    hide Sent, Transcript;
    x := [];
    NothingMoreS(p, s);
    var x0, io0 := SendsSlot(p, true, 2, s.io);
    var x1, io1 := SendsSlot(p, true, 3, io0);
    x := x0 + x1;
    Append2(s.io.outbox, x0, x1);
    Append2(Sent(p, true, 2), x0, x1);
  }

  lemma SSendServerKeyExchange(p: Params, s: Server, coming: seq<Item>, hi: nat) returns (x: seq<Item>)
    requires ServerReady(p, s, coming, hi) && s.state == SendServerKeyExchange
    ensures ServerFollows(p, s, DoSendServerKeyExchange(p, s, FAIR), coming, hi, x)
  {
    hide Sent, Transcript;
    x := [];
    NothingMoreS(p, s);
    var io;
    x, io := SendsSlot(p, true, 4, s.io);
  }

  lemma SSendServerHelloDone(p: Params, s: Server, coming: seq<Item>, hi: nat) returns (x: seq<Item>)
    requires ServerReady(p, s, coming, hi) && s.state == SendServerHelloDone
    ensures ServerFollows(p, s, DoSendServerHelloDone(p, s, FAIR), coming, hi, x)
  {
    hide Sent, Transcript;
    x := [];
    NothingMoreS(p, s);
    var x0, io0 := SendsSlot(p, true, 5, s.io);
    var x1, io1 := SendsSlot(p, true, 6, io0);
    x := x0 + x1;
    Append2(s.io.outbox, x0, x1);
    Append2(Sent(p, true, 5), x0, x1);
  }

  lemma SReadClientCertificate(p: Params, s: Server, coming: seq<Item>, hi: nat) returns (x: seq<Item>)
    requires ServerReady(p, s, coming, hi) && s.state == ReadClientCertificate
    ensures ServerFollows(p, s, DoReadClientCertificate(p, s, FAIR), coming, hi, x)
  {
    hide Sent, Transcript;
    x := [];
    NothingMoreS(p, s);
    if !p.certRequest {
      Skips(p, 7);
    } else if s.io.hsBuf != [] {
      Takes(p, false, 7, s.io.hsBuf, coming, hi);
    }
  }

  lemma SVerifyClientCertificate(p: Params, s: Server, coming: seq<Item>, hi: nat) returns (x: seq<Item>)
    requires ServerReady(p, s, coming, hi) && s.state == VerifyClientCertificate
    ensures ServerFollows(p, s, DoVerifyClientCertificate(p, s, FAIR), coming, hi, x)
  {
    hide Sent, Transcript, Channel;
    x := [];
    NothingMoreS(p, s);
  }

  lemma SReadClientKeyExchange(p: Params, s: Server, coming: seq<Item>, hi: nat) returns (x: seq<Item>)
    requires ServerReady(p, s, coming, hi) && s.state == ReadClientKeyExchange
    ensures ServerFollows(p, s, DoReadClientKeyExchange(p, s, FAIR), coming, hi, x)
  {
    hide Sent, Transcript, Channel;
    x := [];
    NothingMoreS(p, s);
    if s.io.hsBuf != [] {
      Takes(p, false, 8, s.io.hsBuf, coming, hi);
    }
  }

  lemma SReadClientCertificateVerify(p: Params, s: Server, coming: seq<Item>, hi: nat) returns (x: seq<Item>)
    requires ServerReady(p, s, coming, hi) && s.state == ReadClientCertificateVerify
    ensures ServerFollows(p, s, DoReadClientCertificateVerify(p, s, FAIR), coming, hi, x)
  {
    hide Sent, Transcript;
    x := [];
    NothingMoreS(p, s);
    if !s.asked {
      Skips(p, 9);
    } else if s.io.hsBuf != [] {
      Takes(p, false, 9, s.io.hsBuf, coming, hi);
    }
  }

  lemma SReadClientCcs(p: Params, s: Server, coming: seq<Item>, hi: nat) returns (x: seq<Item>)
    requires ServerReady(p, s, coming, hi) && s.state == ReadClientCcs
    ensures ServerFollows(p, s, DoReadClientCcs(p, s, FAIR), coming, hi, x)
  {
    hide Sent, Transcript;
    x := [];
    NothingMoreS(p, s);
    NoMessageAtCcs(p, false, SPos(p, s), s.io.hsBuf, coming, hi);
  }

  lemma SProcessClientCcs(p: Params, s: Server, coming: seq<Item>, hi: nat) returns (x: seq<Item>)
    requires ServerReady(p, s, coming, hi) && s.state == ProcessClientCcs
    ensures ServerFollows(p, s, DoProcessClientCcs(p, s, FAIR), coming, hi, x)
  {
    hide Sent, Transcript, Channel;
    x := [];
    NothingMoreS(p, s);
  }

  lemma SReadNextProto(p: Params, s: Server, coming: seq<Item>, hi: nat) returns (x: seq<Item>)
    requires ServerReady(p, s, coming, hi) && s.state == ReadNextProto
    ensures ServerFollows(p, s, DoReadNextProto(p, s, FAIR), coming, hi, x)
  {
    hide ServerStep, Sent, Transcript, Channel;
    x := [];
    NothingMoreS(p, s);
    if !p.npn {
      SkipsOver(p, false, SPos(p, s), s.io.hsBuf, coming, hi);
    } else if s.io.hsBuf != [] {
      Takes(p, false, SPos(p, s), s.io.hsBuf, coming, hi);
    }
  }

  lemma SReadChannelId(p: Params, s: Server, coming: seq<Item>, hi: nat) returns (x: seq<Item>)
    requires ServerReady(p, s, coming, hi) && s.state == ReadChannelId
    ensures ServerFollows(p, s, DoReadChannelId(p, s, FAIR), coming, hi, x)
  {
    hide ServerStep, Sent, Transcript, Channel;
    x := [];
    NothingMoreS(p, s);
    if !p.channelId {
      SkipsOver(p, false, SPos(p, s), s.io.hsBuf, coming, hi);
    } else if s.io.hsBuf != [] {
      Takes(p, false, SPos(p, s), s.io.hsBuf, coming, hi);
    }
  }

  lemma SReadClientFinished(p: Params, s: Server, coming: seq<Item>, hi: nat) returns (x: seq<Item>)
    requires ServerReady(p, s, coming, hi) && s.state == ReadClientFinished
    ensures ServerFollows(p, s, DoReadClientFinished(p, s, FAIR), coming, hi, x)
  {
    hide ServerStep, Sent, Transcript, Channel;
    x := [];
    NothingMoreS(p, s);
    if s.io.hsBuf != [] {
      Takes(p, false, CFin(p), s.io.hsBuf, coming, hi);
    }
  }

  lemma FlightSlots(p: Params)
    ensures var i, k := if p.resumed then 5 else 10, if p.resumed then 2 else 14;
      && SlotAt(p, i) == CCcs && SlotAt(p, i + 1) == CNextProto && SlotAt(p, i + 2) == CChannelId
      && SlotAt(p, i + 3) == CFinished
      && SlotAt(p, k) == STicket && SlotAt(p, k + 1) == SCcs && SlotAt(p, k + 2) == SFinished
  {
  }

  /** The server's last flight: the optional ticket, ChangeCipherSpec, and Finished. */
  lemma ServerFlight(p: Params, i: nat, outbox: seq<Item>) returns (x: seq<Item>)
    requires i + 3 <= Size(p) && i == if p.resumed then 2 else 14
    ensures Sent(p, true, i + 3) == Sent(p, true, i) + x && Sent(p, false, i + 3) == Sent(p, false, i)
    ensures var ticket := Msg(NewSessionTicket, p.body(NewSessionTicket, true));
      var io := Io(Transcript(p, i), [], outbox).SendIf(p.ticket, ticket).SendCcs();
      var fin := Msg(Finished, p.mac(io.transcript, true));
      && Transcript(p, i + 2) == io.transcript && Transcript(p, i + 3) == io.transcript + [fin]
      && io.outbox + [Hs(fin)] == outbox + x
  {
    hide Sent, Transcript, ItemAt, SlotAt;
    FlightSlots(p);
    var io := Io(Transcript(p, i), [], outbox);
    var x0, io1 := SendsSlot(p, true, i, io);
    var x1, io2 := SendsSlot(p, true, i + 1, io1);
    var x2, io3 := SendsSlot(p, true, i + 2, io2);
    x := x0 + x1 + x2;
    Append2(outbox, x0, x1);
    Append2(outbox, x0 + x1, x2);
    Append2(Sent(p, true, i), x0, x1);
    Append2(Sent(p, true, i), x0 + x1, x2);
  }

  lemma SSendServerFinished(p: Params, s: Server, coming: seq<Item>, hi: nat) returns (x: seq<Item>)
    requires ServerReady(p, s, coming, hi) && s.state == SendServerFinished
    ensures ServerFollows(p, s, DoSendServerFinished(p, s, FAIR), coming, hi, x)
  {
    hide ServerStep, Sent, Transcript;
    x := [];
    NothingMoreS(p, s);
    hide SlotAt, ItemOf, Present, ByServer;
    x := ServerFlight(p, SPos(p, s), s.io.outbox);
  }

  lemma SFinishServer(p: Params, s: Server, coming: seq<Item>, hi: nat) returns (x: seq<Item>)
    requires ServerReady(p, s, coming, hi) && s.state == FinishServer
    ensures ServerFollows(p, s, DoFinishServer(p, s, FAIR), coming, hi, x)
  {
    hide Sent, Transcript, Channel;
    x := [];
    NothingMoreS(p, s);
  }

  /** Every turn of the server's machine follows the script. */
  lemma ServerTurn(p: Params, s: Server, coming: seq<Item>, hi: nat) returns (x: seq<Item>)
    requires ServerReady(p, s, coming, hi) && s.state != ServerDone
    ensures ServerFollows(p, s, SDo(p, s, FAIR), coming, hi, x)
  {
    hide DoStartAccept, DoReadClientHello, DoSelectCertificate, DoSelectParameters, DoSendServerHello,
      DoSendServerCertificate, DoSendServerKeyExchange, DoSendServerHelloDone, DoReadClientCertificate,
      DoVerifyClientCertificate, DoReadClientKeyExchange, DoReadClientCertificateVerify, DoReadClientCcs,
      DoProcessClientCcs, DoReadNextProto, DoReadChannelId, DoReadClientFinished, DoSendServerFinished,
      DoFinishServer, ServerReady, ServerFollows;
    match s.state {
      case StartAccept => x := SStartAccept(p, s, coming, hi);
      case ReadClientHello => x := SReadClientHello(p, s, coming, hi);
      case SelectCertificate => x := SSelectCertificate(p, s, coming, hi);
      case SelectParameters => x := SSelectParameters(p, s, coming, hi);
      case SendServerHello => x := SSendServerHello(p, s, coming, hi);
      case SendServerCertificate => x := SSendServerCertificate(p, s, coming, hi);
      case SendServerKeyExchange => x := SSendServerKeyExchange(p, s, coming, hi);
      case SendServerHelloDone => x := SSendServerHelloDone(p, s, coming, hi);
      case ReadClientCertificate => x := SReadClientCertificate(p, s, coming, hi);
      case VerifyClientCertificate => x := SVerifyClientCertificate(p, s, coming, hi);
      case ReadClientKeyExchange => x := SReadClientKeyExchange(p, s, coming, hi);
      case ReadClientCertificateVerify => x := SReadClientCertificateVerify(p, s, coming, hi);
      case ReadClientCcs => x := SReadClientCcs(p, s, coming, hi);
      case ProcessClientCcs => x := SProcessClientCcs(p, s, coming, hi);
      case ReadNextProto => x := SReadNextProto(p, s, coming, hi);
      case ReadChannelId => x := SReadChannelId(p, s, coming, hi);
      case ReadClientFinished => x := SReadClientFinished(p, s, coming, hi);
      case SendServerFinished => x := SSendServerFinished(p, s, coming, hi);
      case FinishServer => x := SFinishServer(p, s, coming, hi);
    }
  }

  // =====================================================================
  // Both sides
  // =====================================================================

  datatype World = World(c: Client, s: Server, toServer: seq<Item>, toClient: seq<Item>)

  const START := World(Fresh(StartConnect), Fresh(StartAccept), [], [])

  ghost predicate OnScript(p: Params, w: World) {
    && p.Consistent()
    && ClientOn(p, w.c) && ServerOn(p, w.s)
    && Channel(p, true, CPos(p, w.c), w.c.io.hsBuf, w.toClient + w.s.io.outbox, SPos(p, w.s))
    && Channel(p, false, SPos(p, w.s), w.s.io.hsBuf, w.toServer + w.c.io.outbox, CPos(p, w.c))
  }

  /** Who acts. The client may use False Start: return to its caller before the server's Finished. */
  datatype Actor = TheClient(falseStart: bool) | TheServer

  /** What one side does with its wait, or in a turn; what is left coming in, and what goes out. */
  predicate CanAct<S(==)>(x: Side<S>, done: S, coming: seq<Item>) {
    match x.wait
    case Proceed => x.state != done
    case Flush => true
    case EarlyReturn => true
    case ReadMessage => coming != []
    case ReadCcs => coming != []
    case _ => false
  }

  predicate Enabled(w: World, a: Actor) {
    if a.TheClient? then CanAct(w.c, ClientDone, w.toClient) else CanAct(w.s, ServerDone, w.toServer)
  }

  /** Opening a record: a message where a ChangeCipherSpec is due, or the other way round, is an error. */
  function Open<S>(x: Side<S>, head: Item): Side<S> {
    match head
    case Hs(m) => if x.wait == ReadMessage then Resolve(x, Receive([m], false)) else x.Stop(Error)
    case Ccs => if x.wait == ReadCcs then Resolve(x, OpenCcs) else x.Stop(Error)
  }

  function Honest(falseStart: bool): Env { Env(true, Good, falseStart, false) }

  /** No one can act any more. */
  predicate Over(w: World) {
    !CanAct(w.c, ClientDone, w.toClient) && !CanAct(w.s, ServerDone, w.toServer)
  }

  function Act(p: Params, w: World, a: Actor): World
    requires Enabled(w, a)
  {
    if a.TheClient? then
      if w.c.wait == Proceed then w.(c := CDo(p, w.c, Honest(a.falseStart)))
      else if w.c.wait == EarlyReturn then w.(c := Resolve(w.c, Resume))
      else if w.c.wait == Flush then w.(c := Resolve(w.c, Flushed), toServer := w.toServer + w.c.io.outbox)
      else w.(c := Open(w.c, w.toClient[0]), toClient := w.toClient[1..])
    else if w.s.wait == Proceed then w.(s := SDo(p, w.s, FAIR))
      else if w.s.wait == EarlyReturn then w.(s := Resolve(w.s, Resume))
    else if w.s.wait == Flush then w.(s := Resolve(w.s, Flushed), toClient := w.toClient + w.s.io.outbox)
    else w.(s := Open(w.s, w.toServer[0]), toServer := w.toServer[1..])
  }

  lemma StartsOnScript(p: Params)
    requires p.Consistent()
    ensures OnScript(p, START)
  {
  }

  /** The channel grows at the far end. */
  lemma ChannelExtends(p: Params, server: bool, taken: nat, buf: seq<Msg>, coming: seq<Item>, outbox: seq<Item>,
                       hi: nat, x: seq<Item>, hi': nat)
    requires taken <= Size(p) && hi <= Size(p) && hi' <= Size(p)
    requires Channel(p, server, taken, buf, coming + outbox, hi)
    requires Sent(p, server, hi') == Sent(p, server, hi) + x
    ensures Channel(p, server, taken, buf, coming + (outbox + x), hi')
  {
    hide Sent, Unread;
    Regroup(Sent(p, server, taken), Unread(buf), coming, outbox, x);
  }

  lemma Regroup(a: seq<Item>, u: seq<Item>, c: seq<Item>, o: seq<Item>, x: seq<Item>)
    ensures a + (u + (c + (o + x))) == a + (u + (c + o)) + x
  {
    Append2(c, o, x);
    Append2(u, c + o, x);
    Append2(a, u + (c + o), x);
  }

  lemma ClientTurnOnScript(p: Params, w: World, env: Env)
    requires env.bodyOk && !env.pause && env.verdict == Good
    requires OnScript(p, w) && w.c.wait == Proceed && w.c.state != ClientDone
    ensures OnScript(p, w.(c := CDo(p, w.c, env)))
  {
    hide ClientOn, ServerOn, Channel, CDo, Sent;
    var r, coming := CDo(p, w.c, env), w.toClient + w.s.io.outbox;
    var x := ClientTurn(p, w.c, env, coming, SPos(p, w.s));
    ChannelExtends(p, false, SPos(p, w.s), w.s.io.hsBuf, w.toServer, w.c.io.outbox, CPos(p, w.c), x, CPos(p, r));
  }

  lemma ServerTurnOnScript(p: Params, w: World)
    requires OnScript(p, w) && w.s.wait == Proceed && w.s.state != ServerDone
    ensures OnScript(p, w.(s := SDo(p, w.s, FAIR)))
  {
    hide ClientOn, ServerOn, Channel, SDo, Sent;
    var r, coming := SDo(p, w.s, FAIR), w.toServer + w.c.io.outbox;
    var x := ServerTurn(p, w.s, coming, CPos(p, w.c));
    ChannelExtends(p, true, CPos(p, w.c), w.c.io.hsBuf, w.toClient, w.s.io.outbox, SPos(p, w.s), x, SPos(p, r));
  }

  lemma FlushOnScript(p: Params, w: World, a: Actor)
    requires OnScript(p, w) && Enabled(w, a)
    requires if a.TheClient? then w.c.wait == Flush else w.s.wait == Flush
    ensures OnScript(p, Act(p, w, a))
  {
    hide Sent, Transcript;
    var r := Act(p, w, a);
    assert w.toServer + w.c.io.outbox + [] == w.toServer + w.c.io.outbox;
    assert w.toClient + w.s.io.outbox + [] == w.toClient + w.s.io.outbox;
  }

  lemma EarlyReturnOnScript(p: Params, w: World, fs: bool)
    requires OnScript(p, w) && w.c.wait == EarlyReturn
    ensures OnScript(p, Act(p, w, TheClient(fs)))
  {
    hide Sent, Transcript;
  }

  /** A record arrives that is what the script has next. */
  lemma OpenMessage(p: Params, server: bool, taken: nat, coming: seq<Item>, outbox: seq<Item>, hi: nat)
    requires taken <= Size(p) && hi <= Size(p) && coming != [] && coming[0].Hs?
    requires Channel(p, server, taken, [], coming + outbox, hi)
    ensures Channel(p, server, taken, [coming[0].msg], coming[1..] + outbox, hi)
  {
    hide Sent;
    assert Unread([]) + (coming + outbox) == Unread([coming[0].msg]) + (coming[1..] + outbox);
  }

  /** The ChangeCipherSpec the script has next is opened. */
  lemma OpensCcs(p: Params, server: bool, i: nat, coming: seq<Item>, outbox: seq<Item>, hi: nat)
    requires i < Size(p) && hi <= Size(p) && coming != []
    requires Sends(p, server, i) && ItemAt(p, i) == Ccs
    requires Channel(p, server, i, [], coming + outbox, hi)
    ensures coming[0] == Ccs
    ensures Channel(p, server, i + 1, [], coming[1..] + outbox, hi)
    ensures Transcript(p, i + 1) == Transcript(p, i) && Sent(p, !server, i + 1) == Sent(p, !server, i)
  {
    hide Sent, Transcript, ItemAt, Sends;
    assert Unread([]) + (coming + outbox) == [coming[0]] + (coming[1..] + outbox);
    HeadIs(p, server, i, hi, coming[0], coming[1..] + outbox);
    BySender(p, server, i);
    NextSlot(p, i);
    assert Unread([]) + (coming[1..] + outbox) == coming[1..] + outbox;
  }

  /** Where a message is awaited no ChangeCipherSpec is next. */
  lemma NoCcsAtMessage(p: Params, server: bool, i: nat, coming: seq<Item>, outbox: seq<Item>, hi: nat)
    requires i < Size(p) && hi <= Size(p) && coming != []
    requires Sends(p, server, i) && ItemAt(p, i).Hs?
    requires Channel(p, server, i, [], coming + outbox, hi)
    ensures coming[0].Hs?
  {
    hide Sent, Transcript, ItemAt, Sends;
    assert Unread([]) + (coming + outbox) == [coming[0]] + (coming[1..] + outbox);
    HeadIs(p, server, i, hi, coming[0], coming[1..] + outbox);
  }

  // =====================================================================
  // What a side waits for
  // =====================================================================

  /** The slot of the server that the client is waiting for in its state. */
  function CAwaits(p: Params, c: Client): (k: nat)
    ensures k < Size(p)
  {
    if p.resumed then
      match c.state
      case ReadSessionTicket => 2
      case ProcessServerCcs => 3
      case ReadServerFinished => 4
      case _ => 1
    else
      match c.state
      case ReadServerCertificate => 2
      case ReadCertificateStatus => NextOfFlight(p, 3)
      case ReadServerKeyExchange => NextOfFlight(p, 4)
      case ReadCertificateRequest => NextOfFlight(p, 5)
      case ReadServerHelloDone => 6
      case ReadSessionTicket => 14
      case ProcessServerCcs => 15
      case ReadServerFinished => 16
      case _ => 1
  }

  /** The first slot from i on that the server's first flight of a full handshake uses. */
  function NextOfFlight(p: Params, i: nat): (k: nat)
    requires !p.resumed && 2 <= i <= 6
    ensures i <= k <= 6 && Sends(p, true, k)
    ensures forall j :: i <= j < k ==> !Present(p, SlotAt(p, j))
    decreases 6 - i
  {
    if Present(p, SlotAt(p, i)) then i else NextOfFlight(p, i + 1)
  }

  /** The states in which the client waits for a message. */
  predicate CReads(p: Params, state: CState) {
    match state
    case ReadServerHello => true
    case ReadServerCertificate => p.certAuth
    case ReadCertificateStatus => true
    case ReadServerKeyExchange => true
    case ReadCertificateRequest => true
    case ReadServerHelloDone => true
    case ReadSessionTicket => p.ticket
    case ReadServerFinished => true
    case _ => false
  }

  predicate SReads(p: Params, s: Server) {
    match s.state
    case ReadClientHello => true
    case SelectCertificate => true
    case SelectParameters => true
    case ReadClientCertificate => p.certRequest
    case ReadClientKeyExchange => true
    case ReadClientCertificateVerify => s.asked
    case ReadNextProto => p.npn
    case ReadChannelId => p.channelId
    case ReadClientFinished => true
    case _ => false
  }

  lemma CWaitsWhereItReads(p: Params, c: Client, env: Env)
    requires c.state != ClientDone
    ensures var r := CDo(p, c, env); r.wait == ReadMessage ==> CReads(p, r.state)
  {
    hide ClientStep;
  }

  lemma CSendsLittle(p: Params, c: Client, env: Env)
    requires c.state != ClientDone
    ensures |CDo(p, c, env).io.outbox| <= |c.io.outbox| + 4
  {
    hide ClientStep;
  }

  lemma SWaitsWhereItReads(p: Params, s: Server)
    requires s.state != ServerDone
    ensures var r := SDo(p, s, FAIR); r.wait == ReadMessage ==> SReads(p, r)
  {
    hide ServerStep;
  }

  lemma SSendsLittle(p: Params, s: Server)
    requires s.state != ServerDone
    ensures |SDo(p, s, FAIR).io.outbox| <= |s.io.outbox| + 4
  {
    hide ServerStep;
  }

  predicate CBlocks(p: Params, c: Client) {
    c.wait == ReadCcs || (c.wait == ReadMessage && CReads(p, c.state))
  }

  predicate SBlocks(p: Params, s: Server) {
    s.wait == ReadCcs || (s.wait == ReadMessage && SReads(p, s))
  }

  /** A client that waits has nothing between its place and the slot it waits for, and has read and sent all. */
  lemma CAwaited(p: Params, c: Client)
    requires p.Consistent() && ClientOn(p, c) && CBlocks(p, c)
    ensures var k := CAwaits(p, c);
      && CPos(p, c) <= k && Sends(p, true, k) && (ItemAt(p, k).Hs? <==> c.wait == ReadMessage)
      && (c.wait == ReadCcs ==> CPos(p, c) == k)
      && forall j :: CPos(p, c) <= j < k ==> !Present(p, SlotAt(p, j))
    ensures c.io.hsBuf == [] && c.io.outbox == []
  {
    hide Transcript;
  }

  lemma SAwaited(p: Params, s: Server)
    requires p.Consistent() && ServerOn(p, s) && SBlocks(p, s)
    ensures SPos(p, s) < Size(p) && Sends(p, false, SPos(p, s))
    ensures ItemAt(p, SPos(p, s)).Hs? <==> s.wait == ReadMessage
    ensures s.io.hsBuf == [] && s.io.outbox == []
  {
    hide Transcript;
  }

  /** Slots that are not used change nothing. */
  lemma {:induction false} SkipsTo(p: Params, i: nat, k: nat)
    requires i <= k < Size(p)
    requires forall j :: i <= j < k ==> !Present(p, SlotAt(p, j))
    ensures Sent(p, true, k) == Sent(p, true, i)
  {
    hide Sent;
    if i < k {
      SkipsTo(p, i, k - 1);
      Skips(p, k - 1);
    }
  }

  // =====================================================================
  // Opening records
  // =====================================================================

  lemma ClientMovesOn(p: Params, c: Client, m: Msg)
    requires ClientOn(p, c) && CBlocks(p, c)
    requires c.wait == ReadCcs ==> CPos(p, c) < Size(p) && Transcript(p, CPos(p, c) + 1) == Transcript(p, CPos(p, c))
    ensures c.wait == ReadMessage ==>
      ClientOn(p, Resolve(c, Receive([m], false))) && CPos(p, Resolve(c, Receive([m], false))) == CPos(p, c)
    ensures c.wait == ReadCcs ==> ClientOn(p, Resolve(c, OpenCcs)) && CPos(p, Resolve(c, OpenCcs)) == CPos(p, c) + 1
  {
    hide Transcript;
  }

  lemma ServerMovesOn(p: Params, s: Server, m: Msg)
    requires ServerOn(p, s) && SBlocks(p, s)
    requires s.wait == ReadCcs ==> SPos(p, s) < Size(p) && Transcript(p, SPos(p, s) + 1) == Transcript(p, SPos(p, s))
    ensures s.wait == ReadMessage ==>
      ServerOn(p, Resolve(s, Receive([m], false))) && SPos(p, Resolve(s, Receive([m], false))) == SPos(p, s)
    ensures s.wait == ReadCcs ==> ServerOn(p, Resolve(s, OpenCcs)) && SPos(p, Resolve(s, OpenCcs)) == SPos(p, s) + 1
  {
    hide Transcript;
  }

  lemma ClientOpens(p: Params, w: World)
    requires OnScript(p, w) && CBlocks(p, w.c) && w.toClient != []
    ensures OnScript(p, Act(p, w, TheClient(false)))
  {
    hide ClientOn, ServerOn, CReads, CPos, SPos, CAwaits, Sends, ItemAt, Sent, Transcript, Present, SlotAt;
    var c, coming, outbox, hi := w.c, w.toClient, w.s.io.outbox, SPos(p, w.s);
    CAwaited(p, c);
    var k := CAwaits(p, c);
    SkipsTo(p, CPos(p, c), k);
    if c.wait == ReadMessage {
      NoCcsAtMessage(p, true, k, coming, outbox, hi);
      OpenMessage(p, true, CPos(p, c), coming, outbox, hi);
      ClientMovesOn(p, c, coming[0].msg);
    } else {
      OpensCcs(p, true, k, coming, outbox, hi);
      ClientMovesOn(p, c, Msg(Finished, []));
    }
  }

  lemma ServerOpens(p: Params, w: World)
    requires OnScript(p, w) && SBlocks(p, w.s) && w.toServer != []
    ensures OnScript(p, Act(p, w, TheServer))
  {
    hide ClientOn, ServerOn, SReads, CPos, SPos, Sends, ItemAt, Sent, Transcript, Present, SlotAt;
    var s, coming, outbox, hi := w.s, w.toServer, w.c.io.outbox, CPos(p, w.c);
    SAwaited(p, s);
    if s.wait == ReadMessage {
      NoCcsAtMessage(p, false, SPos(p, s), coming, outbox, hi);
      OpenMessage(p, false, SPos(p, s), coming, outbox, hi);
      ServerMovesOn(p, s, coming[0].msg);
    } else {
      OpensCcs(p, false, SPos(p, s), coming, outbox, hi);
      ServerMovesOn(p, s, Msg(Finished, []));
    }
  }

  // =====================================================================
  // Runs
  // =====================================================================

  /** What every reachable state of the two sides satisfies. */
  ghost predicate Sound(p: Params, w: World) {
    && OnScript(p, w)
    && ClientKnows(p, w.c) && ServerKnows(p, w.s)
    && (w.c.wait == ReadMessage ==> CReads(p, w.c.state))
    && (w.s.wait == ReadMessage ==> SReads(p, w.s))
  }

  lemma ActKeepsSound(p: Params, w: World, a: Actor)
    requires Sound(p, w) && Enabled(w, a)
    ensures Sound(p, Act(p, w, a))
  {
    if a.TheClient? {
      ClientActKeepsSound(p, w, a.falseStart);
    } else {
      ServerActKeepsSound(p, w);
    }
  }

  lemma ClientActKeepsSound(p: Params, w: World, fs: bool)
    requires Sound(p, w) && Enabled(w, TheClient(fs))
    ensures Sound(p, Act(p, w, TheClient(fs)))
  {
    hide OnScript, CDo, CReads, SReads, ClientFacts, ServerKnows, CRank;
    if w.c.wait == Proceed {
      CWaitsWhereItReads(p, w.c, Honest(fs));
      ClientTurnOnScript(p, w, Honest(fs));
    } else if w.c.wait == Flush {
      FlushOnScript(p, w, TheClient(fs));
    } else if w.c.wait == EarlyReturn {
      EarlyReturnOnScript(p, w, fs);
    } else {
      ClientOpens(p, w);
    }
  }

  lemma ServerActKeepsSound(p: Params, w: World)
    requires Sound(p, w) && Enabled(w, TheServer)
    ensures Sound(p, Act(p, w, TheServer))
  {
    hide OnScript, SDo, CReads, ServerFacts, ClientKnows, SRank;
    if w.s.wait == Proceed {
      SWaitsWhereItReads(p, w.s);
      ServerTurnOnScript(p, w);
    } else if w.s.wait == Flush {
      FlushOnScript(p, w, TheServer);
    } else {
      ScriptHasNoError(p, w);
      ServerOpens(p, w);
    }
  }

  predicate BothDone(w: World) {
    w.c.state == ClientDone && w.s.state == ServerDone
  }

  /** As long as a side is not done, one of them can act: the handshake has no deadlock. */
  lemma SomeoneCanAct(p: Params, w: World)
    requires Sound(p, w)
    ensures Over(w) ==> BothDone(w)
  {
    if Over(w) && !BothDone(w) {
      if w.c.state == ClientDone && w.c.wait == Proceed {
        BlockedServer(p, w);
      } else if w.s.state == ServerDone && w.s.wait == Proceed {
        BlockedClient(p, w);
      } else {
        BothBlocked(p, w);
      }
    }
  }

  lemma DoneHasSentAll(p: Params, w: World)
    requires OnScript(p, w)
    ensures w.c.state == ClientDone ==> w.c.io.outbox == [] && CPos(p, w.c) == Size(p)
    ensures w.s.state == ServerDone ==> w.s.io.outbox == [] && SPos(p, w.s) == Size(p)
  {
    hide Sent, Transcript, Channel;
  }

  /** A side that waits while the other is done has something to read. */
  lemma BlockedServer(p: Params, w: World)
    requires Sound(p, w) && w.c.state == ClientDone && SBlocks(p, w.s)
    ensures w.toServer != []
  {
    DoneHasSentAll(p, w);
    SAwaited(p, w.s);
    hide ClientOn, ServerOn, ClientKnows, ServerKnows, Sent, Sends, CPos, SPos;
    SentGrowsStrictly(p, false, SPos(p, w.s), SPos(p, w.s), Size(p));
  }

  lemma BlockedClient(p: Params, w: World)
    requires Sound(p, w) && w.s.state == ServerDone && CBlocks(p, w.c)
    ensures w.toClient != []
  {
    DoneHasSentAll(p, w);
    CAwaited(p, w.c);
    hide ClientOn, ServerOn, ClientKnows, ServerKnows, Sent, Sends, CPos, SPos, CAwaits;
    SentGrowsStrictly(p, true, CPos(p, w.c), CAwaits(p, w.c), Size(p));
  }

  /** And when both wait, one of them has. */
  lemma BothBlocked(p: Params, w: World)
    requires Sound(p, w) && CBlocks(p, w.c) && SBlocks(p, w.s)
    ensures w.toClient != [] || w.toServer != []
  {
    CAwaited(p, w.c);
    SAwaited(p, w.s);
    var i, j, k := CPos(p, w.c), SPos(p, w.s), CAwaits(p, w.c);
    BySender(p, false, j);
    hide ClientOn, ServerOn, ClientKnows, ServerKnows, Sent, CPos, SPos, CAwaits, SlotAt, Present, ByServer;
    if k < j {
      SentGrowsStrictly(p, true, i, k, j);
    } else if j < i {
      SentGrowsStrictly(p, false, j, j, i);
    }
  }

  // ----- how long a run can be

  function Weight(w: Wait): nat {
    match w
    case Flush => 2
    case EarlyReturn => 2
    case Proceed => 1
    case _ => 0
  }

  /** What one side still has to do. */
  function Work<S>(rank: nat, x: Side<S>): nat {
    32 * rank + 3 * |x.io.outbox| + Weight(x.wait)
  }

  function Measure(p: Params, w: World): nat {
    Work(CRank(p.resumed, w.c.state), w.c) + Work(SRank(p.resumed, w.s.state), w.s)
    + 2 * (|w.toServer| + |w.toClient|)
  }

  lemma ScriptHasNoError(p: Params, w: World)
    requires OnScript(p, w)
    ensures w.c.wait in {Proceed, ReadMessage, ReadCcs, Flush, EarlyReturn}
    ensures w.s.wait in {Proceed, ReadMessage, ReadCcs, Flush}
  {
    hide CPos, SPos, Channel, FullRank, FullSRank;
  }

  lemma ClientComesNearer(p: Params, w: World, fs: bool)
    requires Sound(p, w) && Enabled(w, TheClient(fs))
    ensures Measure(p, Act(p, w, TheClient(fs))) < Measure(p, w)
  {
    hide CRank, SRank, CDo, ClientKnows, ServerKnows, OnScript, CReads, SReads;
    var r := Act(p, w, TheClient(fs));
    assert r.c.wait in {Proceed, ReadMessage, ReadCcs, Flush, EarlyReturn} by {
      ActKeepsSound(p, w, TheClient(fs));
      ScriptHasNoError(p, r);
    }
    hide OnScript, Sound;
    if w.c.wait == Proceed {
      CSendsLittle(p, w.c, Honest(fs));
      if r.c.state != w.c.state {
        assert CRank(p.resumed, r.c.state) <= CRank(p.resumed, w.c.state) - 1;
      }
    }
  }

  lemma ServerComesNearer(p: Params, w: World)
    requires Sound(p, w) && Enabled(w, TheServer)
    ensures Measure(p, Act(p, w, TheServer)) < Measure(p, w)
  {
    hide CRank, SRank, SDo, ClientKnows, ServerKnows, OnScript, CReads, SReads;
    var r := Act(p, w, TheServer);
    assert r.s.wait in {Proceed, ReadMessage, ReadCcs, Flush} by {
      ActKeepsSound(p, w, TheServer);
      ScriptHasNoError(p, r);
    }
    hide OnScript, Sound;
    if w.s.wait == Proceed {
      SSendsLittle(p, w.s);
      if r.s.state != w.s.state {
        assert SRank(p.resumed, r.s.state) <= SRank(p.resumed, w.s.state) - 1;
      }
    }
  }

  lemma ActComesNearer(p: Params, w: World, a: Actor)
    requires Sound(p, w) && Enabled(w, a)
    ensures Measure(p, Act(p, w, a)) < Measure(p, w)
  {
    hide Sound, Enabled, Act, Measure;
    if a.TheClient? {
      ClientComesNearer(p, w, a.falseStart);
    } else {
      ServerComesNearer(p, w);
    }
  }

  /** A run: whoever is scheduled acts if it can. */
  function RunOf(p: Params, schedule: seq<Actor>): World {
    if schedule == [] then START
    else
      var w, a := RunOf(p, schedule[..|schedule| - 1]), schedule[|schedule| - 1];
      if Enabled(w, a) then Act(p, w, a) else w
  }

  /** How many of the scheduled acts took place. */
  function Acts(p: Params, schedule: seq<Actor>): nat {
    if schedule == [] then 0
    else
      var before := schedule[..|schedule| - 1];
      Acts(p, before) + if Enabled(RunOf(p, before), schedule[|schedule| - 1]) then 1 else 0
  }

  lemma {:induction false} RunIsSound(p: Params, schedule: seq<Actor>)
    requires p.Consistent()
    ensures Sound(p, RunOf(p, schedule))
    ensures Acts(p, schedule) + Measure(p, RunOf(p, schedule)) <= Measure(p, START)
  {
    if schedule == [] {
      StartsOnScript(p);
    } else {
      var before, a := schedule[..|schedule| - 1], schedule[|schedule| - 1];
      RunIsSound(p, before);
      var w := RunOf(p, before);
      hide Sound, Measure, Act;
      if Enabled(w, a) {
        ActKeepsSound(p, w, a);
        ActComesNearer(p, w, a);
      }
    }
  }

  /**
   However the two sides are scheduled, neither ever fails, and at every moment what both have
   computed agrees: the master secrets over one transcript, and each Finished over the transcript
   the other side checks it against.
   */
  lemma NoRunFails(p: Params, schedule: seq<Actor>)
    requires p.Consistent()
    ensures var w := RunOf(p, schedule);
      && w.c.wait != Error && w.s.wait != Error
      && (w.c.did.secret.Some? && w.s.did.secret.Some? ==> w.c.did.secret.value.over == w.s.did.secret.value.over)
      && (w.c.did.sent.Some? && w.s.did.got.Some? ==> w.c.did.sent.value.over == w.s.did.got.value.over)
      && (w.s.did.sent.Some? && w.c.did.got.Some? ==> w.s.did.sent.value.over == w.c.did.got.value.over)
  {
    RunIsSound(p, schedule);
    hide RunOf, CPos, SPos, Channel;
  }

  /**
   Every run ends: no schedule holds more than 1200 acts. A run that has ended has both sides done,
   with the same transcript hashed, every message delivered, and all the agreed values computed.
   */
  lemma EveryRunAgrees(p: Params, schedule: seq<Actor>)
    requires p.Consistent()
    ensures Acts(p, schedule) <= 1200
    ensures var w := RunOf(p, schedule);
      Over(w) ==>
        && BothDone(w)
        && w.c.io.transcript == w.s.io.transcript == Transcript(p, Size(p))
        && w.toClient == w.toServer == [] && w.c.io == w.s.io == Io(Transcript(p, Size(p)), [], [])
        && (!p.resumed ==> w.c.did.secret.Some? && w.s.did.secret.Some? && (p.certAuth ==> w.c.did.certOk))
        && w.c.did.sent.Some? && w.s.did.got.Some? && w.s.did.sent.Some? && w.c.did.got.Some?
  {
    RunIsSound(p, schedule);
    var w := RunOf(p, schedule);
    hide RunOf;
    if Over(w) {
      SomeoneCanAct(p, w);
      DoneHasSentAll(p, w);
      AllDelivered(p, true, w.c.io.hsBuf, w.toClient + w.s.io.outbox);
      AllDelivered(p, false, w.s.io.hsBuf, w.toServer + w.c.io.outbox);
    }
  }

  lemma AllDelivered(p: Params, server: bool, buf: seq<Msg>, coming: seq<Item>)
    requires Channel(p, server, Size(p), buf, coming, Size(p))
    ensures buf == [] && coming == []
  {
    hide Sent;
    assert |Unread(buf) + coming| == 0;
  }
}
