/**
 One side against a peer that sends what it likes: the messages a side has hashed are, kind by
 kind, those of an honest handshake in which the peer made some choice of its optional messages.
 No message is skipped, repeated or taken out of order.
 */
module TlsOrder {
  import opened Bytes
  import opened TlsHandshake
  import opened TlsAgreement

  function Kinds(t: seq<Msg>): (k: seq<Kind>)
    ensures |k| == |t|
  {
    seq(|t|, i requires 0 <= i < |t| => t[i].kind)
  }

  lemma KindsAppend(t: seq<Msg>, m: Msg)
    ensures Kinds(t + [m]) == Kinds(t) + [m.kind]
  {
  }

  /** The kinds of the first n slots of the script. */
  function KindsTo(q: Params, n: nat): seq<Kind>
    requires n <= Size(q)
  {
    Kinds(Transcript(q, n))
  }

  /** What a slot carries: a message of one kind, or a ChangeCipherSpec. */
  function KindOf(slot: Slot): Option<Kind> {
    match slot
    case CHello => Some(ClientHello)
    case SHello => Some(ServerHello)
    case SCert => Some(Certificate)
    case SStatus => Some(CertificateStatus)
    case SKeyExchange => Some(ServerKeyExchange)
    case SCertRequest => Some(CertificateRequest)
    case SHelloDone => Some(ServerHelloDone)
    case CCert => Some(Certificate)
    case CKeyExchange => Some(ClientKeyExchange)
    case CVerify => Some(CertificateVerify)
    case CCcs => None
    case CNextProto => Some(NextProto)
    case CChannelId => Some(ChannelId)
    case CFinished => Some(Finished)
    case STicket => Some(NewSessionTicket)
    case SCcs => None
    case SFinished => Some(Finished)
  }

  /** What slot i adds to them. */
  function KindsAt(q: Params, i: nat): seq<Kind>
    requires i < Size(q)
  {
    var slot := SlotAt(q, i);
    if Present(q, slot) && KindOf(slot).Some? then [KindOf(slot).value] else []
  }

  lemma NextKind(q: Params, i: nat)
    requires i < Size(q)
    ensures KindsTo(q, i + 1) == KindsTo(q, i) + KindsAt(q, i)
  {
    hide Transcript;
    NextSlot(q, i);
    var t := Transcript(q, i);
    match ItemAt(q, i) {
      case Hs(m) => KindsAppend(t, m);
      case Ccs =>
    }
    assert KindsTo(q, i) + [] == KindsTo(q, i);
  }

  /** Choices that come later do not matter. */
  lemma {:induction false} SameKinds(q: Params, q': Params, n: nat)
    requires q.resumed == q'.resumed && n <= Size(q)
    requires forall i :: 0 <= i < n ==> Present(q, SlotAt(q, i)) == Present(q', SlotAt(q, i))
    ensures KindsTo(q, n) == KindsTo(q', n)
  {
    hide KindsTo, Present, SlotAt;
    if n == 0 {
      assert KindsTo(q, 0) == KindsTo(q', 0) == [] by { NoKinds(q); NoKinds(q'); }
    } else {
      SameKinds(q, q', n - 1);
      NextKind(q, n - 1);
      NextKind(q', n - 1);
      SameSlot(q, q', n - 1);
    }
  }

  lemma NoKinds(q: Params)
    ensures KindsTo(q, 0) == []
  {
  }

  lemma SameSlot(q: Params, q': Params, i: nat)
    requires q.resumed == q'.resumed && i < Size(q)
    requires Present(q, SlotAt(q, i)) == Present(q', SlotAt(q, i))
    ensures KindsAt(q, i) == KindsAt(q', i)
  {
    hide Present;
  }

  // =====================================================================
  // The client
  // =====================================================================

  /** What a server may send or leave out as it likes. */
  datatype ServerChoice = ServerChoice(status: bool, ske: bool, request: bool)

  function ByChoice(p: Params, ch: ServerChoice): (q: Params)
    ensures q.resumed == p.resumed && Size(q) == Size(p)
  {
    p.(statusSent := ch.status, skeSent := ch.ske, certRequest := ch.request)
  }

  ghost predicate ClientOrder(p: Params, ch: ServerChoice, c: Client) {
    && Kinds(c.io.transcript) == KindsTo(ByChoice(p, ch), CPos(p, c))
    && (ch.status ==> p.statusExpected)
    && (if p.resumed then CRank(true, c.state) < 10 else
        && (FullRank(c.state) <= 11 && p.skeRequired ==> ch.ske)
        && c.asked == (FullRank(c.state) <= 10 && ch.request))
  }

  /** Which optional messages the server sends is settled when the client meets them. */
  lemma LaterChoices(p: Params, ch: ServerChoice, ch': ServerChoice, n: nat)
    requires !p.resumed && n <= 5
    requires (n <= 3 || ch'.status == ch.status) && (n <= 4 || ch'.ske == ch.ske)
    ensures KindsTo(ByChoice(p, ch), n) == KindsTo(ByChoice(p, ch'), n)
  {
    SameKinds(ByChoice(p, ch), ByChoice(p, ch'), n);
  }

  lemma AddsNothing(q: Params, i: nat)
    requires i <= Size(q)
    ensures KindsTo(q, i) + [] == KindsTo(q, i)
  {
  }

  /** The kinds of the slots when a session is resumed. */
  lemma ResumedKinds(p: Params, ch: ServerChoice)
    requires p.resumed
    ensures var q := ByChoice(p, ch);
      && KindsAt(q, 0) == [ClientHello] && KindsAt(q, 1) == [ServerHello]
      && KindsAt(q, 2) == (if p.ticket then [NewSessionTicket] else []) && KindsAt(q, 3) == []
      && KindsAt(q, 4) == [Finished] && KindsAt(q, 5) == []
      && KindsAt(q, 6) == (if p.npn then [NextProto] else [])
      && KindsAt(q, 7) == (if p.channelId then [ChannelId] else []) && KindsAt(q, 8) == [Finished]
  {
  }

  /** And in a full handshake: the first flights, ... */
  lemma FirstKinds(p: Params, ch: ServerChoice)
    requires !p.resumed
    ensures var q := ByChoice(p, ch);
      && KindsAt(q, 0) == [ClientHello] && KindsAt(q, 1) == [ServerHello]
      && KindsAt(q, 2) == (if p.certAuth then [Certificate] else [])
      && KindsAt(q, 3) == (if p.certAuth && ch.status then [CertificateStatus] else [])
      && KindsAt(q, 4) == (if ch.ske then [ServerKeyExchange] else [])
      && KindsAt(q, 5) == (if ch.request then [CertificateRequest] else [])
      && KindsAt(q, 6) == [ServerHelloDone]
  {
  }

  /** ... the client's answer, and the end. */
  lemma AnswerKinds(p: Params, ch: ServerChoice)
    requires !p.resumed
    ensures var q := ByChoice(p, ch);
      && KindsAt(q, 7) == (if ch.request then [Certificate] else []) && KindsAt(q, 8) == [ClientKeyExchange]
      && KindsAt(q, 9) == (if ch.request && p.clientCert then [CertificateVerify] else []) && KindsAt(q, 10) == []
  {
  }

  lemma ClosingKinds(p: Params, ch: ServerChoice)
    requires !p.resumed
    ensures var q := ByChoice(p, ch);
      && KindsAt(q, 11) == (if p.npn then [NextProto] else [])
      && KindsAt(q, 12) == (if p.channelId then [ChannelId] else []) && KindsAt(q, 13) == [Finished]
      && KindsAt(q, 14) == (if p.ticket then [NewSessionTicket] else []) && KindsAt(q, 15) == []
      && KindsAt(q, 16) == [Finished]
  {
  }

  ghost predicate Hashes<S>(s: Side<S>, r: Side<S>, kinds: seq<Kind>) {
    Kinds(r.io.transcript) == Kinds(s.io.transcript) + kinds
  }

  /** A step that waits or fails in its state, or goes on having hashed messages of these kinds. */
  ghost predicate Adds<S>(s: Side<S>, r: Side<S>, next: S, kinds: seq<Kind>) {
    || (r.state == s.state && r.io == s.io && r.wait in {ReadMessage, Error, VerifyRetry, Lookup})
    || (r.state == next && Hashes(s, r, kinds) && r.wait in {Proceed, ReadCcs, Flush, EarlyReturn})
  }

  lemma NothingHashed<S>(s: Side<S>, r: Side<S>)
    requires r.io.transcript == s.io.transcript
    ensures Hashes(s, r, [])
  {
    assert Kinds(s.io.transcript) + [] == Kinds(s.io.transcript);
  }

  lemma ExpectHashes<S>(s: Side<S>, kind: Kind, env: Env, next: S)
    ensures var r := Expect(s, kind, env, next);
      && Adds(s, r, next, [kind]) && r.asked == s.asked
      && r.wait in {Proceed, ReadMessage, Error} && (r.wait == ReadMessage ==> s.io.hsBuf == [])
  {
    if s.io.hsBuf != [] {
      KindsAppend(s.io.transcript, s.io.hsBuf[0]);
    }
  }

  lemma FinishedHashes<S>(p: Params, s: Side<S>, fromServer: bool, next: S)
    ensures var r := ExpectFinished(p, s, fromServer, next); Adds(s, r, next, [Finished]) && r.asked == s.asked
  {
    if s.io.hsBuf != [] {
      KindsAppend(s.io.transcript, s.io.hsBuf[0]);
    }
  }

  lemma SendIfHashes(io: Io, b: bool, m: Msg)
    ensures Kinds(io.SendIf(b, m).transcript) == Kinds(io.transcript) + if b then [m.kind] else []
  {
    KindsAppend(io.transcript, m);
    assert Kinds(io.transcript) + [] == Kinds(io.transcript);
  }

  // =====================================================================
  // The client
  // =====================================================================

  /** What each state of the client that reads and must not be left out hashes. */
  lemma ClientReadHashes(p: Params, c: Client, env: Env)
    requires c.state in {ReadServerHello, ReadServerCertificate, ReadServerHelloDone, ReadSessionTicket,
                         ReadServerFinished}
    ensures var r := CDo(p, c, env);
      && r.asked == c.asked
      && match c.state
         case ReadServerHello =>
           Adds(c, r, if p.resumed then ReadSessionTicket else ReadServerCertificate, [ServerHello])
         case ReadServerCertificate => Adds(c, r, ReadCertificateStatus, if p.certAuth then [Certificate] else [])
         case ReadServerHelloDone => Adds(c, r, SendClientCertificate, [ServerHelloDone])
         case ReadSessionTicket =>
           Adds(c, r, ProcessServerCcs, if p.ticket then [NewSessionTicket] else []) &&
           (r.state == ProcessServerCcs ==> r.wait == ReadCcs)
         case _ => Adds(c, r, if p.resumed then SendClientFinished else FinishClient, [Finished])
  {
    hide Kinds, ClientStep, Expect, ExpectFinished;
    var r := CDo(p, c, env);
    if r.io.transcript == c.io.transcript {
      NothingHashed(c, r);
    }
    match c.state {
      case ReadServerHello =>
        ExpectHashes(c, ServerHello, env, if p.resumed then ReadSessionTicket else ReadServerCertificate);
      case ReadServerCertificate => ExpectHashes(c, Certificate, env, ReadCertificateStatus);
      case ReadServerHelloDone => ExpectHashes(c, ServerHelloDone, env, SendClientCertificate);
      case ReadSessionTicket => ExpectHashes(c, NewSessionTicket, env, ProcessServerCcs);
      case ReadServerFinished => FinishedHashes(p, c, true, if p.resumed then SendClientFinished else FinishClient);
    }
  }

  /** What the client hashes of its own. */
  lemma ClientSendHashes(p: Params, c: Client, env: Env)
    requires c.state in {StartConnect, SendClientCertificate, SendClientKeyExchange, SendClientCertificateVerify}
    ensures var r := CDo(p, c, env);
      && r.asked == c.asked
      && match c.state
         case StartConnect => Adds(c, r, EnterEarlyData, [ClientHello])
         case SendClientCertificate => Adds(c, r, SendClientKeyExchange, if c.asked then [Certificate] else [])
         case SendClientKeyExchange => Adds(c, r, SendClientCertificateVerify, [ClientKeyExchange])
         case _ => Adds(c, r, SendClientFinished, if c.asked && p.clientCert then [CertificateVerify] else [])
  {
    hide Kinds, ClientStep;
    match c.state {
      case StartConnect => KindsAppend(c.io.transcript, Msg(ClientHello, p.body(ClientHello, false)));
      case SendClientCertificate =>
        SendIfHashes(c.io, c.asked, Msg(Certificate, if p.clientCert then p.body(Certificate, false) else []));
      case SendClientKeyExchange =>
        KindsAppend(c.io.transcript, Msg(ClientKeyExchange, p.body(ClientKeyExchange, false)));
      case SendClientCertificateVerify =>
        SendIfHashes(c.io, c.asked && p.clientCert, Msg(CertificateVerify, p.body(CertificateVerify, false)));
    }
  }

  /** The optional messages of the server, of which the client learns when it meets them. */
  lemma ClientOptionHashes(p: Params, c: Client, env: Env) returns (taken: bool)
    requires c.state in {ReadCertificateStatus, ReadServerKeyExchange, ReadCertificateRequest}
    ensures var r := CDo(p, c, env);
      && (taken ==> r.state != c.state)
      && match c.state
         case ReadCertificateStatus =>
           && r.asked == c.asked && (taken ==> p.statusExpected)
           && Adds(c, r, VerifyServerCertificate, if taken then [CertificateStatus] else [])
         case ReadServerKeyExchange =>
           && r.asked == c.asked && (p.skeRequired && r.state != c.state ==> taken)
           && Adds(c, r, ReadCertificateRequest, if taken then [ServerKeyExchange] else [])
         case _ =>
           && (c.asked || r.asked == taken)
           && Adds(c, r, ReadServerHelloDone, if taken then [CertificateRequest] else [])
  {
    hide Kinds, ClientStep, Expect;
    var r := CDo(p, c, env);
    match c.state {
      case ReadCertificateStatus => ExpectHashes(c, CertificateStatus, env, VerifyServerCertificate);
      case ReadServerKeyExchange => ExpectHashes(c, ServerKeyExchange, env, ReadCertificateRequest);
      case ReadCertificateRequest => ExpectHashes(c, CertificateRequest, env, ReadServerHelloDone);
    }
    taken := |r.io.transcript| > |c.io.transcript|;
    if !taken {
      NothingHashed(c, r);
    }
  }

  /** The last flight: all that goes out with the client's Finished. */
  lemma ClientFlightHashes(p: Params, c: Client, env: Env)
    requires c.state == SendClientFinished
    ensures var r := DoSendClientFinished(p, c, env);
      && r.asked == c.asked
      && if p.channelId && env.pause then r == c.Stop(Lookup) else
         && r.state == FinishFlight && r.wait == Flush
         && Kinds(r.io.transcript) == Kinds(c.io.transcript) + (if p.npn then [NextProto] else [])
                                      + (if p.channelId then [ChannelId] else []) + [Finished]
  {
    hide Kinds, ClientStep;
    var np, id := Msg(NextProto, p.body(NextProto, false)), Msg(ChannelId, p.body(ChannelId, false));
    var io := c.io.SendCcs();
    SendIfHashes(io, p.npn, np);
    SendIfHashes(io.SendIf(p.npn, np), p.channelId, id);
    var t := io.SendIf(p.npn, np).SendIf(p.channelId, id).transcript;
    KindsAppend(t, Msg(Finished, p.mac(t, false)));
  }

  lemma ClientReadsInOrder(p: Params, ch: ServerChoice, c: Client, env: Env)
    requires ClientOrder(p, ch, c)
    requires c.state in {ReadServerHello, ReadServerCertificate, ReadServerHelloDone, ReadSessionTicket,
                         ReadServerFinished}
    ensures ClientOrder(p, ch, CDo(p, c, env))
  {
    hide Kinds, KindsTo, KindsAt, ByChoice, ClientStep, CDo;
    ClientReadHashes(p, c, env);
    if p.resumed {
      ResumedKinds(p, ch);
    } else {
      FirstKinds(p, ch);
      ClosingKinds(p, ch);
    }
    NextKind(ByChoice(p, ch), CPos(p, c));
  }

  lemma ClientSendsInOrder(p: Params, ch: ServerChoice, c: Client, env: Env)
    requires ClientOrder(p, ch, c)
    requires c.state in {StartConnect, SendClientCertificate, SendClientKeyExchange, SendClientCertificateVerify}
    ensures ClientOrder(p, ch, CDo(p, c, env))
  {
    hide Kinds, KindsTo, KindsAt, ByChoice, ClientStep, CDo;
    ClientSendHashes(p, c, env);
    if p.resumed {
      ResumedKinds(p, ch);
    } else {
      FirstKinds(p, ch);
      AnswerKinds(p, ch);
    }
    NextKind(ByChoice(p, ch), CPos(p, c));
  }

  lemma FlightKinds(p: Params, ch: ServerChoice)
    ensures var q, i := ByChoice(p, ch), if p.resumed then 5 else 10;
      KindsTo(q, i + 4) == KindsTo(q, i) + (if p.npn then [NextProto] else [])
                           + (if p.channelId then [ChannelId] else []) + [Finished]
  {
    hide Kinds, KindsTo, KindsAt, ByChoice;
    var q, i := ByChoice(p, ch), if p.resumed then 5 else 10;
    if p.resumed {
      ResumedKinds(p, ch);
    } else {
      AnswerKinds(p, ch);
      ClosingKinds(p, ch);
    }
    NextKind(q, i);
    NextKind(q, i + 1);
    NextKind(q, i + 2);
    NextKind(q, i + 3);
    AddsNothing(q, i);
  }

  lemma ClientFlightInOrder(p: Params, ch: ServerChoice, c: Client, env: Env)
    requires ClientOrder(p, ch, c) && c.state == SendClientFinished
    ensures ClientOrder(p, ch, DoSendClientFinished(p, c, env))
  {
    hide Kinds, KindsTo, ByChoice, ClientStep, DoSendClientFinished;
    ClientFlightHashes(p, c, env);
    FlightKinds(p, ch);
  }

  lemma ClientOptionsInOrder(p: Params, ch: ServerChoice, c: Client, env: Env) returns (ch': ServerChoice)
    requires ClientOrder(p, ch, c) && (p.statusExpected ==> p.certAuth)
    requires c.state in {ReadCertificateStatus, ReadServerKeyExchange, ReadCertificateRequest}
    ensures ClientOrder(p, ch', CDo(p, c, env))
  {
    hide Kinds, KindsTo, KindsAt, ByChoice, ClientStep, CDo;
    var taken := ClientOptionHashes(p, c, env);
    ch' := match c.state
      case ReadCertificateStatus => ch.(status := taken)
      case ReadServerKeyExchange => ch.(ske := taken)
      case _ => ch.(request := taken);
    var i := CPos(p, c);
    LaterChoices(p, ch, ch', i);
    FirstKinds(p, ch');
    NextKind(ByChoice(p, ch'), i);
  }

  /** States that hash nothing. */
  lemma ClientPassesInOrder(p: Params, ch: ServerChoice, c: Client, env: Env)
    requires ClientOrder(p, ch, c) && c.wait == Proceed
    requires c.state in {EnterEarlyData, VerifyServerCertificate, FinishFlight, ProcessServerCcs, FinishClient}
    ensures ClientOrder(p, ch, CDo(p, c, env))
  {
    hide Kinds, KindsTo, ByChoice, ClientStep;
  }

  lemma ClientTurnInOrder(p: Params, ch: ServerChoice, c: Client, env: Env) returns (ch': ServerChoice)
    requires ClientOrder(p, ch, c) && (p.statusExpected ==> p.certAuth)
    requires c.wait == Proceed && c.state != ClientDone
    ensures ClientOrder(p, ch', CDo(p, c, env))
  {
    hide ClientOrder, ClientStep, DoSendClientFinished;
    ch' := ch;
    if c.state == SendClientFinished {
      ClientFlightInOrder(p, ch, c, env);
    } else if c.state in {ReadCertificateStatus, ReadServerKeyExchange, ReadCertificateRequest} {
      ch' := ClientOptionsInOrder(p, ch, c, env);
    } else if c.state in {EnterEarlyData, VerifyServerCertificate, FinishFlight, ProcessServerCcs, FinishClient} {
      ClientPassesInOrder(p, ch, c, env);
    } else if c.state in {StartConnect, SendClientCertificate, SendClientKeyExchange, SendClientCertificateVerify} {
      ClientSendsInOrder(p, ch, c, env);
    } else {
      ClientReadsInOrder(p, ch, c, env);
    }
  }

  lemma ClientResolveInOrder(p: Params, ch: ServerChoice, c: Client, m: Move)
    requires ClientOrder(p, ch, c) && !m.Turn?
    ensures ClientOrder(p, ch, Resolve(c, m))
  {
    hide Kinds, KindsTo, KindsAt, ByChoice;
    var q := ByChoice(p, ch);
    if p.resumed {
      ResumedKinds(p, ch);
      NextKind(q, 3);
      AddsNothing(q, 3);
    } else {
      ClosingKinds(p, ch);
      NextKind(q, 15);
      AddsNothing(q, 15);
    }
  }

  /**
   Whatever the server sends and however its records arrive: the client has hashed, kind by kind,
   what an honest handshake has up to the client's state, for some choice of the server's optional
   messages. CertificateStatus was negotiated, and a cipher that needs ServerKeyExchange got one.
   */
  lemma {:induction false} ClientHashesInOrder(p: Params, moves: seq<Move>) returns (ch: ServerChoice)
    requires p.statusExpected ==> p.certAuth
    ensures ClientOrder(p, ch, ClientRun(p, moves))
  {
    hide ClientOrder;
    if moves == [] {
      ch := ServerChoice(false, false, false);
      FreshClientInOrder(p, ch);
    } else {
      var before, m := moves[..|moves| - 1], moves[|moves| - 1];
      ch := ClientHashesInOrder(p, before);
      var c := ClientRun(p, before);
      if !m.Turn? {
        ClientResolveInOrder(p, ch, c, m);
      } else if c.wait == Proceed && c.state != ClientDone {
        ch := ClientTurnInOrder(p, ch, c, m.env);
      }
    }
  }

  lemma FreshClientInOrder(p: Params, ch: ServerChoice)
    requires !ch.status
    ensures ClientOrder(p, ch, Fresh(StartConnect))
  {
  }

  // =====================================================================
  // The server
  // =====================================================================

  /** The client decides whether it has a certificate. */
  function ByCert(p: Params, cert: bool): (q: Params)
    ensures q.resumed == p.resumed && Size(q) == Size(p)
  {
    p.(clientCert := cert)
  }

  /** The server has hashed what an honest handshake has up to its state, the client having chosen so. */
  ghost predicate ServerOrder(p: Params, cert: bool, s: Server) {
    && Kinds(s.io.transcript) == KindsTo(ByCert(p, cert), SPos(p, s))
    && (s.state in {SelectCertificate, SelectParameters} ==> s.io.hsBuf != [] && s.io.hsBuf[0].kind == ClientHello)
    && (if p.resumed then SRank(true, s.state) < 20 else
        && (FullSRank(s.state) <= 10 && p.certRequest && p.requireClientCert ==> cert)
        && s.asked == (FullSRank(s.state) <= 10 && p.certRequest && cert))
  }

  /** The kinds of all slots, as the server sees them. */
  lemma ServerKinds(p: Params, cert: bool)
    ensures var q := ByCert(p, cert);
      if p.resumed then
        && KindsAt(q, 0) == [ClientHello] && KindsAt(q, 1) == [ServerHello]
        && KindsAt(q, 2) == (if p.ticket then [NewSessionTicket] else []) && KindsAt(q, 3) == []
        && KindsAt(q, 4) == [Finished] && KindsAt(q, 5) == []
        && KindsAt(q, 6) == (if p.npn then [NextProto] else [])
        && KindsAt(q, 7) == (if p.channelId then [ChannelId] else []) && KindsAt(q, 8) == [Finished]
      else
        && KindsAt(q, 0) == [ClientHello] && KindsAt(q, 1) == [ServerHello]
        && KindsAt(q, 2) == (if p.certAuth then [Certificate] else [])
        && KindsAt(q, 3) == (if p.certAuth && p.statusSent then [CertificateStatus] else [])
        && KindsAt(q, 4) == (if p.skeSent then [ServerKeyExchange] else [])
        && KindsAt(q, 5) == (if p.certRequest then [CertificateRequest] else [])
        && KindsAt(q, 6) == [ServerHelloDone] && KindsAt(q, 7) == (if p.certRequest then [Certificate] else [])
        && KindsAt(q, 8) == [ClientKeyExchange]
        && KindsAt(q, 9) == (if p.certRequest && cert then [CertificateVerify] else []) && KindsAt(q, 10) == []
        && KindsAt(q, 11) == (if p.npn then [NextProto] else [])
        && KindsAt(q, 12) == (if p.channelId then [ChannelId] else []) && KindsAt(q, 13) == [Finished]
        && KindsAt(q, 14) == (if p.ticket then [NewSessionTicket] else []) && KindsAt(q, 15) == []
        && KindsAt(q, 16) == [Finished]
  {
    hide KindsAt;
    var q := ByCert(p, cert);
    var ch := ServerChoice(p.statusSent, p.skeSent, p.certRequest);
    assert ByChoice(q, ch) == q;
    if p.resumed {
      ResumedKinds(q, ch);
    } else {
      FirstKinds(q, ch);
      AnswerKinds(q, ch);
      ClosingKinds(q, ch);
    }
  }

  /** What each state of the server that reads hashes. */
  lemma ServerReadHashes(p: Params, s: Server, env: Env)
    requires s.state in {SelectParameters, ReadClientCertificate, ReadClientKeyExchange, ReadClientCertificateVerify,
                         ReadNextProto, ReadChannelId, ReadClientFinished}
    requires s.state == SelectParameters ==> s.io.hsBuf != [] && s.io.hsBuf[0].kind == ClientHello
    ensures var r := SDo(p, s, env);
      && (s.state == ReadClientCertificate || r.asked == s.asked)
      && match s.state
         case SelectParameters => Adds(s, r, SendServerHello, [ClientHello])
         case ReadClientCertificate =>
           && Adds(s, r, VerifyClientCertificate, if p.certRequest then [Certificate] else [])
           && (r.state == s.state || !p.certRequest ==> r.asked == s.asked)
           && (r.state != s.state && p.certRequest && p.requireClientCert ==> r.asked)
         case ReadClientKeyExchange => Adds(s, r, ReadClientCertificateVerify, [ClientKeyExchange])
         case ReadClientCertificateVerify => Adds(s, r, ReadClientCcs, if s.asked then [CertificateVerify] else [])
         case ReadNextProto => Adds(s, r, ReadChannelId, if p.npn then [NextProto] else [])
         case ReadChannelId => Adds(s, r, ReadClientFinished, if p.channelId then [ChannelId] else [])
         case _ => Adds(s, r, if p.resumed then FinishServer else SendServerFinished, [Finished])
  {
    hide Kinds, ServerStep, Expect, ExpectFinished;
    var r := SDo(p, s, env);
    if r.io.transcript == s.io.transcript {
      NothingHashed(s, r);
    }
    match s.state {
      case SelectParameters => KindsAppend(s.io.transcript, s.io.hsBuf[0]);
      case ReadClientCertificate => ExpectHashes(s, Certificate, env, VerifyClientCertificate);
      case ReadClientKeyExchange => ExpectHashes(s, ClientKeyExchange, env, ReadClientCertificateVerify);
      case ReadClientCertificateVerify => ExpectHashes(s, CertificateVerify, env, ReadClientCcs);
      case ReadNextProto => ExpectHashes(s, NextProto, env, ReadChannelId);
      case ReadChannelId => ExpectHashes(s, ChannelId, env, ReadClientFinished);
      case ReadClientFinished =>
        FinishedHashes(p, s, false, if p.resumed then FinishServer else SendServerFinished);
    }
  }

  /** What the server hashes of its own: one or two slots, or its last flight. */
  lemma ServerSendHashes(p: Params, s: Server, env: Env)
    requires s.state in {SendServerHello, SendServerCertificate, SendServerKeyExchange, SendServerHelloDone,
                         SendServerFinished}
    ensures var r, k := SDo(p, s, env), Kinds(s.io.transcript);
      && r.asked == s.asked && (r.wait == Proceed || r.wait == Flush || r.wait == Lookup)
      && (if s.state == SendServerKeyExchange && p.skeSent && env.pause then r == s.Stop(Lookup) else match s.state
         case SendServerHello =>
           && r.state == (if p.resumed then SendServerFinished else SendServerCertificate)
           && Kinds(r.io.transcript) == k + [ServerHello]
         case SendServerCertificate =>
           && r.state == SendServerKeyExchange
           && Kinds(r.io.transcript) == k + (if p.certAuth then [Certificate] else [])
                                          + (if p.certAuth && p.statusSent then [CertificateStatus] else [])
         case SendServerKeyExchange =>
           && r.state == SendServerHelloDone
           && Kinds(r.io.transcript) == k + (if p.skeSent then [ServerKeyExchange] else [])
         case SendServerHelloDone =>
           && r.state == ReadClientCertificate
           && Kinds(r.io.transcript) == k + (if p.certRequest then [CertificateRequest] else []) + [ServerHelloDone]
         case _ =>
           && r.state == (if p.resumed then ReadClientCcs else FinishServer)
           && Kinds(r.io.transcript) == k + (if p.ticket then [NewSessionTicket] else []) + [Finished])
  {
    hide Kinds, ServerStep;
    match s.state {
      case SendServerHello => KindsAppend(s.io.transcript, Msg(ServerHello, p.body(ServerHello, true)));
      case SendServerCertificate =>
        var cert := Msg(Certificate, p.body(Certificate, true));
        SendIfHashes(s.io, p.certAuth, cert);
        SendIfHashes(s.io.SendIf(p.certAuth, cert), p.certAuth && p.statusSent,
                     Msg(CertificateStatus, p.body(CertificateStatus, true)));
      case SendServerKeyExchange =>
        SendIfHashes(s.io, p.skeSent, Msg(ServerKeyExchange, p.body(ServerKeyExchange, true)));
      case SendServerHelloDone =>
        var request := Msg(CertificateRequest, p.body(CertificateRequest, true));
        SendIfHashes(s.io, p.certRequest, request);
        KindsAppend(s.io.SendIf(p.certRequest, request).transcript,
                    Msg(ServerHelloDone, p.body(ServerHelloDone, true)));
      case SendServerFinished =>
        var ticket := Msg(NewSessionTicket, p.body(NewSessionTicket, true));
        SendIfHashes(s.io, p.ticket, ticket);
        var t := s.io.SendIf(p.ticket, ticket).transcript;
        KindsAppend(t, Msg(Finished, p.mac(t, true)));
    }
  }

  lemma ServerReadsInOrder(p: Params, cert: bool, s: Server, env: Env) returns (cert': bool)
    requires ServerOrder(p, cert, s)
    requires s.state in {SelectParameters, ReadClientCertificate, ReadClientKeyExchange, ReadClientCertificateVerify,
                         ReadNextProto, ReadChannelId, ReadClientFinished}
    ensures ServerOrder(p, cert', SDo(p, s, env))
  {
    hide Kinds, KindsTo, KindsAt, ByCert, ServerStep, SDo;
    if s.state == ReadClientCertificate {
      cert' := ServerCertInOrder(p, cert, s, env);
    } else {
      cert' := cert;
      if s.state in {ReadNextProto, ReadChannelId, ReadClientFinished} {
        ServerClosesInOrder(p, cert, s, env);
      } else {
        ServerReadHashes(p, s, env);
        ServerKinds(p, cert);
        NextKind(ByCert(p, cert), SPos(p, s));
      }
    }
  }

  lemma ServerClosesInOrder(p: Params, cert: bool, s: Server, env: Env)
    requires ServerOrder(p, cert, s) && s.state in {ReadNextProto, ReadChannelId, ReadClientFinished}
    ensures ServerOrder(p, cert, SDo(p, s, env))
  {
    hide Kinds, KindsTo, KindsAt, ByCert, ServerStep, SDo;
    ServerReadHashes(p, s, env);
    ServerKinds(p, cert);
    NextKind(ByCert(p, cert), SPos(p, s));
  }

  lemma ServerCertInOrder(p: Params, cert: bool, s: Server, env: Env) returns (cert': bool)
    requires ServerOrder(p, cert, s) && s.state == ReadClientCertificate
    ensures ServerOrder(p, cert', SDo(p, s, env))
  {
    hide Kinds, KindsTo, KindsAt, ByCert, ServerStep, SDo;
    ServerReadHashes(p, s, env);
    cert' := if p.certRequest then SDo(p, s, env).asked else cert;
    LaterCert(p, cert, cert', 7);
    ServerKinds(p, cert');
    NextKind(ByCert(p, cert'), SPos(p, s));
  }

  lemma LaterCert(p: Params, cert: bool, cert': bool, n: nat)
    requires !p.resumed && n <= 9
    ensures KindsTo(ByCert(p, cert), n) == KindsTo(ByCert(p, cert'), n)
  {
    SameKinds(ByCert(p, cert), ByCert(p, cert'), n);
  }

  lemma ServerSendsInOrder(p: Params, cert: bool, s: Server, env: Env)
    requires ServerOrder(p, cert, s)
    requires s.state in {SendServerHello, SendServerCertificate, SendServerKeyExchange, SendServerHelloDone,
                         SendServerFinished}
    ensures ServerOrder(p, cert, SDo(p, s, env))
  {
    hide Kinds, KindsTo, KindsAt, ByCert, ServerStep, SDo;
    if s.state == SendServerFinished {
      ServerFinishesInOrder(p, cert, s, env);
    } else {
      ServerSendHashes(p, s, env);
      ServerKinds(p, cert);
      var q, i := ByCert(p, cert), SPos(p, s);
      NextKind(q, i);
      NextKind(q, i + 1);
    }
  }

  lemma ServerFinishesInOrder(p: Params, cert: bool, s: Server, env: Env)
    requires ServerOrder(p, cert, s) && s.state == SendServerFinished
    ensures ServerOrder(p, cert, SDo(p, s, env))
  {
    hide Kinds, KindsTo, KindsAt, ByCert, ServerStep, SDo;
    ServerSendHashes(p, s, env);
    ServerKinds(p, cert);
    var q, i := ByCert(p, cert), SPos(p, s);
    NextKind(q, i);
    AddsNothing(q, i + 1);
    NextKind(q, i + 1);
    NextKind(q, i + 2);
  }

  /** States that hash nothing. */
  lemma ServerPassesInOrder(p: Params, cert: bool, s: Server, env: Env)
    requires ServerOrder(p, cert, s) && s.wait == Proceed
    requires s.state in {StartAccept, ReadClientHello, SelectCertificate, VerifyClientCertificate, ReadClientCcs,
                         ProcessClientCcs, FinishServer}
    ensures ServerOrder(p, cert, SDo(p, s, env))
  {
    hide Kinds, KindsTo, ByCert, ServerStep;
  }

  lemma ServerTurnInOrder(p: Params, cert: bool, s: Server, env: Env) returns (cert': bool)
    requires ServerOrder(p, cert, s) && s.wait == Proceed && s.state != ServerDone
    ensures ServerOrder(p, cert', SDo(p, s, env))
  {
    hide ServerOrder, ServerStep, SDo;
    cert' := cert;
    if s.state in {StartAccept, ReadClientHello, SelectCertificate, VerifyClientCertificate, ReadClientCcs,
                   ProcessClientCcs, FinishServer} {
      ServerPassesInOrder(p, cert, s, env);
    } else if s.state in {SendServerHello, SendServerCertificate, SendServerKeyExchange, SendServerHelloDone,
                          SendServerFinished} {
      ServerSendsInOrder(p, cert, s, env);
    } else {
      cert' := ServerReadsInOrder(p, cert, s, env);
    }
  }

  lemma ServerResolveInOrder(p: Params, cert: bool, s: Server, m: Move)
    requires ServerOrder(p, cert, s) && !m.Turn?
    ensures ServerOrder(p, cert, Resolve(s, m))
  {
    hide Kinds, KindsTo, KindsAt, ByCert;
    var q, i := ByCert(p, cert), if p.resumed then 5 else 10;
    ServerKinds(p, cert);
    NextKind(q, i);
    AddsNothing(q, i);
  }

  /**
   Whatever the client sends: the server has hashed, kind by kind, what an honest handshake has up
   to the server's state, for a client that has a certificate or has none; and it has one where the
   server requires it.
   */
  lemma {:induction false} ServerHashesInOrder(p: Params, moves: seq<Move>) returns (cert: bool)
    ensures ServerOrder(p, cert, ServerRun(p, moves))
  {
    hide ServerOrder;
    if moves == [] {
      cert := false;
      FreshServerInOrder(p, cert);
    } else {
      var before, m := moves[..|moves| - 1], moves[|moves| - 1];
      cert := ServerHashesInOrder(p, before);
      var s := ServerRun(p, before);
      if !m.Turn? {
        ServerResolveInOrder(p, cert, s, m);
      } else if s.wait == Proceed && s.state != ServerDone {
        cert := ServerTurnInOrder(p, cert, s, m.env);
      }
    }
  }

  lemma FreshServerInOrder(p: Params, cert: bool)
    ensures ServerOrder(p, cert, Fresh(StartAccept))
  {
  }

  // =====================================================================
  // Finished messages
  // =====================================================================

  /** The transcript goes on with a Finished whose MAC is over all of `over`. */
  ghost predicate FinishedAfter(p: Params, t: seq<Msg>, over: seq<Msg>, fromServer: bool) {
    over + [Msg(Finished, p.mac(over, fromServer))] <= t
  }

  /** Both Finished messages, once sent or checked, carry the MAC over the transcript before them. */
  ghost predicate Genuine<S>(p: Params, s: Side<S>, server: bool) {
    && (s.did.sent.Some? ==> FinishedAfter(p, s.io.transcript, s.did.sent.value.over, server))
    && (s.did.got.Some? ==> FinishedAfter(p, s.io.transcript, s.did.got.value.over, !server))
  }

  lemma GenuineGrows<S>(p: Params, s: Side<S>, r: Side<S>, server: bool)
    requires Genuine(p, s, server) && s.io.transcript <= r.io.transcript
    requires r.did.sent == s.did.sent && r.did.got == s.did.got
    ensures Genuine(p, r, server)
  {
  }

  lemma ClientTurnGenuine(p: Params, c: Client, env: Env)
    requires Genuine(p, c, false) && c.state != ClientDone
    ensures Genuine(p, CDo(p, c, env), false)
  {
    hide ClientStep, FinishedAfter, Genuine, ExpectFinished, SendFinished;
    var r := CDo(p, c, env);
    if c.state == SendClientFinished {
      ClientSendsGenuine(p, c, env);
    } else if c.state == ReadServerFinished {
      ChecksGenuine(p, c, false, if p.resumed then SendClientFinished else FinishClient);
    } else {
      GenuineGrows(p, c, r, false);
    }
  }

  lemma ClientSendsGenuine(p: Params, c: Client, env: Env)
    requires Genuine(p, c, false) && c.state == SendClientFinished
    ensures Genuine(p, DoSendClientFinished(p, c, env), false)
  {
    hide ClientStep;
    var r := DoSendClientFinished(p, c, env);
    if !(p.channelId && env.pause) {
      assert r.did.sent.value.over + [Msg(Finished, p.mac(r.did.sent.value.over, false))] == r.io.transcript;
    }
  }

  /** A Finished is accepted only with the right MAC over everything hashed before it. */
  lemma ChecksGenuine<S>(p: Params, s: Side<S>, server: bool, next: S)
    requires Genuine(p, s, server)
    ensures Genuine(p, ExpectFinished(p, s, !server, next), server)
  {
  }

  lemma ServerTurnGenuine(p: Params, s: Server, env: Env)
    requires Genuine(p, s, true) && s.state != ServerDone
    ensures Genuine(p, SDo(p, s, env), true)
  {
    hide ServerStep, FinishedAfter, Genuine, ExpectFinished, SendFinished;
    var r := SDo(p, s, env);
    if s.state == SendServerFinished {
      ServerSendsGenuine(p, s, env);
    } else if s.state == ReadClientFinished {
      ChecksGenuine(p, s, true, if p.resumed then FinishServer else SendServerFinished);
    } else {
      GenuineGrows(p, s, r, true);
    }
  }

  lemma ServerSendsGenuine(p: Params, s: Server, env: Env)
    requires Genuine(p, s, true) && s.state == SendServerFinished
    ensures Genuine(p, DoSendServerFinished(p, s, env), true)
  {
    hide ServerStep;
    var r := DoSendServerFinished(p, s, env);
    assert r.did.sent.value.over + [Msg(Finished, p.mac(r.did.sent.value.over, true))] == r.io.transcript;
  }

  lemma {:induction false} ClientRunGenuine(p: Params, moves: seq<Move>)
    ensures Genuine(p, ClientRun(p, moves), false)
  {
    hide CDo, FinishedAfter;
    if moves != [] {
      var before, m := moves[..|moves| - 1], moves[|moves| - 1];
      ClientRunGenuine(p, before);
      var c := ClientRun(p, before);
      if m.Turn? && c.wait == Proceed && c.state != ClientDone {
        ClientTurnGenuine(p, c, m.env);
      }
    }
  }

  lemma {:induction false} ServerRunGenuine(p: Params, moves: seq<Move>)
    ensures Genuine(p, ServerRun(p, moves), true)
  {
    hide SDo, FinishedAfter;
    if moves != [] {
      var before, m := moves[..|moves| - 1], moves[|moves| - 1];
      ServerRunGenuine(p, before);
      var s := ServerRun(p, before);
      if m.Turn? && s.wait == Proceed && s.state != ServerDone {
        ServerTurnGenuine(p, s, m.env);
      }
    }
  }

  // =====================================================================
  // Data left over at the key switch
  // =====================================================================

  predicate ClientStuck(c: Client) {
    c.state == ProcessServerCcs && c.Leftover() && c.wait in {ReadCcs, Proceed, Error}
  }

  predicate ServerStuck(s: Server) {
    s.state == ProcessClientCcs && s.Leftover() && s.wait in {ReadCcs, Proceed, Error}
  }

  /** Where the ChangeCipherSpec is due nothing else is waited for. */
  lemma {:induction false} ClientCcsWaits(p: Params, moves: seq<Move>)
    ensures var c := ClientRun(p, moves);
      c.state == ProcessServerCcs ==> c.wait in {ReadCcs, Proceed, Error}
  {
    hide CDo;
    if moves != [] {
      var before, m := moves[..|moves| - 1], moves[|moves| - 1];
      ClientCcsWaits(p, before);
      var c := ClientRun(p, before);
      if m.Turn? && c.state != ClientDone {
        ClientCcsTurn(p, c, m.env);
      }
    }
  }

  lemma ClientCcsTurn(p: Params, c: Client, env: Env)
    requires c.state != ClientDone
    ensures CDo(p, c, env).state == ProcessServerCcs ==> CDo(p, c, env).wait in {ReadCcs, Error}
  {
    hide ClientStep;
  }

  lemma {:induction false} ServerCcsWaits(p: Params, moves: seq<Move>)
    ensures var s := ServerRun(p, moves);
      s.state == ProcessClientCcs ==> s.wait in {ReadCcs, Proceed, Error}
  {
    hide SDo;
    if moves != [] {
      var before, m := moves[..|moves| - 1], moves[|moves| - 1];
      ServerCcsWaits(p, before);
      var s := ServerRun(p, before);
      if m.Turn? && s.state != ServerDone {
        ServerCcsTurn(p, s, m.env);
      }
    }
  }

  lemma ServerCcsTurn(p: Params, s: Server, env: Env)
    requires s.state != ServerDone
    ensures SDo(p, s, env).state == ProcessClientCcs ==> SDo(p, s, env).wait in {ReadCcs, Error}
  {
    hide ServerStep;
  }

  lemma {:induction false} ClientStaysStuck(p: Params, moves: seq<Move>, more: seq<Move>)
    requires ClientStuck(ClientRun(p, moves))
    ensures ClientStuck(ClientRun(p, moves + more))
  {
    hide ClientRun, ClientStep;
    if more == [] {
      assert moves + more == moves;
    } else {
      var init, m := more[..|more| - 1], more[|more| - 1];
      ClientStaysStuck(p, moves, init);
      assert moves + more == moves + init + [m];
      ClientRunOneMore(p, moves + init, m);
    }
  }

  lemma {:induction false} ServerStaysStuck(p: Params, moves: seq<Move>, more: seq<Move>)
    requires ServerStuck(ServerRun(p, moves))
    ensures ServerStuck(ServerRun(p, moves + more))
  {
    hide ServerRun, ServerStep;
    if more == [] {
      assert moves + more == moves;
    } else {
      var init, m := more[..|more| - 1], more[|more| - 1];
      ServerStaysStuck(p, moves, init);
      assert moves + more == moves + init + [m];
      ServerRunOneMore(p, moves + init, m);
    }
  }

  /**
   A client that still holds data when the ChangeCipherSpec is due, because the peer packed a later
   message or part of one behind the message before, never gets past the key switch, whatever
   happens next; and the attempt to switch is an error.
   */
  lemma LeftoverNeverPasses(p: Params, moves: seq<Move>, more: seq<Move>, env: Env)
    requires ClientRun(p, moves).state == ProcessServerCcs && ClientRun(p, moves).Leftover()
    ensures ClientRun(p, moves + more).state == ProcessServerCcs
    ensures ClientRun(p, moves + [OpenCcs, Turn(env)]).wait == Error
  {
    hide ClientRun, ClientStep;
    ClientCcsWaits(p, moves);
    ClientStaysStuck(p, moves, more);
    ClientRunOneMore(p, moves, OpenCcs);
    ClientRunOneMore(p, moves + [OpenCcs], Turn(env));
    assert moves + [OpenCcs, Turn(env)] == moves + [OpenCcs] + [Turn(env)];
  }

  lemma ServerLeftoverNeverPasses(p: Params, moves: seq<Move>, more: seq<Move>, env: Env)
    requires ServerRun(p, moves).state == ProcessClientCcs && ServerRun(p, moves).Leftover()
    ensures ServerRun(p, moves + more).state == ProcessClientCcs
    ensures ServerRun(p, moves + [OpenCcs, Turn(env)]).wait == Error
  {
    hide ServerRun, ServerStep;
    ServerCcsWaits(p, moves);
    ServerStaysStuck(p, moves, more);
    ServerRunOneMore(p, moves, OpenCcs);
    ServerRunOneMore(p, moves + [OpenCcs], Turn(env));
    assert moves + [OpenCcs, Turn(env)] == moves + [OpenCcs] + [Turn(env)];
  }

  /** So a server that packs anything behind its NewSessionTicket into one record never sees the client done. */
  lemma CoalescedTicketFails(p: Params, moves: seq<Move>, ticket: Msg, extra: seq<Msg>, begun: bool, env: Env,
                             more: seq<Move>)
    requires p.ticket && ClientRun(p, moves).state == ReadSessionTicket && ClientRun(p, moves).wait == ReadMessage
    requires ClientRun(p, moves).io.hsBuf == []
    requires ticket.kind == NewSessionTicket && env.bodyOk && (extra != [] || begun)
    ensures var after := moves + [Receive([ticket] + extra, begun), Turn(env)];
      && ClientRun(p, after).state == ProcessServerCcs
      && ClientRun(p, after + more).state == ProcessServerCcs
      && ClientRun(p, after + [OpenCcs, Turn(env)]).wait == Error
  {
    hide ClientRun, ClientStep;
    var m := Receive([ticket] + extra, begun);
    var after := moves + [m, Turn(env)];
    ClientRunOneMore(p, moves, m);
    ClientRunOneMore(p, moves + [m], Turn(env));
    assert after == moves + [m] + [Turn(env)];
    var buf := [ticket] + extra;
    assert ClientRun(p, moves + [m]).io.hsBuf == buf && buf[1..] == extra;
    LeftoverNeverPasses(p, after, more, env);
  }

  // =====================================================================
  // At the end
  // =====================================================================

  /**
   A client that is done, whatever the peer did: it has hashed the messages of an honest handshake
   in order, and the server's Finished it accepted has the right MAC over what came before it.
   */
  lemma ClientDoneInOrder(p: Params, moves: seq<Move>) returns (ch: ServerChoice)
    requires (p.statusExpected ==> p.certAuth) && ClientRun(p, moves).state == ClientDone
    ensures var c := ClientRun(p, moves);
      && Kinds(c.io.transcript) == KindsTo(ByChoice(p, ch), Size(p))
      && (!p.resumed && p.skeRequired ==> ch.ske) && (ch.status ==> p.statusExpected)
      && c.did.got.Some? && FinishedAfter(p, c.io.transcript, c.did.got.value.over, true)
      && c.did.sent.Some? && FinishedAfter(p, c.io.transcript, c.did.sent.value.over, false)
  {
    hide ClientRun, Kinds, KindsTo, FinishedAfter;
    ch := ClientHashesInOrder(p, moves);
    ClientRunGenuine(p, moves);
    ClientDoneIsSafe(p, moves);
  }

  /** The same of the server, for a client with a certificate or without. */
  lemma ServerDoneInOrder(p: Params, moves: seq<Move>) returns (cert: bool)
    requires ServerRun(p, moves).state == ServerDone
    ensures var s := ServerRun(p, moves);
      && Kinds(s.io.transcript) == KindsTo(ByCert(p, cert), Size(p))
      && (!p.resumed && p.certRequest && p.requireClientCert ==> cert)
      && s.did.got.Some? && FinishedAfter(p, s.io.transcript, s.did.got.value.over, false)
      && s.did.sent.Some? && FinishedAfter(p, s.io.transcript, s.did.sent.value.over, true)
  {
    hide ServerRun, Kinds, KindsTo, FinishedAfter;
    cert := ServerHashesInOrder(p, moves);
    ServerRunGenuine(p, moves);
    ServerDoneIsSafe(p, moves);
  }
}
