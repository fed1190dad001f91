/**
 The TLS 1.2 handshake state machines (handshake_client.cc, handshake_server.cc, handshake.cc):
 what each state does, and what holds of one side alone whatever the peer sends.
 */
module TlsHandshake {
  import opened Bytes

  datatype Kind =
    | ClientHello | ServerHello | Certificate | CertificateStatus | ServerKeyExchange | CertificateRequest
    | ServerHelloDone | ClientKeyExchange | CertificateVerify | NewSessionTicket | NextProto | ChannelId | Finished

  datatype Msg = Msg(kind: Kind, body: seq<byte>)

  /** What travels in records: handshake messages and ChangeCipherSpecs. */
  datatype Item = Hs(msg: Msg) | Ccs

  /**
   What the hellos negotiate, and the contents of messages: `body` of everything but Finished,
   `mac` of a Finished over a transcript. The boolean says whether the server sends.
   */
  datatype Params = Params(
    resumed: bool, certAuth: bool, statusExpected: bool, statusSent: bool, skeRequired: bool, skeSent: bool,
    certRequest: bool, clientCert: bool, requireClientCert: bool, ticket: bool, npn: bool, channelId: bool,
    body: (Kind, bool) -> seq<byte>,
    mac: (seq<Msg>, bool) -> seq<byte>)
  {
    /** How the bits hang together on an honest connection. */
    ghost predicate Consistent() {
      && (statusSent ==> statusExpected && certAuth)
      && (skeRequired ==> skeSent)
      && (certRequest ==> certAuth)
      && (requireClientCert ==> clientCert)
      && body(Certificate, false) != []
    }
  }

  datatype Wait = Proceed | Error | ReadMessage | ReadCcs | Flush | VerifyRetry | Lookup | EarlyReturn

  datatype Verdict = Good | Bad | Retry

  /**
   What the outside decides in a step: parsing and signatures, the peer's certificate, False Start, and
   whether a callback (certificate, session, private key, channel ID) needs more time.
   */
  datatype Env = Env(bodyOk: bool, verdict: Verdict, falseStart: bool, pause: bool)

  const FAIR := Env(true, Good, false, false)

  /** Something done over the transcript of the moment, and whether its condition held at that moment. */
  datatype Deed = Deed(over: seq<Msg>, safe: bool)

  /** What a side did: key switches, the certificate it accepted, its master secret, Finished sent and checked. */
  datatype Deeds = Deeds(
    readKeys: bool, writeKeys: bool, certOk: bool, secret: Option<Deed>, sent: Option<Deed>, got: Option<Deed>)
  {
    /** Everything was done under its condition. */
    ghost predicate Safe() {
      && (secret.Some? ==> secret.value.safe)
      && (sent.Some? ==> sent.value.safe)
      && (got.Some? ==> got.value.safe)
    }
  }

  const NO_DEEDS := Deeds(false, false, false, None, None, None)

  /** The messages a side hashed, holds unread, and has yet to flush. */
  datatype Io = Io(transcript: seq<Msg>, hsBuf: seq<Msg>, outbox: seq<Item>) {

    /** The message in the buffer is hashed and taken out. */
    function Take(): Io
      requires hsBuf != []
    {
      Io(transcript + [hsBuf[0]], hsBuf[1..], outbox)
    }

    function Send(m: Msg): Io { Io(transcript + [m], hsBuf, outbox + [Hs(m)]) }

    function SendIf(b: bool, m: Msg): Io { if b then Send(m) else this }

    function SendCcs(): Io { Io(transcript, hsBuf, outbox + [Ccs]) }
  }

  const NO_IO := Io([], [], [])

  /**
   One side. `asked` is hs->cert_request on the client and hs->peer_pubkey on the server; `begun`
   says that the buffer ends in a message that is not complete yet.
   */
  datatype Side<S> = Side(state: S, wait: Wait, io: Io, asked: bool, begun: bool, did: Deeds) {

    function Go(next: S): Side<S> { Side(next, Proceed, io, asked, begun, did) }

    function Stop(w: Wait): Side<S> { Side(state, w, io, asked, begun, did) }

    function With(io': Io): Side<S> { Side(state, wait, io', asked, begun, did) }

    function Did(did': Deeds): Side<S> { Side(state, wait, io, asked, begun, did') }

    /** The peer sent more than the message being read, and the keys it was sent under end here. */
    predicate Leftover() { io.hsBuf != [] || begun }
  }

  function Fresh<S>(start: S): Side<S> {
    Side(start, Proceed, NO_IO, false, false, NO_DEEDS)
  }

  // =====================================================================
  // The client
  // =====================================================================

  datatype CState =
    | StartConnect | EnterEarlyData | ReadServerHello | ReadServerCertificate | ReadCertificateStatus
    | VerifyServerCertificate | ReadServerKeyExchange | ReadCertificateRequest | ReadServerHelloDone
    | SendClientCertificate | SendClientKeyExchange | SendClientCertificateVerify | SendClientFinished
    | FinishFlight | ReadSessionTicket | ProcessServerCcs | ReadServerFinished | FinishClient | ClientDone

  type Client = Side<CState>

  /** Reading a message of one kind: wait for it, refuse another, or take it and go on. */
  function Expect<S>(s: Side<S>, kind: Kind, env: Env, next: S): Side<S> {
    if s.io.hsBuf == [] then s.Stop(ReadMessage)
    else if s.io.hsBuf[0].kind != kind || !env.bodyOk then s.Stop(Error)
    else s.With(s.io.Take()).Go(next)
  }

  /** ssl_get_finished: the MAC is over the transcript before the Finished itself. */
  function ExpectFinished<S>(p: Params, s: Side<S>, fromServer: bool, next: S): Side<S> {
    if s.io.hsBuf == [] then s.Stop(ReadMessage)
    else if s.io.hsBuf[0] != Msg(Finished, p.mac(s.io.transcript, fromServer)) then s.Stop(Error)
    else s.Did(s.did.(got := Some(Deed(s.io.transcript, s.did.readKeys)))).With(s.io.Take()).Go(next)
  }

  /** ssl_send_finished. */
  function SendFinished<S>(p: Params, s: Side<S>, fromServer: bool): Side<S> {
    s.Did(s.did.(sent := Some(Deed(s.io.transcript, s.did.writeKeys))))
     .With(s.io.Send(Msg(Finished, p.mac(s.io.transcript, fromServer))))
  }

  /** tls1_change_cipher_state for reading, which nothing left in the buffer may survive. */
  function SwitchRead<S>(s: Side<S>, next: S): Side<S> {
    if s.Leftover() then s.Stop(Error) else s.Did(s.did.(readKeys := true)).Go(next)
  }

  /** A ChangeCipherSpec goes out, and everything after it under the new keys. */
  function SwitchWrite<S>(s: Side<S>): Side<S> {
    s.Did(s.did.(writeKeys := true)).With(s.io.SendCcs())
  }

  function Verify<S>(s: Side<S>, env: Env, next: S): Side<S> {
    match env.verdict
    case Good => s.Did(s.did.(certOk := true)).Go(next)
    case Bad => s.Stop(Error)
    case Retry => s.Stop(VerifyRetry)
  }

  /** How far a state is from the end. The order is not that of the enum: resumption visits it differently. */
  function CRank(resumed: bool, state: CState): nat {
    if resumed then
      match state
      case StartConnect => 9
      case EnterEarlyData => 8
      case ReadServerHello => 7
      case ReadSessionTicket => 6
      case ProcessServerCcs => 5
      case ReadServerFinished => 4
      case SendClientFinished => 3
      case FinishFlight => 2
      case FinishClient => 1
      case ClientDone => 0
      case _ => 10 + FullRank(state)
    else FullRank(state)
  }

  function FullRank(state: CState): nat {
    match state
    case StartConnect => 18
    case EnterEarlyData => 17
    case ReadServerHello => 16
    case ReadServerCertificate => 15
    case ReadCertificateStatus => 14
    case VerifyServerCertificate => 13
    case ReadServerKeyExchange => 12
    case ReadCertificateRequest => 11
    case ReadServerHelloDone => 10
    case SendClientCertificate => 9
    case SendClientKeyExchange => 8
    case SendClientCertificateVerify => 7
    case SendClientFinished => 6
    case FinishFlight => 5
    case ReadSessionTicket => 4
    case ProcessServerCcs => 3
    case ReadServerFinished => 2
    case FinishClient => 1
    case ClientDone => 0
  }

  /** What has certainly happened when the client is in a state. */
  ghost predicate ClientKnows(p: Params, s: Client) {
    && s.did.Safe()
    && ClientFacts(p.resumed, s.state, s.did.readKeys, !p.certAuth || s.did.certOk, s.did.secret.Some?,
                   s.did.sent.Some?, s.did.got.Some?)
  }

  predicate ClientFacts(resumed: bool, state: CState, keys: bool, cert: bool, secret: bool, sent: bool, got: bool) {
    if resumed then
      match state
      case StartConnect => true
      case EnterEarlyData => true
      case ReadServerHello => true
      case ReadSessionTicket => true
      case ProcessServerCcs => true
      case ReadServerFinished => keys
      case SendClientFinished => got
      case FinishFlight => got && sent
      case FinishClient => got && sent
      case ClientDone => got && sent
      case _ => false
    else
      match state
      case ReadServerKeyExchange => cert
      case ReadCertificateRequest => cert
      case ReadServerHelloDone => cert
      case SendClientCertificate => cert
      case SendClientKeyExchange => cert
      case SendClientCertificateVerify => cert && secret
      case SendClientFinished => cert && secret
      case FinishFlight => cert && secret && sent
      case ReadSessionTicket => cert && secret && sent
      case ProcessServerCcs => cert && secret && sent
      case ReadServerFinished => cert && secret && sent && keys
      case FinishClient => cert && secret && sent && got
      case ClientDone => cert && secret && sent && got
      case _ => true
  }

  /** A step that stays where it is: it failed, or waits for an answer or for a message it has not got. */
  ghost predicate Stays<S>(s: Side<S>, r: Side<S>) {
    && r.io == s.io
    && (r.wait == Error || r.wait == VerifyRetry || r.wait == Lookup || (r.wait == ReadMessage && s.io.hsBuf == []))
  }

  /**
   What holds of every step: it keeps what is known, every change of state comes nearer to the end,
   and going on without waiting is a change of state.
   */
  ghost predicate ClientStep(p: Params, s: Client, r: Client) {
    && (ClientKnows(p, s) ==> ClientKnows(p, r))
    && (r.state != s.state ==> CRank(p.resumed, r.state) < CRank(p.resumed, s.state))
    && (r.wait == Proceed ==> r.state != s.state)
    && (r.state == s.state ==> Stays(s, r))
    && (r.wait == ReadMessage ==> r.io.hsBuf == [])
    && (r.state == ClientDone ==> r.wait == Proceed)
  }

  // ----- the do_* functions of the client

  function DoStartConnect(p: Params, s: Client, env: Env): (r: Client)
    requires s.state == StartConnect
    ensures ClientStep(p, s, r)
  {
    s.With(s.io.Send(Msg(ClientHello, p.body(ClientHello, false)))).Go(EnterEarlyData).Stop(Flush)
  }

  function DoEnterEarlyData(p: Params, s: Client, env: Env): (r: Client)
    requires s.state == EnterEarlyData
    ensures ClientStep(p, s, r)
  {
    s.Go(ReadServerHello)
  }

  function DoReadServerHello(p: Params, s: Client, env: Env): (r: Client)
    requires s.state == ReadServerHello
    ensures ClientStep(p, s, r)
  {
    Expect(s, ServerHello, env, if p.resumed then ReadSessionTicket else ReadServerCertificate)
  }

  function DoReadServerCertificate(p: Params, s: Client, env: Env): (r: Client)
    requires s.state == ReadServerCertificate
    ensures ClientStep(p, s, r)
  {
    if !p.certAuth then s.Go(ReadCertificateStatus) else Expect(s, Certificate, env, ReadCertificateStatus)
  }

  function DoReadCertificateStatus(p: Params, s: Client, env: Env): (r: Client)
    requires s.state == ReadCertificateStatus
    ensures ClientStep(p, s, r)
  {
    if !p.statusExpected then s.Go(VerifyServerCertificate)
    else if s.io.hsBuf == [] then s.Stop(ReadMessage)
    // A server may change its mind about sending CertificateStatus.
    else if s.io.hsBuf[0].kind != CertificateStatus then s.Go(VerifyServerCertificate)
    else Expect(s, CertificateStatus, env, VerifyServerCertificate)
  }

  function DoVerifyServerCertificate(p: Params, s: Client, env: Env): (r: Client)
    requires s.state == VerifyServerCertificate
    ensures ClientStep(p, s, r)
  {
    if !p.certAuth then s.Go(ReadServerKeyExchange) else Verify(s, env, ReadServerKeyExchange)
  }

  function DoReadServerKeyExchange(p: Params, s: Client, env: Env): (r: Client)
    requires s.state == ReadServerKeyExchange
    ensures ClientStep(p, s, r)
  {
    if s.io.hsBuf == [] then s.Stop(ReadMessage)
    else if s.io.hsBuf[0].kind != ServerKeyExchange then
      if p.skeRequired then s.Stop(Error) else s.Go(ReadCertificateRequest)
    else Expect(s, ServerKeyExchange, env, ReadCertificateRequest)
  }

  function DoReadCertificateRequest(p: Params, s: Client, env: Env): (r: Client)
    requires s.state == ReadCertificateRequest
    ensures ClientStep(p, s, r)
  {
    if !p.certAuth then s.Go(ReadServerHelloDone)
    else if s.io.hsBuf == [] then s.Stop(ReadMessage)
    else if s.io.hsBuf[0].kind == ServerHelloDone then s.Go(ReadServerHelloDone)
    else
      var r := Expect(s, CertificateRequest, env, ReadServerHelloDone);
      if r.wait == Error then r else Side(r.state, r.wait, r.io, true, r.begun, r.did)
  }

  function DoReadServerHelloDone(p: Params, s: Client, env: Env): (r: Client)
    requires s.state == ReadServerHelloDone
    ensures ClientStep(p, s, r)
  {
    Expect(s, ServerHelloDone, env, SendClientCertificate)
  }

  function DoSendClientCertificate(p: Params, s: Client, env: Env): (r: Client)
    requires s.state == SendClientCertificate
    ensures ClientStep(p, s, r)
  {
    var cert := Msg(Certificate, if p.clientCert then p.body(Certificate, false) else []);
    if s.asked && env.pause then s.Stop(Lookup)
    else s.With(s.io.SendIf(s.asked, cert)).Go(SendClientKeyExchange)
  }

  function DoSendClientKeyExchange(p: Params, s: Client, env: Env): (r: Client)
    requires s.state == SendClientKeyExchange
    ensures ClientStep(p, s, r)
  {
    var io := s.io.Send(Msg(ClientKeyExchange, p.body(ClientKeyExchange, false)));
    s.With(io).Did(s.did.(secret := Some(Deed(io.transcript, !p.certAuth || s.did.certOk))))
     .Go(SendClientCertificateVerify)
  }

  function DoSendClientCertificateVerify(p: Params, s: Client, env: Env): (r: Client)
    requires s.state == SendClientCertificateVerify
    ensures ClientStep(p, s, r)
  {
    var verify := Msg(CertificateVerify, p.body(CertificateVerify, false));
    if s.asked && p.clientCert && env.pause then s.Stop(Lookup)
    else s.With(s.io.SendIf(s.asked && p.clientCert, verify)).Go(SendClientFinished)
  }

  function DoSendClientFinished(p: Params, s: Client, env: Env): (r: Client)
    requires s.state == SendClientFinished
    ensures ClientStep(p, s, r)
  {
    var c := SwitchWrite(s);
    var t := c.With(c.io.SendIf(p.npn, Msg(NextProto, p.body(NextProto, false)))
                        .SendIf(p.channelId, Msg(ChannelId, p.body(ChannelId, false))));
    if p.channelId && env.pause then s.Stop(Lookup) else SendFinished(p, t, false).Go(FinishFlight).Stop(Flush)
  }

  function DoFinishFlight(p: Params, s: Client, env: Env): (r: Client)
    requires s.state == FinishFlight
    ensures ClientStep(p, s, r)
  {
    if p.resumed then s.Go(FinishClient)
    else if env.falseStart then s.Go(ReadSessionTicket).Stop(EarlyReturn)
    else s.Go(ReadSessionTicket)
  }

  function DoReadSessionTicket(p: Params, s: Client, env: Env): (r: Client)
    requires s.state == ReadSessionTicket
    ensures ClientStep(p, s, r)
  {
    if !p.ticket then s.Go(ProcessServerCcs).Stop(ReadCcs)
    else
      var r := Expect(s, NewSessionTicket, env, ProcessServerCcs);
      if r.wait == Proceed then r.Stop(ReadCcs) else r
  }

  function DoProcessServerCcs(p: Params, s: Client, env: Env): (r: Client)
    requires s.state == ProcessServerCcs
    ensures ClientStep(p, s, r)
  {
    SwitchRead(s, ReadServerFinished)
  }

  function DoReadServerFinished(p: Params, s: Client, env: Env): (r: Client)
    requires s.state == ReadServerFinished
    ensures ClientStep(p, s, r)
  {
    ExpectFinished(p, s, true, if p.resumed then SendClientFinished else FinishClient)
  }

  function DoFinishClient(p: Params, s: Client, env: Env): (r: Client)
    requires s.state == FinishClient
    ensures ClientStep(p, s, r)
  {
    s.Go(ClientDone)
  }

  /** One turn of the loop of ssl_client_handshake. */
  function CDo(p: Params, s: Client, env: Env): (r: Client)
    requires s.state != ClientDone
    ensures ClientStep(p, s, r)
  {
    match s.state
    case StartConnect => DoStartConnect(p, s, env)
    case EnterEarlyData => DoEnterEarlyData(p, s, env)
    case ReadServerHello => DoReadServerHello(p, s, env)
    case ReadServerCertificate => DoReadServerCertificate(p, s, env)
    case ReadCertificateStatus => DoReadCertificateStatus(p, s, env)
    case VerifyServerCertificate => DoVerifyServerCertificate(p, s, env)
    case ReadServerKeyExchange => DoReadServerKeyExchange(p, s, env)
    case ReadCertificateRequest => DoReadCertificateRequest(p, s, env)
    case ReadServerHelloDone => DoReadServerHelloDone(p, s, env)
    case SendClientCertificate => DoSendClientCertificate(p, s, env)
    case SendClientKeyExchange => DoSendClientKeyExchange(p, s, env)
    case SendClientCertificateVerify => DoSendClientCertificateVerify(p, s, env)
    case SendClientFinished => DoSendClientFinished(p, s, env)
    case FinishFlight => DoFinishFlight(p, s, env)
    case ReadSessionTicket => DoReadSessionTicket(p, s, env)
    case ProcessServerCcs => DoProcessServerCcs(p, s, env)
    case ReadServerFinished => DoReadServerFinished(p, s, env)
    case FinishClient => DoFinishClient(p, s, env)
  }

  // =====================================================================
  // The server
  // =====================================================================

  datatype SState =
    | StartAccept | ReadClientHello | SelectCertificate | SelectParameters | SendServerHello | SendServerCertificate
    | SendServerKeyExchange | SendServerHelloDone | ReadClientCertificate | VerifyClientCertificate
    | ReadClientKeyExchange | ReadClientCertificateVerify | ReadClientCcs | ProcessClientCcs | ReadNextProto
    | ReadChannelId | ReadClientFinished | SendServerFinished | FinishServer | ServerDone

  type Server = Side<SState>

  function SRank(resumed: bool, state: SState): nat {
    if resumed then
      match state
      case StartAccept => 12
      case ReadClientHello => 11
      case SelectCertificate => 10
      case SelectParameters => 9
      case SendServerHello => 8
      case SendServerFinished => 7
      case ReadClientCcs => 6
      case ProcessClientCcs => 5
      case ReadNextProto => 4
      case ReadChannelId => 3
      case ReadClientFinished => 2
      case FinishServer => 1
      case ServerDone => 0
      case _ => 20 + FullSRank(state)
    else FullSRank(state)
  }

  function FullSRank(state: SState): nat {
    match state
    case StartAccept => 19
    case ReadClientHello => 18
    case SelectCertificate => 17
    case SelectParameters => 16
    case SendServerHello => 15
    case SendServerCertificate => 14
    case SendServerKeyExchange => 13
    case SendServerHelloDone => 12
    case ReadClientCertificate => 11
    case VerifyClientCertificate => 10
    case ReadClientKeyExchange => 9
    case ReadClientCertificateVerify => 8
    case ReadClientCcs => 7
    case ProcessClientCcs => 6
    case ReadNextProto => 5
    case ReadChannelId => 4
    case ReadClientFinished => 3
    case SendServerFinished => 2
    case FinishServer => 1
    case ServerDone => 0
  }

  /** What has certainly happened when the server is in a state. */
  ghost predicate ServerKnows(p: Params, s: Server) {
    && s.did.Safe()
    && ServerFacts(p.resumed, s.state, s.did.readKeys, s.asked, !s.asked || s.did.certOk, s.did.secret.Some?,
                   s.did.sent.Some?, s.did.got.Some?)
  }

  predicate ServerFacts(resumed: bool, state: SState, keys: bool, asked: bool, cert: bool, secret: bool, sent: bool,
                        got: bool)
  {
    if resumed then
      match state
      case StartAccept => true
      case ReadClientHello => true
      case SelectCertificate => true
      case SelectParameters => true
      case SendServerHello => true
      case SendServerFinished => true
      case ReadClientCcs => sent
      case ProcessClientCcs => sent
      case ReadNextProto => sent && keys
      case ReadChannelId => sent && keys
      case ReadClientFinished => sent && keys
      case FinishServer => sent && got
      case ServerDone => sent && got
      case _ => false
    else
      match state
      case VerifyClientCertificate => true
      case ReadClientKeyExchange => cert
      case ReadClientCertificateVerify => cert && secret
      case ReadClientCcs => cert && secret
      case ProcessClientCcs => cert && secret
      case ReadNextProto => cert && secret && keys
      case ReadChannelId => cert && secret && keys
      case ReadClientFinished => cert && secret && keys
      case SendServerFinished => cert && secret && got
      case FinishServer => cert && secret && got && sent
      case ServerDone => cert && secret && got && sent
      case _ => !asked
  }

  ghost predicate ServerStep(p: Params, s: Server, r: Server) {
    && (ServerKnows(p, s) ==> ServerKnows(p, r))
    && (r.state != s.state ==> SRank(p.resumed, r.state) < SRank(p.resumed, s.state))
    && (r.wait == Proceed ==> r.state != s.state)
    && (r.state == s.state ==> Stays(s, r))
    && (r.wait == ReadMessage ==> r.io.hsBuf == [])
    && (r.state == ServerDone ==> r.wait == Proceed)
  }

  // ----- the do_* functions of the server

  function DoStartAccept(p: Params, s: Server, env: Env): (r: Server)
    requires s.state == StartAccept
    ensures ServerStep(p, s, r)
  {
    s.Go(ReadClientHello)
  }

  function DoReadClientHello(p: Params, s: Server, env: Env): (r: Server)
    requires s.state == ReadClientHello
    ensures ServerStep(p, s, r)
  {
    // The ClientHello stays in the buffer until the parameters are selected.
    if s.io.hsBuf == [] then s.Stop(ReadMessage)
    else if s.io.hsBuf[0].kind != ClientHello || !env.bodyOk then s.Stop(Error)
    else if env.pause then s.Stop(Lookup)
    else s.Go(SelectCertificate)
  }

  function DoSelectCertificate(p: Params, s: Server, env: Env): (r: Server)
    requires s.state == SelectCertificate
    ensures ServerStep(p, s, r)
  {
    if s.io.hsBuf == [] then s.Stop(ReadMessage)
    else if env.pause then s.Stop(Lookup)
    else if !env.bodyOk then s.Stop(Error) else s.Go(SelectParameters)
  }

  function DoSelectParameters(p: Params, s: Server, env: Env): (r: Server)
    requires s.state == SelectParameters
    ensures ServerStep(p, s, r)
  {
    if s.io.hsBuf == [] then s.Stop(ReadMessage)
    else if env.pause then s.Stop(Lookup)
    else if !env.bodyOk then s.Stop(Error) else s.With(s.io.Take()).Go(SendServerHello)
  }

  function DoSendServerHello(p: Params, s: Server, env: Env): (r: Server)
    requires s.state == SendServerHello
    ensures ServerStep(p, s, r)
  {
    s.With(s.io.Send(Msg(ServerHello, p.body(ServerHello, true))))
     .Go(if p.resumed then SendServerFinished else SendServerCertificate)
  }

  function DoSendServerCertificate(p: Params, s: Server, env: Env): (r: Server)
    requires s.state == SendServerCertificate
    ensures ServerStep(p, s, r)
  {
    s.With(s.io.SendIf(p.certAuth, Msg(Certificate, p.body(Certificate, true)))
               .SendIf(p.certAuth && p.statusSent, Msg(CertificateStatus, p.body(CertificateStatus, true))))
     .Go(SendServerKeyExchange)
  }

  function DoSendServerKeyExchange(p: Params, s: Server, env: Env): (r: Server)
    requires s.state == SendServerKeyExchange
    ensures ServerStep(p, s, r)
  {
    if p.skeSent && env.pause then s.Stop(Lookup)
    else s.With(s.io.SendIf(p.skeSent, Msg(ServerKeyExchange, p.body(ServerKeyExchange, true)))).Go(SendServerHelloDone)
  }

  function DoSendServerHelloDone(p: Params, s: Server, env: Env): (r: Server)
    requires s.state == SendServerHelloDone
    ensures ServerStep(p, s, r)
  {
    s.With(s.io.SendIf(p.certRequest, Msg(CertificateRequest, p.body(CertificateRequest, true)))
               .Send(Msg(ServerHelloDone, p.body(ServerHelloDone, true))))
     .Go(ReadClientCertificate).Stop(Flush)
  }

  function DoReadClientCertificate(p: Params, s: Server, env: Env): (r: Server)
    requires s.state == ReadClientCertificate
    ensures ServerStep(p, s, r)
  {
    if !p.certRequest then s.Go(VerifyClientCertificate)
    else
      var r := Expect(s, Certificate, env, VerifyClientCertificate);
      if r.wait != Proceed then r
      else if s.io.hsBuf[0].body == [] && p.requireClientCert then s.Stop(Error)
      else Side(r.state, r.wait, r.io, s.io.hsBuf[0].body != [], r.begun, r.did)
  }

  function DoVerifyClientCertificate(p: Params, s: Server, env: Env): (r: Server)
    requires s.state == VerifyClientCertificate
    ensures ServerStep(p, s, r)
  {
    if !s.asked then s.Go(ReadClientKeyExchange) else Verify(s, env, ReadClientKeyExchange)
  }

  function DoReadClientKeyExchange(p: Params, s: Server, env: Env): (r: Server)
    requires s.state == ReadClientKeyExchange
    ensures ServerStep(p, s, r)
  {
    var r := Expect(s, ClientKeyExchange, env, ReadClientCertificateVerify);
    if r.wait != Proceed then r
    else if env.pause then s.Stop(Lookup)
    else r.Did(r.did.(secret := Some(Deed(r.io.transcript, !s.asked || s.did.certOk))))
  }

  function DoReadClientCertificateVerify(p: Params, s: Server, env: Env): (r: Server)
    requires s.state == ReadClientCertificateVerify
    ensures ServerStep(p, s, r)
  {
    if !s.asked then s.Go(ReadClientCcs) else Expect(s, CertificateVerify, env, ReadClientCcs)
  }

  function DoReadClientCcs(p: Params, s: Server, env: Env): (r: Server)
    requires s.state == ReadClientCcs
    ensures ServerStep(p, s, r)
  {
    s.Go(ProcessClientCcs).Stop(ReadCcs)
  }

  function DoProcessClientCcs(p: Params, s: Server, env: Env): (r: Server)
    requires s.state == ProcessClientCcs
    ensures ServerStep(p, s, r)
  {
    SwitchRead(s, ReadNextProto)
  }

  function DoReadNextProto(p: Params, s: Server, env: Env): (r: Server)
    requires s.state == ReadNextProto
    ensures ServerStep(p, s, r)
  {
    if !p.npn then s.Go(ReadChannelId) else Expect(s, NextProto, env, ReadChannelId)
  }

  function DoReadChannelId(p: Params, s: Server, env: Env): (r: Server)
    requires s.state == ReadChannelId
    ensures ServerStep(p, s, r)
  {
    if !p.channelId then s.Go(ReadClientFinished) else Expect(s, ChannelId, env, ReadClientFinished)
  }

  function DoReadClientFinished(p: Params, s: Server, env: Env): (r: Server)
    requires s.state == ReadClientFinished
    ensures ServerStep(p, s, r)
  {
    ExpectFinished(p, s, false, if p.resumed then FinishServer else SendServerFinished)
  }

  function DoSendServerFinished(p: Params, s: Server, env: Env): (r: Server)
    requires s.state == SendServerFinished
    ensures ServerStep(p, s, r)
  {
    var t := SwitchWrite(s.With(s.io.SendIf(p.ticket, Msg(NewSessionTicket, p.body(NewSessionTicket, true)))));
    SendFinished(p, t, true).Go(if p.resumed then ReadClientCcs else FinishServer).Stop(Flush)
  }

  function DoFinishServer(p: Params, s: Server, env: Env): (r: Server)
    requires s.state == FinishServer
    ensures ServerStep(p, s, r)
  {
    s.Go(ServerDone)
  }

  /** One turn of the loop of ssl_server_handshake. */
  function SDo(p: Params, s: Server, env: Env): (r: Server)
    requires s.state != ServerDone
    ensures ServerStep(p, s, r)
  {
    match s.state
    case StartAccept => DoStartAccept(p, s, env)
    case ReadClientHello => DoReadClientHello(p, s, env)
    case SelectCertificate => DoSelectCertificate(p, s, env)
    case SelectParameters => DoSelectParameters(p, s, env)
    case SendServerHello => DoSendServerHello(p, s, env)
    case SendServerCertificate => DoSendServerCertificate(p, s, env)
    case SendServerKeyExchange => DoSendServerKeyExchange(p, s, env)
    case SendServerHelloDone => DoSendServerHelloDone(p, s, env)
    case ReadClientCertificate => DoReadClientCertificate(p, s, env)
    case VerifyClientCertificate => DoVerifyClientCertificate(p, s, env)
    case ReadClientKeyExchange => DoReadClientKeyExchange(p, s, env)
    case ReadClientCertificateVerify => DoReadClientCertificateVerify(p, s, env)
    case ReadClientCcs => DoReadClientCcs(p, s, env)
    case ProcessClientCcs => DoProcessClientCcs(p, s, env)
    case ReadNextProto => DoReadNextProto(p, s, env)
    case ReadChannelId => DoReadChannelId(p, s, env)
    case ReadClientFinished => DoReadClientFinished(p, s, env)
    case SendServerFinished => DoSendServerFinished(p, s, env)
    case FinishServer => DoFinishServer(p, s, env)
  }

  // =====================================================================
  // Runs of one side against any peer
  // =====================================================================

  /**
   What can happen to a side: a turn of its machine, or the resolution of what it waits for. A
   handshake record completes any number of messages and may begin another.
   */
  datatype Move = Turn(env: Env) | Receive(msgs: seq<Msg>, begun: bool) | OpenCcs | Flushed | Resume

  function Resolve<S>(s: Side<S>, m: Move): Side<S>
    requires !m.Turn?
  {
    match m
    case Receive(msgs, begun) =>
      if s.wait != ReadMessage then s
      else Side(s.state, Proceed, Io(s.io.transcript, s.io.hsBuf + msgs, s.io.outbox), s.asked, begun, s.did)
    case OpenCcs => if s.wait == ReadCcs then s.Stop(Proceed) else s
    case Flushed => if s.wait == Flush then s.With(Io(s.io.transcript, s.io.hsBuf, [])).Stop(Proceed) else s
    case Resume => if s.wait == VerifyRetry || s.wait == Lookup || s.wait == EarlyReturn then s.Stop(Proceed) else s
  }

  function ClientRun(p: Params, moves: seq<Move>): Client {
    if moves == [] then Fresh(StartConnect)
    else
      var s, m := ClientRun(p, moves[..|moves| - 1]), moves[|moves| - 1];
      if !m.Turn? then Resolve(s, m)
      else if s.wait == Proceed && s.state != ClientDone then CDo(p, s, m.env)
      else s
  }

  function ServerRun(p: Params, moves: seq<Move>): Server {
    if moves == [] then Fresh(StartAccept)
    else
      var s, m := ServerRun(p, moves[..|moves| - 1]), moves[|moves| - 1];
      if !m.Turn? then Resolve(s, m)
      else if s.wait == Proceed && s.state != ServerDone then SDo(p, s, m.env)
      else s
  }

  lemma ClientRunOneMore(p: Params, moves: seq<Move>, m: Move)
    ensures var s := ClientRun(p, moves);
      ClientRun(p, moves + [m]) ==
        if !m.Turn? then Resolve(s, m)
        else if s.wait == Proceed && s.state != ClientDone then CDo(p, s, m.env) else s
  {
    hide CDo;
    assert (moves + [m])[..|moves|] == moves;
  }

  lemma ServerRunOneMore(p: Params, moves: seq<Move>, m: Move)
    ensures var s := ServerRun(p, moves);
      ServerRun(p, moves + [m]) ==
        if !m.Turn? then Resolve(s, m)
        else if s.wait == Proceed && s.state != ServerDone then SDo(p, s, m.env) else s
  {
    hide SDo;
    assert (moves + [m])[..|moves|] == moves;
  }

  lemma {:induction false} ClientRunKnows(p: Params, moves: seq<Move>)
    ensures ClientKnows(p, ClientRun(p, moves))
  {
    if moves != [] {
      ClientRunKnows(p, moves[..|moves| - 1]);
    }
  }

  lemma {:induction false} ServerRunKnows(p: Params, moves: seq<Move>)
    ensures ServerKnows(p, ServerRun(p, moves))
  {
    if moves != [] {
      ServerRunKnows(p, moves[..|moves| - 1]);
    }
  }

  /**
   Whatever the peer sends: a client that is done switched its read keys before checking the
   server's Finished and its write keys before sending its own; and in a full handshake with a
   certificate cipher it agreed on keys only after accepting the certificate.
   */
  lemma ClientDoneIsSafe(p: Params, moves: seq<Move>)
    requires ClientRun(p, moves).state == ClientDone
    ensures var did := ClientRun(p, moves).did;
      && did.got.Some? && did.got.value.safe
      && did.sent.Some? && did.sent.value.safe
      && (!p.resumed ==> did.secret.Some? && did.secret.value.safe && (p.certAuth ==> did.certOk))
  {
    ClientRunKnows(p, moves);
  }

  /** The same of the server; a client that authenticates itself is accepted before keys are agreed. */
  lemma ServerDoneIsSafe(p: Params, moves: seq<Move>)
    requires ServerRun(p, moves).state == ServerDone
    ensures var s := ServerRun(p, moves);
      && s.did.got.Some? && s.did.got.value.safe
      && s.did.sent.Some? && s.did.sent.value.safe
      && (!p.resumed ==> s.did.secret.Some? && s.did.secret.value.safe && (s.asked ==> s.did.certOk))
  {
    ServerRunKnows(p, moves);
  }
}
