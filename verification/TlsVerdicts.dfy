/**
 What one side made of what the outside answered, against any peer: certificates are accepted and
 messages taken only when they were found good, a side waits only for a reason, and a side that
 failed stays failed.
 */
module TlsVerdicts {
  import opened TlsHandshake

  // =====================================================================
  // Certificates
  // =====================================================================

  /** Move i is the client's turn on the server's certificate, and the answer was to accept it. */
  ghost predicate ClientAcceptsAt(p: Params, moves: seq<Move>, i: nat) {
    && i < |moves| && moves[i].Turn? && moves[i].env.verdict == Good
    && ClientRun(p, moves[..i]).state == VerifyServerCertificate && ClientRun(p, moves[..i]).wait == Proceed
  }

  ghost predicate ServerAcceptsAt(p: Params, moves: seq<Move>, i: nat) {
    && i < |moves| && moves[i].Turn? && moves[i].env.verdict == Good
    && ServerRun(p, moves[..i]).state == VerifyClientCertificate && ServerRun(p, moves[..i]).wait == Proceed
  }

  lemma ClientTurnAccepts(p: Params, c: Client, env: Env)
    requires c.state != ClientDone
    ensures CDo(p, c, env).did.certOk ==>
      c.did.certOk || (c.state == VerifyServerCertificate && env.verdict == Good)
  {
    hide ClientStep;
  }

  lemma ServerTurnAccepts(p: Params, s: Server, env: Env)
    requires s.state != ServerDone
    ensures SDo(p, s, env).did.certOk ==>
      s.did.certOk || (s.state == VerifyClientCertificate && env.verdict == Good)
  {
    hide ServerStep;
  }

  lemma {:induction false} ClientCertOk(p: Params, moves: seq<Move>)
    ensures ClientRun(p, moves).did.certOk ==> exists i: nat :: ClientAcceptsAt(p, moves, i)
  {
    hide CDo;
    if moves != [] && ClientRun(p, moves).did.certOk {
      var n := |moves| - 1;
      var before, m := moves[..n], moves[n];
      ClientCertOk(p, before);
      if ClientRun(p, before).did.certOk {
        var i: nat :| ClientAcceptsAt(p, before, i);
        assert before[..i] == moves[..i];
        assert ClientAcceptsAt(p, moves, i);
      } else {
        ClientTurnAccepts(p, ClientRun(p, before), m.env);
        assert ClientAcceptsAt(p, moves, n);
      }
    }
  }

  lemma {:induction false} ServerCertOk(p: Params, moves: seq<Move>)
    ensures ServerRun(p, moves).did.certOk ==> exists i: nat :: ServerAcceptsAt(p, moves, i)
  {
    hide SDo;
    if moves != [] && ServerRun(p, moves).did.certOk {
      var n := |moves| - 1;
      var before, m := moves[..n], moves[n];
      ServerCertOk(p, before);
      if ServerRun(p, before).did.certOk {
        var i: nat :| ServerAcceptsAt(p, before, i);
        assert before[..i] == moves[..i];
        assert ServerAcceptsAt(p, moves, i);
      } else {
        ServerTurnAccepts(p, ServerRun(p, before), m.env);
        assert ServerAcceptsAt(p, moves, n);
      }
    }
  }

  lemma ClientTurnAgrees(p: Params, c: Client, env: Env)
    requires c.state != ClientDone && ClientKnows(p, c)
    requires !p.resumed && p.certAuth
    ensures var r := CDo(p, c, env);
      r.did.secret.Some? && !r.did.certOk ==> c.did.secret.Some? && !c.did.certOk
  {
    hide ClientStep;
  }

  lemma {:induction false} ClientSecretIsLate(p: Params, moves: seq<Move>)
    requires !p.resumed && p.certAuth
    ensures ClientRun(p, moves).did.secret.Some? ==> ClientRun(p, moves).did.certOk
  {
    hide CDo, ClientKnows;
    if moves != [] {
      var before, m := moves[..|moves| - 1], moves[|moves| - 1];
      ClientRunKnows(p, before);
      var c := ClientRun(p, before);
      if m.Turn? && c.wait == Proceed && c.state != ClientDone {
        ClientTurnAgrees(p, c, m.env);
      }
      ClientSecretIsLate(p, before);
    }
  }

  /** Once there is a master secret, a client certificate that came was accepted, and none can come any more. */
  predicate ServerSettled(s: Server) {
    s.did.secret.Some? ==>
      SRank(false, s.state) < SRank(false, ReadClientKeyExchange) && (s.asked ==> s.did.certOk)
  }

  lemma ServerSecretTurn(p: Params, s: Server, env: Env)
    requires s.state != ServerDone
    ensures var r := SDo(p, s, env);
      r.did.secret != s.did.secret ==> s.state == ReadClientKeyExchange && r.state == ReadClientCertificateVerify
  {
    hide ServerStep;
  }

  lemma ServerAskedTurn(p: Params, s: Server, env: Env)
    requires s.state != ServerDone
    ensures var r := SDo(p, s, env);
      (r.asked != s.asked ==> s.state == ReadClientCertificate) && (s.did.certOk ==> r.did.certOk)
  {
    hide ServerStep;
  }

  lemma ServerTurnAgrees(p: Params, s: Server, env: Env)
    requires !p.resumed && s.state != ServerDone && ServerKnows(p, s) && ServerSettled(s)
    ensures ServerSettled(SDo(p, s, env))
  {
    hide SDo;
    ServerSecretTurn(p, s, env);
    ServerAskedTurn(p, s, env);
  }

  lemma {:induction false} ServerSecretIsLate(p: Params, moves: seq<Move>)
    requires !p.resumed
    ensures ServerSettled(ServerRun(p, moves))
  {
    hide SDo, ServerKnows, SRank;
    if moves != [] {
      var before, m := moves[..|moves| - 1], moves[|moves| - 1];
      ServerRunKnows(p, before);
      ServerSecretIsLate(p, before);
      var s := ServerRun(p, before);
      if m.Turn? && s.wait == Proceed && s.state != ServerDone {
        ServerTurnAgrees(p, s, m.env);
      }
    }
  }

  /**
   Whatever the peer sends: a client that is done, or has a master secret, in a full handshake with
   a certificate cipher, was told in an earlier turn on the certificate that it is good.
   */
  lemma ClientWasTold(p: Params, moves: seq<Move>)
    requires !p.resumed && p.certAuth
    requires ClientRun(p, moves).state == ClientDone || ClientRun(p, moves).did.secret.Some?
    ensures exists i: nat :: ClientAcceptsAt(p, moves, i)
  {
    ClientRunKnows(p, moves);
    ClientSecretIsLate(p, moves);
    ClientCertOk(p, moves);
  }

  /** The same of a server for a client certificate that came. */
  lemma ServerWasTold(p: Params, moves: seq<Move>)
    requires !p.resumed && ServerRun(p, moves).asked
    requires ServerRun(p, moves).state == ServerDone || ServerRun(p, moves).did.secret.Some?
    ensures exists i: nat :: ServerAcceptsAt(p, moves, i)
  {
    ServerRunKnows(p, moves);
    ServerSecretIsLate(p, moves);
    ServerCertOk(p, moves);
  }

  // =====================================================================
  // Messages
  // =====================================================================

  /** In this turn the first message of the buffer was taken, and it was found good. */
  ghost predicate TakesGood<S>(s: Side<S>, r: Side<S>, env: Env) {
    r.io.hsBuf != s.io.hsBuf ==>
      && s.io.hsBuf != [] && r.io.hsBuf == s.io.hsBuf[1..]
      && s.io.transcript + [s.io.hsBuf[0]] <= r.io.transcript
      && (s.io.hsBuf[0].kind == Finished || env.bodyOk)
  }

  lemma ClientTurnTakes(p: Params, c: Client, env: Env)
    requires c.state != ClientDone
    ensures TakesGood(c, CDo(p, c, env), env)
  {
    hide ClientStep;
  }

  lemma ServerTurnTakes(p: Params, s: Server, env: Env)
    requires s.state != ServerDone
    ensures TakesGood(s, SDo(p, s, env), env)
  {
    hide ServerStep;
  }

  /**
   Whatever the peer sends, a message leaves the client's buffer one at a time, into the transcript
   and in a turn that found it well formed. A Finished is known by its MAC instead.
   */
  lemma ClientTakesGood(p: Params, moves: seq<Move>, i: nat)
    requires i < |moves| && moves[i].Turn?
    ensures TakesGood(ClientRun(p, moves[..i]), ClientRun(p, moves[..i + 1]), moves[i].env)
  {
    hide CDo, TakesGood;
    var c := ClientRun(p, moves[..i]);
    assert moves[..i + 1] == moves[..i] + [moves[i]];
    ClientRunOneMore(p, moves[..i], moves[i]);
    if c.wait == Proceed && c.state != ClientDone {
      ClientTurnTakes(p, c, moves[i].env);
    } else {
      TakesNothing(c, moves[i].env);
    }
  }

  /** The same of the server. */
  lemma ServerTakesGood(p: Params, moves: seq<Move>, i: nat)
    requires i < |moves| && moves[i].Turn?
    ensures TakesGood(ServerRun(p, moves[..i]), ServerRun(p, moves[..i + 1]), moves[i].env)
  {
    hide SDo, TakesGood;
    var s := ServerRun(p, moves[..i]);
    assert moves[..i + 1] == moves[..i] + [moves[i]];
    ServerRunOneMore(p, moves[..i], moves[i]);
    if s.wait == Proceed && s.state != ServerDone {
      ServerTurnTakes(p, s, moves[i].env);
    } else {
      TakesNothing(s, moves[i].env);
    }
  }

  lemma TakesNothing<S>(s: Side<S>, env: Env)
    ensures TakesGood(s, s, env)
  {
  }

  // =====================================================================
  // Waiting and failing
  // =====================================================================

  /** The callbacks and keys that the client may have to wait for. */
  predicate ClientAsks(p: Params, c: Client) {
    || (c.state == SendClientCertificate && c.asked)
    || (c.state == SendClientCertificateVerify && c.asked && p.clientCert)
    || (c.state == SendClientFinished && p.channelId)
  }

  /** The client waits for an answer exactly when it is not there, and then nothing has happened. */
  lemma ClientWaitsWhy(p: Params, c: Client, env: Env)
    requires c.state != ClientDone
    ensures var r := CDo(p, c, env);
      && (r.wait == Lookup <==> env.pause && ClientAsks(p, c))
      && (r.wait == Lookup ==> r == c.Stop(Lookup))
  {
    hide ClientStep;
  }

  /** It comes back to a certificate that is not decided yet, and returns early only for False Start. */
  lemma ClientReturnsWhy(p: Params, c: Client, env: Env)
    requires c.state != ClientDone
    ensures var r := CDo(p, c, env);
      && (r.wait == VerifyRetry <==> c.state == VerifyServerCertificate && p.certAuth && env.verdict == Retry)
      && (r.wait == VerifyRetry ==> r == c.Stop(VerifyRetry))
      && (r.wait == EarlyReturn <==> c.state == FinishFlight && !p.resumed && env.falseStart)
  {
    hide ClientStep;
  }

  /** The callbacks and keys that the server may have to wait for, once the message concerned is there and good. */
  predicate ServerAsks(p: Params, s: Server, env: Env) {
    || (s.state == ReadClientHello && s.io.hsBuf != [] && s.io.hsBuf[0].kind == ClientHello && env.bodyOk)
    || (s.state in {SelectCertificate, SelectParameters} && s.io.hsBuf != [])
    || (s.state == SendServerKeyExchange && p.skeSent)
    || (s.state == ReadClientKeyExchange && s.io.hsBuf != [] && s.io.hsBuf[0].kind == ClientKeyExchange && env.bodyOk)
  }

  lemma ServerWaitsWhy(p: Params, s: Server, env: Env)
    requires s.state != ServerDone
    ensures var r := SDo(p, s, env);
      && (r.wait == Lookup <==> env.pause && ServerAsks(p, s, env))
      && (r.wait == Lookup ==> r == s.Stop(Lookup))
  {
    hide ServerStep;
  }

  lemma ServerReturnsWhy(p: Params, s: Server, env: Env)
    requires s.state != ServerDone
    ensures var r := SDo(p, s, env);
      && (r.wait == VerifyRetry <==> s.state == VerifyClientCertificate && s.asked && env.verdict == Retry)
      && (r.wait == VerifyRetry ==> r == s.Stop(VerifyRetry))
      && r.wait != EarlyReturn
  {
    hide ServerStep;
  }

  /** A certificate found bad ends the handshake at once, and a side that failed does nothing more. */
  lemma BadCertificateFails(p: Params, moves: seq<Move>, env: Env, more: seq<Move>)
    requires ClientRun(p, moves).state == VerifyServerCertificate && ClientRun(p, moves).wait == Proceed
    requires p.certAuth && env.verdict == Bad
    ensures ClientRun(p, moves + [Turn(env)] + more) == ClientRun(p, moves).Stop(Error)
  {
    hide ClientStep;
    ClientRunOneMore(p, moves, Turn(env));
    ClientFailsForGood(p, moves + [Turn(env)], more);
  }

  lemma ServerBadCertificateFails(p: Params, moves: seq<Move>, env: Env, more: seq<Move>)
    requires ServerRun(p, moves).state == VerifyClientCertificate && ServerRun(p, moves).wait == Proceed
    requires ServerRun(p, moves).asked && env.verdict == Bad
    ensures ServerRun(p, moves + [Turn(env)] + more) == ServerRun(p, moves).Stop(Error)
  {
    hide ServerStep;
    ServerRunOneMore(p, moves, Turn(env));
    ServerFailsForGood(p, moves + [Turn(env)], more);
  }

  lemma {:induction false} ClientFailsForGood(p: Params, moves: seq<Move>, more: seq<Move>)
    requires ClientRun(p, moves).wait == Error
    ensures ClientRun(p, moves + more) == ClientRun(p, moves)
  {
    hide ClientRun, CDo;
    if more == [] {
      assert moves + more == moves;
    } else {
      var init, last := more[..|more| - 1], more[|more| - 1];
      ClientFailsForGood(p, moves, init);
      assert moves + more == moves + init + [last];
      ClientRunOneMore(p, moves + init, last);
    }
  }

  lemma {:induction false} ServerFailsForGood(p: Params, moves: seq<Move>, more: seq<Move>)
    requires ServerRun(p, moves).wait == Error
    ensures ServerRun(p, moves + more) == ServerRun(p, moves)
  {
    hide ServerRun, SDo;
    if more == [] {
      assert moves + more == moves;
    } else {
      var init, last := more[..|more| - 1], more[|more| - 1];
      ServerFailsForGood(p, moves, init);
      assert moves + more == moves + init + [last];
      ServerRunOneMore(p, moves + init, last);
    }
  }
}
