/**
 The loops that drive the state machines (handshake.cc, handshake_client.cc, handshake_server.cc).
 */
module TlsDriver {
  import opened TlsHandshake

  /** A record as it is opened: handshake data, a ChangeCipherSpec, or something that fails. */
  datatype Arrival = Handshakes(msgs: seq<Msg>, begun: bool) | ChangeCipherSpec | Unusable

  /** What the outside answers, in order: the decision of each turn, and whether the transport took the whole flight. */
  datatype Outside = Outside(env: nat -> Env, flush: nat -> bool)
  {
    function Decisions(n: nat): seq<Env> { if n == 0 then [] else Decisions(n - 1) + [env(n - 1)] }

    /** How many of the first n flights were taken. */
    function Flights(n: nat): nat { if n == 0 then 0 else Flights(n - 1) + if flush(n - 1) then 1 else 0 }
  }

  /** The decisions, records and flights among the moves of a side. */
  function Decided(moves: seq<Move>): seq<Env> {
    if moves == [] then []
    else
      var m := moves[|moves| - 1];
      Decided(moves[..|moves| - 1]) + if m.Turn? then [m.env] else []
  }

  function Opened(moves: seq<Move>): seq<Arrival> {
    if moves == [] then []
    else
      var m := moves[|moves| - 1];
      Opened(moves[..|moves| - 1]) +
      if m.Receive? then [Handshakes(m.msgs, m.begun)] else if m.OpenCcs? then [ChangeCipherSpec] else []
  }

  function FlightsGone(moves: seq<Move>): nat {
    if moves == [] then 0
    else FlightsGone(moves[..|moves| - 1]) + if moves[|moves| - 1].Flushed? then 1 else 0
  }

  /** Turns alone, each of a machine that is ready. */
  ghost predicate ClientTurns(p: Params, before: seq<Move>, after: seq<Move>) {
    && before <= after
    && forall k :: |before| <= k < |after| ==> after[k].Turn? && ClientReady(p, after[..k])
  }

  ghost predicate ClientReady(p: Params, moves: seq<Move>) {
    ClientRun(p, moves).wait == Proceed && ClientRun(p, moves).state != ClientDone
  }

  lemma ClientTurnsMore(p: Params, before: seq<Move>, after: seq<Move>, env: Env)
    requires ClientTurns(p, before, after) && ClientReady(p, after)
    ensures ClientTurns(p, before, after + [Turn(env)])
  {
    hide ClientReady;
    var more := after + [Turn(env)];
    forall k | |before| <= k < |more| ensures more[k].Turn? && ClientReady(p, more[..k]) {
      assert more[..k] == after[..k];
    }
  }

  ghost predicate ServerTurns(p: Params, before: seq<Move>, after: seq<Move>) {
    && before <= after
    && forall k :: |before| <= k < |after| ==> after[k].Turn? && ServerReady(p, after[..k])
  }

  ghost predicate ServerReady(p: Params, moves: seq<Move>) {
    ServerRun(p, moves).wait == Proceed && ServerRun(p, moves).state != ServerDone
  }

  lemma ServerTurnsMore(p: Params, before: seq<Move>, after: seq<Move>, env: Env)
    requires ServerTurns(p, before, after) && ServerReady(p, after)
    ensures ServerTurns(p, before, after + [Turn(env)])
  {
    hide ServerReady;
    var more := after + [Turn(env)];
    forall k | |before| <= k < |more| ensures more[k].Turn? && ServerReady(p, more[..k]) {
      assert more[..k] == after[..k];
    }
  }

  lemma OneMove(moves: seq<Move>, m: Move)
    ensures Decided(moves + [m]) == Decided(moves) + if m.Turn? then [m.env] else []
    ensures Opened(moves + [m]) == Opened(moves) +
      if m.Receive? then [Handshakes(m.msgs, m.begun)] else if m.OpenCcs? then [ChangeCipherSpec] else []
    ensures FlightsGone(moves + [m]) == FlightsGone(moves) + if m.Flushed? then 1 else 0
  {
    assert (moves + [m])[..|moves|] == moves;
  }

  /** A record is what a wait is for. */
  predicate Suits(w: Wait, record: Arrival) {
    (w == ReadMessage && record.Handshakes?) || (w == ReadCcs && record.ChangeCipherSpec?)
  }

  /** The move that a record makes. */
  function Opening(record: Arrival): (m: Move)
    requires !record.Unusable?
    ensures !m.Turn? && !m.Flushed? && [record] ==
      if m.Receive? then [Handshakes(m.msgs, m.begun)] else if m.OpenCcs? then [ChangeCipherSpec] else []
  {
    if record.Handshakes? then Receive(record.msgs, record.begun) else OpenCcs
  }

  /** What resolving a wait comes to: whether the machine can go on, the moves made, and the records left. */
  ghost predicate Resolves(w: Wait, taken: bool, input: seq<Arrival>, go: bool, more: seq<Move>, rest: seq<Arrival>) {
    match w
    case Proceed => go && more == [] && rest == input
    case Error => !go && more == [] && rest == input
    case Flush => go == taken && more == (if taken then [Flushed] else []) && rest == input
    case ReadMessage => TakesRecord(w, input, go, more, rest)
    case ReadCcs => TakesRecord(w, input, go, more, rest)
    case VerifyRetry => !go && more == [Resume] && rest == input
    case Lookup => !go && more == [Resume] && rest == input
    case EarlyReturn => !go && more == [Resume] && rest == input
  }

  ghost predicate TakesRecord(w: Wait, input: seq<Arrival>, go: bool, more: seq<Move>, rest: seq<Arrival>) {
    if input == [] then !go && more == [] && rest == []
    else
      && rest == input[1..]
      && (go <==> Suits(w, input[0]))
      && more == if go then [Opening(input[0])] else []
  }

  /** Conservation of records: what was opened and what is left are what had been opened and what there was. */
  ghost predicate Took(before: seq<Arrival>, input: seq<Arrival>, after: seq<Arrival>, rest: seq<Arrival>) {
    after + rest == before + input
  }

  /** The same, but for the last record, which is not what the side waits for. */
  ghost predicate TookInVain(w: Wait, before: seq<Arrival>, input: seq<Arrival>, after: seq<Arrival>,
                             rest: seq<Arrival>) {
    w in {ReadMessage, ReadCcs} && exists last: Arrival :: !Suits(w, last) && Took(before, input, after + [last], rest)
  }

  /** A side that waits for a record used up what there was, or opened one that it cannot use. */
  ghost predicate Starved(w: Wait, before: seq<Arrival>, input: seq<Arrival>, after: seq<Arrival>, rest: seq<Arrival>) {
    || (w in {ReadMessage, ReadCcs} && rest == [] && Took(before, input, after, rest))
    || TookInVain(w, before, input, after, rest)
  }

  lemma ResolvedRecords(w: Wait, taken: bool, input: seq<Arrival>, go: bool, rest: seq<Arrival>,
                        before: seq<Move>, after: seq<Move>)
    requires before <= after && Resolves(w, taken, input, go, after[|before|..], rest)
    ensures if go || w !in {ReadMessage, ReadCcs} then Took(Opened(before), input, Opened(after), rest)
            else Starved(w, Opened(before), input, Opened(after), rest)
  {
    hide Opened, Took;
    var more := after[|before|..];
    TookNone(Opened(before), input);
    if w in {ReadMessage, ReadCcs} && input != [] {
      TookOne(Opened(before), input);
    }
    if more == [] {
      assert after == before;
    } else {
      assert after == before + [more[0]];
      OneMove(before, more[0]);
      assert Opened(before) + [] == Opened(before);
    }
  }

  lemma TookNone(before: seq<Arrival>, input: seq<Arrival>)
    ensures Took(before, input, before, input)
  {
  }

  lemma TookOne(before: seq<Arrival>, input: seq<Arrival>)
    requires input != []
    ensures Took(before, input, before + [input[0]], input[1..])
  {
    assert input == [input[0]] + input[1..];
  }

  lemma TookMore(w: Wait, o0: seq<Arrival>, input: seq<Arrival>, o1: seq<Arrival>, mid: seq<Arrival>,
                 o2: seq<Arrival>, rest: seq<Arrival>)
    requires Took(o0, input, o1, mid)
    ensures Took(o1, mid, o2, rest) ==> Took(o0, input, o2, rest)
    ensures Starved(w, o1, mid, o2, rest) ==> Starved(w, o0, input, o2, rest)
  {
    if TookInVain(w, o1, mid, o2, rest) {
      var last :| !Suits(w, last) && Took(o1, mid, o2 + [last], rest);
      assert Took(o0, input, o2 + [last], rest);
    }
  }

  const PAUSES := {VerifyRetry, Lookup, EarlyReturn}

  /** Orders the waits within one state, so that the driving loop is seen to end. */
  function Urgency(w: Wait): nat {
    match w
    case Flush => 2
    case ReadCcs => 2
    case Proceed => 2
    case ReadMessage => 1
    case _ => 0
  }

  class ClientHandshake {
    const p: Params
    const outside: Outside
    var hs: Client
    /** How many answers were asked for. */
    var turns: nat
    var flushes: nat
    /** All that happened to this side. */
    ghost var moves: seq<Move>

    /** The state is that of a run on the outside's answers, in the order in which they came. */
    ghost predicate Valid()
      reads this
    {
      && hs == ClientRun(p, moves) && (hs.wait == ReadMessage ==> hs.io.hsBuf == [])
      && Decided(moves) == outside.Decisions(turns)
      && FlightsGone(moves) == outside.Flights(flushes)
    }

    constructor (p: Params, outside: Outside)
      ensures Valid() && this.p == p && this.outside == outside && moves == [] && turns == 0 && flushes == 0
      ensures hs == Fresh(StartConnect)
    {
      this.p, this.outside, hs, turns, flushes, moves := p, outside, Fresh(StartConnect), 0, 0, [];
    }

    /** One turn of the machine on the next answer. */
    method Step()
      requires Valid() && hs.wait == Proceed && hs.state != ClientDone
      modifies `hs, `turns, `moves
      ensures Valid() && turns == old(turns) + 1 && moves == old(moves) + [Turn(outside.env(old(turns)))]
      ensures ClientStep(p, old(hs), hs)
    {
      hide ClientRun, CDo, ClientKnows, CRank, Stays, Decided, FlightsGone;
      var env := outside.env(turns);
      ClientRunOneMore(p, moves, Turn(env));
      OneMove(moves, Turn(env));
      hs, turns, moves := CDo(p, hs, env), turns + 1, moves + [Turn(env)];
    }

    /**
     ssl_client_handshake: it takes turns, each of a machine that is ready, until there is a wait or the
     end, and at most as many as there are ranks.
     */
    method Handshake() returns (ret: Wait)
      requires Valid() && hs.wait == Proceed
      modifies `hs, `turns, `moves
      ensures Valid() && old(moves) <= moves && ClientTurns(p, old(moves), moves) && Opened(moves) == old(Opened(moves))
      ensures turns - old(turns) == |moves| - |old(moves)|
      ensures ret == Proceed <==> hs.state == ClientDone
      ensures ret == hs.wait
      ensures CRank(p.resumed, hs.state) < CRank(p.resumed, old(hs.state)) || hs == old(hs) ||
              (hs.state == old(hs.state) && Stays(old(hs), hs) && Urgency(hs.wait) < 2)
    {
      hide ClientKnows, CRank, ClientRun, CDo;
      while hs.state != ClientDone
        invariant Valid() && hs.wait == Proceed
        invariant ClientTurns(p, old(moves), moves) && Opened(moves) == old(Opened(moves))
        invariant turns - old(turns) == |moves| - |old(moves)|
        invariant CRank(p.resumed, hs.state) < CRank(p.resumed, old(hs.state)) || hs == old(hs)
        decreases CRank(p.resumed, hs.state)
      {
        ClientTurnsMore(p, old(moves), moves, outside.env(turns));
        OneMove(moves, Turn(outside.env(turns)));
        Step();
        if hs.wait != Proceed {
          return hs.wait;
        }
      }
      return Proceed;
    }

    /** The first half of a turn of ssl_run_handshake: what was waited for is resolved, or the caller must come back. */
    method Await(input: seq<Arrival>) returns (go: bool, early: bool, rest: seq<Arrival>)
      requires Valid()
      modifies `hs, `flushes, `moves
      ensures Valid() && old(moves) <= moves && hs.state == old(hs.state)
      ensures Resolves(old(hs.wait), outside.flush(old(flushes)), input, go, moves[|old(moves)|..], rest)
      ensures flushes == old(flushes) + if old(hs.wait) == Flush then 1 else 0
      ensures go ==> hs.wait == Proceed && !early
      ensures go ==> |rest| < |input| || (rest == input && Urgency(old(hs.wait)) == 2)
      ensures old(hs.wait) == Proceed || (old(hs.wait) == Flush && outside.flush(old(flushes))) ==> go
      ensures !go ==> hs == old(hs) || (old(hs.wait) in PAUSES && hs == old(hs).Stop(Proceed))
      ensures early <==> old(hs.wait) == EarlyReturn
      ensures old(hs.wait) in PAUSES ==> old(moves) != moves && WasPaused(old(hs.wait))
    {
      hide ClientKnows, CRank, ClientRun, CDo, ClientFacts, WasPaused;
      go, early, rest := false, false, input;
      match hs.wait {
        case Proceed => go := true;
        case Error =>
        case Flush => go := FlushFlight();
        case ReadMessage => go, rest := Open(rest);
        case ReadCcs => go, rest := Open(rest);
        case VerifyRetry => Pause();
        case Lookup => Pause();
        case EarlyReturn =>
          early := true;
          Pause();
      }
    }

    /** flush_flight. */
    method FlushFlight() returns (taken: bool)
      requires Valid() && hs.wait == Flush
      modifies `hs, `flushes, `moves
      ensures Valid() && flushes == old(flushes) + 1 && taken == outside.flush(old(flushes))
      ensures moves == old(moves) + if taken then [Flushed] else []
      ensures hs == if taken then Resolve(old(hs), Flushed) else old(hs)
    {
      hide ClientRun, Decided;
      taken := outside.flush(flushes);
      flushes := flushes + 1;
      if taken {
        ClientRunOneMore(p, moves, Flushed);
        OneMove(moves, Flushed);
        hs, moves := Resolve(hs, Flushed), moves + [Flushed];
      }
    }

    /** ssl_open_handshake and ssl_open_change_cipher_spec: the next record is taken, whatever it is. */
    method Open(input: seq<Arrival>) returns (go: bool, rest: seq<Arrival>)
      requires Valid() && hs.wait in {ReadMessage, ReadCcs}
      modifies `hs, `moves
      ensures Valid() && old(moves) <= moves
      ensures TakesRecord(old(hs.wait), input, go, moves[|old(moves)|..], rest)
      ensures hs == if go then Resolve(old(hs), Opening(input[0])) else old(hs)
    {
      hide ClientRun;
      if input == [] {
        return false, [];
      }
      rest, go := input[1..], Suits(hs.wait, input[0]);
      if go {
        Happen(Opening(input[0]));
      }
    }

    /** The caller is to come back, and what was waited for is over then. */
    method Pause()
      requires Valid() && hs.wait in PAUSES
      modifies `hs, `moves
      ensures Valid() && moves == old(moves) + [Resume] && WasPaused(old(hs.wait)) && hs == old(hs).Stop(Proceed)
    {
      hide ClientRun;
      Happen(Resume);
      assert moves[..|moves| - 1] == old(moves);
    }

    method Happen(m: Move)
      requires Valid() && !m.Turn? && !m.Flushed?
      modifies `hs, `moves
      ensures Valid() && moves == old(moves) + [m] && hs == Resolve(old(hs), m)
    {
      hide ClientRun;
      ClientRunOneMore(p, moves, m);
      OneMove(moves, m);
      hs, moves := Resolve(hs, m), moves + [m];
    }

    /**
     ssl_run_handshake, as far as the records at hand allow. Every record is used in order, and it
     stops only at the end, at an early return, or for one of the reasons below.
     */
    method Run(input: seq<Arrival>) returns (ret: int, early: bool, rest: seq<Arrival>)
      requires Valid()
      modifies `hs, `turns, `flushes, `moves
      ensures Valid() && old(moves) <= moves && old(turns) <= turns && old(flushes) <= flushes
      ensures
        || Took(old(Opened(moves)), input, Opened(moves), rest)
        || TookInVain(hs.wait, old(Opened(moves)), input, Opened(moves), rest)
      ensures ret == 1 || ret == -1
      ensures ret == 1 && !early ==> hs.state == ClientDone && hs.wait == Proceed
      ensures early ==> ret == 1 && old(moves) != moves && WasPaused(EarlyReturn)
      ensures ret == -1 ==>
        || hs.wait == Error
        || (hs.wait == Flush && old(flushes) < flushes && !outside.flush(flushes - 1))
        || Starved(hs.wait, old(Opened(moves)), input, Opened(moves), rest)
        || (old(moves) != moves && (WasPaused(VerifyRetry) || WasPaused(Lookup)))
    {
      hide ClientKnows, CRank, ClientRun, CDo, ClientFacts, ClientTurns;
      hide Resolves, Opened, Took, Starved, Stays, WasPaused, Resolve;
      early, rest := false, input;
      TookNone(Opened(moves), input);
      while true
        invariant Valid() && old(moves) <= moves && old(turns) <= turns && old(flushes) <= flushes
        invariant Took(old(Opened(moves)), input, Opened(moves), rest)
        decreases |rest|, CRank(p.resumed, hs.state), Urgency(hs.wait)
      {
        var go;
        ghost var m, w, taken, mid := moves, hs.wait, outside.flush(flushes), rest;
        go, early, rest := Await(rest);
        ResolvedRecords(w, taken, mid, go, rest, m, moves);
        TookMore(w, old(Opened(moves)), input, Opened(m), mid, Opened(moves), rest);
        if !go {
          return if early then 1 else -1, early, rest;
        }
        var wait := Handshake();
        if wait == Error {
          return -1, false, rest;
        }
        if wait == Proceed {
          return 1, false, rest;
        }
      }
      assert false;
    }

    /** The last thing that happened is that the caller is to come back, from a wait of this kind. */
    ghost predicate WasPaused(w: Wait)
      reads `moves
    {
      && moves != [] && moves[|moves| - 1] == Resume
      && ClientRun(p, moves[..|moves| - 1]).wait == w
    }
  }

  class ServerHandshake {
    const p: Params
    const outside: Outside
    var hs: Server
    /** How many answers were asked for. */
    var turns: nat
    var flushes: nat
    /** All that happened to this side. */
    ghost var moves: seq<Move>

    /** The state is that of a run on the outside's answers, in the order in which they came. */
    ghost predicate Valid()
      reads this
    {
      && hs == ServerRun(p, moves) && (hs.wait == ReadMessage ==> hs.io.hsBuf == [])
      && Decided(moves) == outside.Decisions(turns)
      && FlightsGone(moves) == outside.Flights(flushes)
    }

    constructor (p: Params, outside: Outside)
      ensures Valid() && this.p == p && this.outside == outside && moves == [] && turns == 0 && flushes == 0
      ensures hs == Fresh(StartAccept)
    {
      this.p, this.outside, hs, turns, flushes, moves := p, outside, Fresh(StartAccept), 0, 0, [];
    }

    /** One turn of the machine on the next answer. */
    method Step()
      requires Valid() && hs.wait == Proceed && hs.state != ServerDone
      modifies `hs, `turns, `moves
      ensures Valid() && turns == old(turns) + 1 && moves == old(moves) + [Turn(outside.env(old(turns)))]
      ensures ServerStep(p, old(hs), hs)
    {
      hide ServerRun, SDo, ServerKnows, SRank, Stays, Decided, FlightsGone;
      var env := outside.env(turns);
      ServerRunOneMore(p, moves, Turn(env));
      OneMove(moves, Turn(env));
      hs, turns, moves := SDo(p, hs, env), turns + 1, moves + [Turn(env)];
    }

    /**
     ssl_server_handshake: it takes turns, each of a machine that is ready, until there is a wait or the
     end, and at most as many as there are ranks.
     */
    method Handshake() returns (ret: Wait)
      requires Valid() && hs.wait == Proceed
      modifies `hs, `turns, `moves
      ensures Valid() && old(moves) <= moves && ServerTurns(p, old(moves), moves) && Opened(moves) == old(Opened(moves))
      ensures turns - old(turns) == |moves| - |old(moves)|
      ensures ret == Proceed <==> hs.state == ServerDone
      ensures ret == hs.wait
      ensures SRank(p.resumed, hs.state) < SRank(p.resumed, old(hs.state)) || hs == old(hs) ||
              (hs.state == old(hs.state) && Stays(old(hs), hs) && Urgency(hs.wait) < 2)
    {
      hide ServerKnows, SRank, ServerRun, SDo;
      while hs.state != ServerDone
        invariant Valid() && hs.wait == Proceed
        invariant ServerTurns(p, old(moves), moves) && Opened(moves) == old(Opened(moves))
        invariant turns - old(turns) == |moves| - |old(moves)|
        invariant SRank(p.resumed, hs.state) < SRank(p.resumed, old(hs.state)) || hs == old(hs)
        decreases SRank(p.resumed, hs.state)
      {
        ServerTurnsMore(p, old(moves), moves, outside.env(turns));
        OneMove(moves, Turn(outside.env(turns)));
        Step();
        if hs.wait != Proceed {
          return hs.wait;
        }
      }
      return Proceed;
    }

    /** The first half of a turn of ssl_run_handshake: what was waited for is resolved, or the caller must come back. */
    method Await(input: seq<Arrival>) returns (go: bool, early: bool, rest: seq<Arrival>)
      requires Valid()
      modifies `hs, `flushes, `moves
      ensures Valid() && old(moves) <= moves && hs.state == old(hs.state)
      ensures Resolves(old(hs.wait), outside.flush(old(flushes)), input, go, moves[|old(moves)|..], rest)
      ensures flushes == old(flushes) + if old(hs.wait) == Flush then 1 else 0
      ensures go ==> hs.wait == Proceed && !early
      ensures go ==> |rest| < |input| || (rest == input && Urgency(old(hs.wait)) == 2)
      ensures old(hs.wait) == Proceed || (old(hs.wait) == Flush && outside.flush(old(flushes))) ==> go
      ensures !go ==> hs == old(hs) || (old(hs.wait) in PAUSES && hs == old(hs).Stop(Proceed))
      ensures early <==> old(hs.wait) == EarlyReturn
      ensures old(hs.wait) in PAUSES ==> old(moves) != moves && WasPaused(old(hs.wait))
    {
      hide ServerKnows, SRank, ServerRun, SDo, ServerFacts, WasPaused;
      go, early, rest := false, false, input;
      match hs.wait {
        case Proceed => go := true;
        case Error =>
        case Flush => go := FlushFlight();
        case ReadMessage => go, rest := Open(rest);
        case ReadCcs => go, rest := Open(rest);
        case VerifyRetry => Pause();
        case Lookup => Pause();
        case EarlyReturn =>
          early := true;
          Pause();
      }
    }

    /** flush_flight. */
    method FlushFlight() returns (taken: bool)
      requires Valid() && hs.wait == Flush
      modifies `hs, `flushes, `moves
      ensures Valid() && flushes == old(flushes) + 1 && taken == outside.flush(old(flushes))
      ensures moves == old(moves) + if taken then [Flushed] else []
      ensures hs == if taken then Resolve(old(hs), Flushed) else old(hs)
    {
      hide ServerRun, Decided;
      taken := outside.flush(flushes);
      flushes := flushes + 1;
      if taken {
        ServerRunOneMore(p, moves, Flushed);
        OneMove(moves, Flushed);
        hs, moves := Resolve(hs, Flushed), moves + [Flushed];
      }
    }

    /** ssl_open_handshake and ssl_open_change_cipher_spec: the next record is taken, whatever it is. */
    method Open(input: seq<Arrival>) returns (go: bool, rest: seq<Arrival>)
      requires Valid() && hs.wait in {ReadMessage, ReadCcs}
      modifies `hs, `moves
      ensures Valid() && old(moves) <= moves
      ensures TakesRecord(old(hs.wait), input, go, moves[|old(moves)|..], rest)
      ensures hs == if go then Resolve(old(hs), Opening(input[0])) else old(hs)
    {
      hide ServerRun;
      if input == [] {
        return false, [];
      }
      rest, go := input[1..], Suits(hs.wait, input[0]);
      if go {
        Happen(Opening(input[0]));
      }
    }

    /** The caller is to come back, and what was waited for is over then. */
    method Pause()
      requires Valid() && hs.wait in PAUSES
      modifies `hs, `moves
      ensures Valid() && moves == old(moves) + [Resume] && WasPaused(old(hs.wait)) && hs == old(hs).Stop(Proceed)
    {
      hide ServerRun;
      Happen(Resume);
      assert moves[..|moves| - 1] == old(moves);
    }

    method Happen(m: Move)
      requires Valid() && !m.Turn? && !m.Flushed?
      modifies `hs, `moves
      ensures Valid() && moves == old(moves) + [m] && hs == Resolve(old(hs), m)
    {
      hide ServerRun;
      ServerRunOneMore(p, moves, m);
      OneMove(moves, m);
      hs, moves := Resolve(hs, m), moves + [m];
    }

    /**
     ssl_run_handshake, as far as the records at hand allow. Every record is used in order, and it
     stops only at the end, at an early return, or for one of the reasons below.
     */
    method Run(input: seq<Arrival>) returns (ret: int, early: bool, rest: seq<Arrival>)
      requires Valid()
      modifies `hs, `turns, `flushes, `moves
      ensures Valid() && old(moves) <= moves && old(turns) <= turns && old(flushes) <= flushes
      ensures
        || Took(old(Opened(moves)), input, Opened(moves), rest)
        || TookInVain(hs.wait, old(Opened(moves)), input, Opened(moves), rest)
      ensures ret == 1 || ret == -1
      ensures ret == 1 && !early ==> hs.state == ServerDone && hs.wait == Proceed
      ensures early ==> ret == 1 && old(moves) != moves && WasPaused(EarlyReturn)
      ensures ret == -1 ==>
        || hs.wait == Error
        || (hs.wait == Flush && old(flushes) < flushes && !outside.flush(flushes - 1))
        || Starved(hs.wait, old(Opened(moves)), input, Opened(moves), rest)
        || (old(moves) != moves && (WasPaused(VerifyRetry) || WasPaused(Lookup)))
    {
      hide ServerKnows, SRank, ServerRun, SDo, ServerFacts, ServerTurns;
      hide Resolves, Opened, Took, Starved, Stays, WasPaused, Resolve;
      early, rest := false, input;
      TookNone(Opened(moves), input);
      while true
        invariant Valid() && old(moves) <= moves && old(turns) <= turns && old(flushes) <= flushes
        invariant Took(old(Opened(moves)), input, Opened(moves), rest)
        decreases |rest|, SRank(p.resumed, hs.state), Urgency(hs.wait)
      {
        var go;
        ghost var m, w, taken, mid := moves, hs.wait, outside.flush(flushes), rest;
        go, early, rest := Await(rest);
        ResolvedRecords(w, taken, mid, go, rest, m, moves);
        TookMore(w, old(Opened(moves)), input, Opened(m), mid, Opened(moves), rest);
        if !go {
          return if early then 1 else -1, early, rest;
        }
        var wait := Handshake();
        if wait == Error {
          return -1, false, rest;
        }
        if wait == Proceed {
          return 1, false, rest;
        }
      }
      assert false;
    }

    /** The last thing that happened is that the caller is to come back, from a wait of this kind. */
    ghost predicate WasPaused(w: Wait)
      reads `moves
    {
      && moves != [] && moves[|moves| - 1] == Resume
      && ServerRun(p, moves[..|moves| - 1]).wait == w
    }
  }
}
