/**
 Both machines over FIFO channels when callbacks, private keys, session lookups and certificate
 verification may ask for more time. A side that pauses is asleep until its caller comes back. Such
 a run is an honest run of TlsAgreement with pauses in it.
 */
module TlsPauses {
  import opened TlsAgreement
  import opened TlsHandshake

  /** An act of one side, with what the outside decides in it. */
  datatype Step = Step(client: bool, env: Env)

  /** The outside finds everything well formed and accepts it, if not at once. */
  predicate Patient(env: Env) {
    env.bodyOk && env.verdict != Bad
  }

  predicate AllPatient(schedule: seq<Step>) {
    forall e <- schedule :: Patient(e.env)
  }

  predicate Asleep<S>(x: Side<S>) {
    x.wait == Lookup || x.wait == VerifyRetry
  }

  function Wake<S>(x: Side<S>): Side<S> {
    if Asleep(x) then x.Stop(Proceed) else x
  }

  function Awake(w: World): World {
    World(Wake(w.c), Wake(w.s), w.toServer, w.toClient)
  }

  function Sleepers(w: World): nat {
    (if Asleep(w.c) then 1 else 0) + (if Asleep(w.s) then 1 else 0)
  }

  function ActorOf(e: Step): Actor {
    if e.client then TheClient(e.env.falseStart) else TheServer
  }

  predicate AsleepAt(w: World, client: bool) {
    if client then Asleep(w.c) else Asleep(w.s)
  }

  predicate MayAct(w: World, e: Step) {
    AsleepAt(w, e.client) || Enabled(w, ActorOf(e))
  }

  /** One act: a side that sleeps is called again, and a turn may pause. */
  function PausingAct(p: Params, w: World, e: Step): World
    requires MayAct(w, e)
  {
    if e.client then
      if Asleep(w.c) then w.(c := Resolve(w.c, Resume))
      else if w.c.wait == Proceed then w.(c := CDo(p, w.c, e.env))
      else Act(p, w, ActorOf(e))
    else if Asleep(w.s) then w.(s := Resolve(w.s, Resume))
    else if w.s.wait == Proceed then w.(s := SDo(p, w.s, e.env))
    else Act(p, w, ActorOf(e))
  }

  function PausingRun(p: Params, schedule: seq<Step>): World {
    if schedule == [] then START
    else
      var w, e := PausingRun(p, schedule[..|schedule| - 1]), schedule[|schedule| - 1];
      if MayAct(w, e) then PausingAct(p, w, e) else w
  }

  /** How many of the scheduled acts took place. */
  function PausingActs(p: Params, schedule: seq<Step>): nat {
    if schedule == [] then 0
    else
      var before := schedule[..|schedule| - 1];
      PausingActs(p, before) + if MayAct(PausingRun(p, before), schedule[|schedule| - 1]) then 1 else 0
  }

  /** How many of them put their side to sleep. */
  function Pauses(p: Params, schedule: seq<Step>): nat {
    if schedule == [] then 0
    else
      var before, e := schedule[..|schedule| - 1], schedule[|schedule| - 1];
      var w := PausingRun(p, before);
      Pauses(p, before) + if MayAct(w, e) && AsleepAt(PausingAct(p, w, e), e.client) then 1 else 0
  }

  /** No one can act any more, and no one is asleep. */
  predicate AllOver(w: World) {
    Over(w) && Sleepers(w) == 0
  }

  // ----- a turn pauses or is an honest turn

  lemma ClientPauses(p: Params, c: Client, env: Env)
    requires c.state != ClientDone && Patient(env)
    ensures var r := CDo(p, c, env);
      r == CDo(p, c, Honest(env.falseStart)) || r == c.Stop(Lookup) || r == c.Stop(VerifyRetry)
  {
    hide ClientStep;
  }

  lemma ServerPauses(p: Params, s: Server, env: Env)
    requires s.state != ServerDone && Patient(env)
    ensures var r := SDo(p, s, env);
      r == SDo(p, s, FAIR) || r == s.Stop(Lookup) || r == s.Stop(VerifyRetry)
  {
    hide ServerStep;
  }

  /** An act that neither sleeps nor wakes is the honest act; any other leaves the world as it is, but for sleep. */
  lemma ActSimulates(p: Params, w: World, e: Step)
    requires Sound(p, Awake(w)) && MayAct(w, e) && Patient(e.env)
    ensures var r := PausingAct(p, w, e);
      && AsleepAt(r, !e.client) == AsleepAt(w, !e.client)
      && if AsleepAt(w, e.client) || AsleepAt(r, e.client)
         then Awake(r) == Awake(w) && !(AsleepAt(w, e.client) && AsleepAt(r, e.client))
         else Enabled(Awake(w), ActorOf(e)) && Awake(r) == Act(p, Awake(w), ActorOf(e))
  {
    hide Sound, CDo, SDo;
    if !AsleepAt(w, e.client) {
      HonestActIsAwake(p, Awake(w), ActorOf(e));
      if e.client && w.c.wait == Proceed {
        ClientPauses(p, w.c, e.env);
      } else if !e.client && w.s.wait == Proceed {
        ServerPauses(p, w.s, e.env);
      }
    }
  }

  lemma HonestActIsAwake(p: Params, w: World, a: Actor)
    requires Sound(p, w) && Enabled(w, a)
    ensures Sound(p, Act(p, w, a)) && Sleepers(Act(p, w, a)) == 0
  {
    hide OnScript, Act, Enabled, CReads, SReads, ClientKnows, ServerKnows;
    ActKeepsSound(p, w, a);
    ScriptHasNoError(p, Act(p, w, a));
  }

  lemma RunOneMore(p: Params, h: seq<Actor>, a: Actor)
    requires Enabled(RunOf(p, h), a)
    ensures RunOf(p, h + [a]) == Act(p, RunOf(p, h), a) && Acts(p, h + [a]) == Acts(p, h) + 1
  {
    hide Act, Enabled;
    assert (h + [a])[..|h|] == h;
  }

  /**
   Whatever the schedule and the pauses, the awake world is that of an honest run, which has all
   acts but the pauses and the acts that end them.
   */
  lemma {:induction false} PausesDoNotMatter(p: Params, schedule: seq<Step>) returns (h: seq<Actor>)
    requires p.Consistent() && AllPatient(schedule)
    ensures Awake(PausingRun(p, schedule)) == RunOf(p, h)
    ensures PausingActs(p, schedule) + Sleepers(PausingRun(p, schedule)) == Acts(p, h) + 2 * Pauses(p, schedule)
  {
    if schedule == [] {
      h := [];
    } else {
      var before, e := schedule[..|schedule| - 1], schedule[|schedule| - 1];
      assert e in schedule && forall x <- before :: x in schedule;
      h := PausesDoNotMatter(p, before);
      var w := PausingRun(p, before);
      RunIsSound(p, h);
      hide Act, PausingAct, Sound, Enabled;
      if MayAct(w, e) {
        ActSimulates(p, w, e);
        if !AsleepAt(w, e.client) && !AsleepAt(PausingAct(p, w, e), e.client) {
          RunOneMore(p, h, ActorOf(e));
          h := h + [ActorOf(e)];
        }
      }
    }
  }

  /** Neither side ever fails, and what both have computed agrees at every moment, whoever pauses when. */
  lemma NoPausingRunFails(p: Params, schedule: seq<Step>)
    requires p.Consistent() && AllPatient(schedule)
    ensures var w := PausingRun(p, schedule);
      && w.c.wait != Error && w.s.wait != Error
      && (w.c.did.secret.Some? && w.s.did.secret.Some? ==> w.c.did.secret.value.over == w.s.did.secret.value.over)
      && (w.c.did.sent.Some? && w.s.did.got.Some? ==> w.c.did.sent.value.over == w.s.did.got.value.over)
      && (w.s.did.sent.Some? && w.c.did.got.Some? ==> w.s.did.sent.value.over == w.c.did.got.value.over)
  {
    hide PausingRun, RunOf;
    var h := PausesDoNotMatter(p, schedule);
    NoRunFails(p, h);
  }

  /**
   Every run ends, unless it pauses for ever: it has at most 1200 acts, and two more for each
   pause. A run that has ended has both sides done and agreed.
   */
  lemma EveryPausingRunAgrees(p: Params, schedule: seq<Step>)
    requires p.Consistent() && AllPatient(schedule)
    ensures PausingActs(p, schedule) <= 1200 + 2 * Pauses(p, schedule)
    ensures var w := PausingRun(p, schedule);
      AllOver(w) ==>
        && BothDone(w)
        && w.c.io.transcript == w.s.io.transcript == Transcript(p, Size(p))
        && w.toClient == w.toServer == [] && w.c.io == w.s.io == Io(Transcript(p, Size(p)), [], [])
        && (!p.resumed ==> w.c.did.secret.Some? && w.s.did.secret.Some? && (p.certAuth ==> w.c.did.certOk))
        && w.c.did.sent.Some? && w.s.did.got.Some? && w.s.did.sent.Some? && w.c.did.got.Some?
  {
    hide PausingRun, RunOf, PausingActs, Pauses, Acts, Over, Transcript;
    var h := PausesDoNotMatter(p, schedule);
    EveryRunAgrees(p, h);
    if AllOver(PausingRun(p, schedule)) {
      assert Awake(PausingRun(p, schedule)) == PausingRun(p, schedule);
    }
  }
}
