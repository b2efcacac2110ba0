/** The two models of the handlers meet: a request handled in one step is its separate steps taken in a row. */
module AttestRefinement {
  import opened Hashing
  import opened Chain
  import opened KeyLifetime
  import opened AttestState
  import opened AttestInterleaved
  import Service = AttestService

  /** What the one-step model sees of a system: store, attestations and the challenge ids made up so far. */
  function WorldOf(s: System): Service.World {
    Service.World(s.store, Attestations(s.issued), s.h.openedAt.Keys)
  }

  /** The nonces of stored challenges have been drawn. */
  ghost predicate NoncesDrawn(s: System) {
    forall id, l :: id in s.store && 0 <= l < |s.store[id].state.lanes| ==> Drawn(s, s.store[id].state.lanes[l])
  }

  ghost predicate Drawn(s: System, lane: LaneState) {
    lane.nonce.Some? ==> lane.nonce.value in s.h.nonces
  }

  /** The new challenge ids and nonces a request brings are new. */
  ghost predicate Fresh(s: System, r: Service.Request) {
    match r
    case Challenge(challengeId, _, _, _) => challengeId !in s.h.openedAt
    case LaneStart(_, _, nonce) => nonce !in s.h.nonces
    case LaneSubmit(_, _, _) => true
  }

  /** t is where the one-step model says the request leads from s, with the same requests in flight. */
  ghost predicate Reaches(H: Hash, c: Config, s: System, r: Service.Request, t: System) {
    && Service.WellFormed(c, WorldOf(s))
    && WorldOf(t) == Service.Handle(H, c, WorldOf(s), r, s.h.clock).0
    && t.flights == s.flights && t.h.clock == s.h.clock
    && t.h.nonces.Keys <= s.h.nonces.Keys + NoncesOf(r)
  }

  function NoncesOf(r: Service.Request): set<Nonce> {
    if r.LaneStart? then {r.nonce} else {}
  }

  lemma {:induction false} LeadsFirst(H: Hash, c: Config, s: System, e: Event, rest: seq<Event>, t: System)
    requires Enabled(H, c, s, e) && Leads(H, c, Next(H, c, s, e), rest, t)
    ensures Leads(H, c, s, [e] + rest, t)
  {
    assert ([e] + rest)[1..] == rest;
  }

  lemma {:induction false} LeadsOne(H: Hash, c: Config, s: System, e: Event)
    requires Enabled(H, c, s, e)
    ensures Leads(H, c, s, [e], Next(H, c, s, e))
  {
    assert Leads(H, c, Next(H, c, s, e), [], Next(H, c, s, e));
    assert [e][1..] == [];
  }

  // ------------------------------------------------------------ the last steps of a request

  lemma {:induction false} StoreStep(H: Hash, c: Config, s: System, id: nat, challengeId: Digest, next: BenchState,
                                     px: int)
    returns (t: System)
    requires id in s.flights && s.flights[id] == (challengeId, Storing(next, px))
    ensures Leads(H, c, s, [Store(id)], t)
    ensures t == s.(store := s.store[challengeId := Entry(next, s.h.clock + AtLeast1(px))], flights := s.flights - {id})
  {
    t := Next(H, c, s, Store(id));
    LeadsOne(H, c, s, Store(id));
  }

  lemma {:induction false} DropStep(H: Hash, c: Config, s: System, id: nat, challengeId: Digest) returns (t: System)
    requires id in s.flights && s.flights[id] == (challengeId, Dropping)
    ensures Leads(H, c, s, [Drop(id)], t)
    ensures t == s.(store := s.store - {challengeId}, flights := s.flights - {id})
  {
    t := Next(H, c, s, Drop(id));
    LeadsOne(H, c, s, Drop(id));
  }

  lemma {:induction false} CloseSteps(H: Hash, c: Config, s: System, id: nat, challengeId: Digest, final: BenchState,
                                      attestation: Attestation)
    returns (t: System)
    requires id in s.flights && s.flights[id] == (challengeId, Closing(final, attestation))
    ensures Leads(H, c, s, [Issue(id), Drop(id)], t)
    ensures t == s.(store := s.store - {challengeId}, flights := s.flights - {id},
                    issued := RecordIssued(s.issued, Issued(attestation, final)))
  {
    var s1 := Next(H, c, s, Issue(id));
    t := DropStep(H, c, s1, id, challengeId);
    LeadsFirst(H, c, s, Issue(id), [Drop(id)], t);
    assert [Issue(id)] + [Drop(id)] == [Issue(id), Drop(id)];
    assert s1.flights - {id} == s.flights - {id};
  }

  // ------------------------------------------------------------ the three requests

  lemma {:induction false} ChallengeIsSteps(H: Hash, c: Config, s: System, r: Service.Request, id: nat)
    returns (events: seq<Event>, t: System)
    requires Service.WellFormed(c, WorldOf(s)) && id !in s.flights
    requires r.Challenge? && Fresh(s, r)
    ensures Leads(H, c, s, events, t) && Reaches(H, c, s, r, t)
  {
    if ChallengeRefusal(r.post, r.limited).Some? {
      events, t := [], s;
    } else {
      var e := Open(id, r.challengeId, r.post.signer, r.seed, r.post.coreCount);
      var s1 := Next(H, c, s, e);
      t := StoreStep(H, c, s1, id, r.challengeId, NewState(c, r.post.signer, r.seed, r.post.coreCount, s.h.clock),
        c.challengeTtlMs);
      LeadsFirst(H, c, s, e, [Store(id)], t);
      events := [e] + [Store(id)];
      assert t.flights == s.flights;
    }
  }

  lemma {:induction false} StartIsSteps(H: Hash, c: Config, s: System, r: Service.Request, id: nat)
    returns (events: seq<Event>, t: System)
    requires Service.WellFormed(c, WorldOf(s)) && id !in s.flights
    requires r.LaneStart? && Fresh(s, r)
    ensures Leads(H, c, s, events, t) && Reaches(H, c, s, r, t)
  {
    var load := LoadStart(id, r.challengeId, r.lane);
    var s1 := Next(H, c, s, load);
    if !Live(s, r.challengeId) {
      events, t := [load], s1;
      LeadsOne(H, c, s, load);
    } else {
      var loaded := s.store[r.challengeId].state;
      var compute := ComputeStart(id, r.nonce);
      var s2 := Next(H, c, s1, compute);
      var started := StartOn(loaded, r.lane, s.h.clock, r.nonce).0;
      if started.None? {
        t := s2;
        LeadsOne(H, c, s1, compute);
        LeadsFirst(H, c, s, load, [compute], t);
        events := [load] + [compute];
      } else {
        t := StoreStep(H, c, s2, id, r.challengeId, started.value, loaded.deadlineMs - s.h.clock);
        LeadsFirst(H, c, s1, compute, [Store(id)], t);
        LeadsFirst(H, c, s, load, [compute] + [Store(id)], t);
        events := [load] + ([compute] + [Store(id)]);
      }
      assert t.flights == s.flights;
    }
  }

  /** What a request still has to do after an outcome. */
  function FollowOf(s: BenchState, now: int, outcome: Outcome): Option<Flight> {
    match outcome
    case Refused(_) => None
    case Dropped => Some(Dropping)
    case Progress(next) => Some(Storing(next, s.deadlineMs - now))
    case Closed(final, attestation) => Some(Closing(final, attestation))
  }

  /** The loaded submission, and what both models decide on it. */
  function LoadedFlight(s: System, r: Service.Request): Flight
    requires r.LaneSubmit? && r.challengeId in s.store
  {
    SubmitLoaded(r.lane, r.sub, s.h.clock, s.h.nonces.Keys, s.store[r.challengeId].state)
  }

  ghost function OutcomeOf(H: Hash, c: Config, s: System, r: Service.Request): Outcome
    requires r.LaneSubmit? && r.challengeId in s.store && |s.store[r.challengeId].state.lanes| == LANES
  {
    Decide(c, s.store[r.challengeId].state, r.challengeId, r.lane, r.sub, s.h.clock,
           FlightAccepted(H, r.challengeId, LoadedFlight(s, r)))
  }

  lemma {:induction false} HandledAs(H: Hash, c: Config, s: System, r: Service.Request)
    requires Service.WellFormed(c, WorldOf(s)) && r.LaneSubmit? && Live(s, r.challengeId)
    ensures |s.store[r.challengeId].state.lanes| == LANES
    ensures Service.Handle(H, c, WorldOf(s), r, s.h.clock) ==
      Service.Apply(WorldOf(s), r.challengeId, r.lane, s.h.clock, OutcomeOf(H, c, s, r))
  {
    assert Shape(c, WorldOf(s).store[r.challengeId].state);
    assert FlightAccepted(H, r.challengeId, LoadedFlight(s, r)) == Service.Accepts(H, WorldOf(s), r);
  }

  lemma {:induction false} EffectAs(c: Config, h: History, challengeId: Digest, f: Flight, accepted: bool)
    requires f.SubmitLoaded? && |f.loaded.lanes| == LANES
    ensures var outcome := Decide(c, f.loaded, challengeId, f.submitLane, f.sub, f.receivedAt, accepted);
      var e := SubmitEffect(c, h, challengeId, f, accepted);
      e.follow == FollowOf(f.loaded, f.receivedAt, outcome) && e.h == h.(log := e.h.log)
  {
  }

  /** The computation's step. */
  lemma {:induction false} ComputeStep(H: Hash, c: Config, s: System, r: Service.Request, id: nat, s2: System)
    returns (s3: System)
    requires id !in s.flights && r.LaneSubmit? && r.challengeId in s.store
    requires |s.store[r.challengeId].state.lanes| == LANES && NoncesDrawn(s)
    requires s2 == With(s, id, r.challengeId, LoadedFlight(s, r))
    ensures Enabled(H, c, s2, ComputeSubmit(id)) && s3 == Next(H, c, s2, ComputeSubmit(id))
    ensures var follow := FollowOf(s.store[r.challengeId].state, s.h.clock, OutcomeOf(H, c, s, r));
      s3.flights == if follow.Some? then s.flights[id := (r.challengeId, follow.value)] else s.flights
    ensures s3 == s.(h := s3.h, flights := s3.flights) && s3.h == s.h.(log := s3.h.log)
  {
    var state := s.store[r.challengeId].state;
    assert r.lane < |state.lanes| ==> Drawn(s, state.lanes[r.lane]);
    EffectAs(c, s.h, r.challengeId, LoadedFlight(s, r), FlightAccepted(H, r.challengeId, LoadedFlight(s, r)));
    s3 := Next(H, c, s2, ComputeSubmit(id));
    assert s.flights[id := s2.flights[id]] - {id} == s.flights;
  }

  /** From the outcome to the end of the request. */
  lemma {:induction false} FinishSteps(H: Hash, c: Config, s: System, id: nat, challengeId: Digest, state: BenchState,
                                       outcome: Outcome)
    returns (events: seq<Event>, t: System)
    requires var follow := FollowOf(state, s.h.clock, outcome);
      if follow.Some? then id in s.flights && s.flights[id] == (challengeId, follow.value) else id !in s.flights
    ensures Leads(H, c, s, events, t)
    ensures t == s.(store := t.store, issued := t.issued, flights := s.flights - {id})
    ensures match outcome
      case Refused(_) => t.store == s.store && t.issued == s.issued
      case Dropped => t.store == s.store - {challengeId} && t.issued == s.issued
      case Progress(next) =>
        && t.store == s.store[challengeId := Entry(next, s.h.clock + AtLeast1(state.deadlineMs - s.h.clock))]
        && t.issued == s.issued
      case Closed(final, attestation) =>
        t.store == s.store - {challengeId} && t.issued == RecordIssued(s.issued, Issued(attestation, final))
  {
    match outcome
    case Refused(_) => events, t := [], s;
    case Dropped =>
      t := DropStep(H, c, s, id, challengeId);
      events := [Drop(id)];
    case Progress(next) =>
      t := StoreStep(H, c, s, id, challengeId, next, state.deadlineMs - s.h.clock);
      events := [Store(id)];
    case Closed(final, attestation) =>
      t := CloseSteps(H, c, s, id, challengeId, final, attestation);
      events := [Issue(id), Drop(id)];
  }

  /** ... which leaves the world as the one-step model's use of the outcome does. */
  lemma {:induction false} OutcomeSteps(H: Hash, c: Config, s: System, s3: System, id: nat, challengeId: Digest,
                                        lane: nat, outcome: Outcome)
    returns (events: seq<Event>, t: System)
    requires id !in s.flights && challengeId in s.store && |s.store[challengeId].state.lanes| == LANES
    requires var follow := FollowOf(s.store[challengeId].state, s.h.clock, outcome);
      s3.flights == if follow.Some? then s.flights[id := (challengeId, follow.value)] else s.flights
    requires s3 == s.(h := s3.h, flights := s3.flights) && s3.h == s.h.(log := s3.h.log)
    ensures Leads(H, c, s3, events, t)
    ensures WorldOf(t) == Service.Apply(WorldOf(s), challengeId, lane, s.h.clock, outcome).0
    ensures t.flights == s.flights && t.h.clock == s.h.clock && t.h.nonces == s.h.nonces
  {
    events, t := FinishSteps(H, c, s3, id, challengeId, s.store[challengeId].state, outcome);
    assert t.flights == s.flights;
    if outcome.Closed? {
      RecordsAlike(s.issued, Issued(outcome.attestation, outcome.final));
    }
  }

  /** From a loaded submission to the end of its request. */
  lemma {:induction false} LoadedIsSteps(H: Hash, c: Config, s: System, r: Service.Request, id: nat, s2: System)
    returns (events: seq<Event>, t: System)
    requires Service.WellFormed(c, WorldOf(s)) && id !in s.flights && r.LaneSubmit? && Live(s, r.challengeId)
    requires NoncesDrawn(s) && s2 == With(s, id, r.challengeId, LoadedFlight(s, r))
    ensures Leads(H, c, s2, events, t) && Reaches(H, c, s, r, t)
  {
    HandledAs(H, c, s, r);
    var s3 := ComputeStep(H, c, s, r, id, s2);
    var rest;
    rest, t := OutcomeSteps(H, c, s, s3, id, r.challengeId, r.lane, OutcomeOf(H, c, s, r));
    LeadsFirst(H, c, s2, ComputeSubmit(id), rest, t);
    events := [ComputeSubmit(id)] + rest;
  }

  lemma {:induction false} SubmitIsSteps(H: Hash, c: Config, s: System, r: Service.Request, id: nat)
    returns (events: seq<Event>, t: System)
    requires Service.WellFormed(c, WorldOf(s)) && id !in s.flights
    requires r.LaneSubmit? && NoncesDrawn(s)
    ensures Leads(H, c, s, events, t) && Reaches(H, c, s, r, t)
  {
    var receive, load := Receive(id, r.challengeId, r.lane, r.sub), LoadSubmit(id);
    var s1 := Next(H, c, s, receive);
    var s2 := Next(H, c, s1, load);
    var rest: seq<Event>;
    if Live(s, r.challengeId) {
      assert s2.flights == s.flights[id := s2.flights[id]];
      rest, t := LoadedIsSteps(H, c, s, r, id, s2);
    } else {
      rest, t := [], s2;
      assert t.flights == s.flights;
    }
    LeadsFirst(H, c, s1, load, rest, t);
    LeadsFirst(H, c, s, receive, [load] + rest, t);
    events := [receive] + ([load] + rest);
  }

  lemma {:induction false} OneStepIsSteps(H: Hash, c: Config, s: System, r: Service.Request, id: nat)
    returns (events: seq<Event>, t: System)
    requires Service.WellFormed(c, WorldOf(s)) && id !in s.flights
    requires Fresh(s, r) && NoncesDrawn(s)
    ensures Leads(H, c, s, events, t) && Reaches(H, c, s, r, t)
  {
    match r
    case Challenge(_, _, _, _) => events, t := ChallengeIsSteps(H, c, s, r, id);
    case LaneStart(_, _, _) => events, t := StartIsSteps(H, c, s, r, id);
    case LaneSubmit(_, _, _) => events, t := SubmitIsSteps(H, c, s, r, id);
  }

  lemma {:induction false} InvariantIsWellFormed(H: Hash, c: Config, s: System)
    requires c.checkpoints > 0 && Invariant(H, c, s)
    ensures Service.WellFormed(c, WorldOf(s)) && NoncesDrawn(s)
  {
    forall id | id in s.store ensures Shape(c, s.store[id].state) {
      assert Good(H, c, s.h, id, s.store[id].state);
    }
    forall id, l | id in s.store && 0 <= l < |s.store[id].state.lanes| ensures Drawn(s, s.store[id].state.lanes[l]) {
      assert Good(H, c, s.h, id, s.store[id].state);
      assert LaneBacked(H, s.h, id, s.store[id].state, l);
      assert LaneShape(c, s.store[id].state.lanes[l]);
    }
  }

  /**
   After any run of the interleaved model, whatever is still in flight, a request handled without
   anything in between leaves store, attestations and used ids exactly as the one-step model says.
   */
  lemma {:induction false} UndisturbedIsOneStep(H: Hash, c: Config, clock: int, past: seq<Event>, r: Service.Request,
                                                id: nat)
    returns (events: seq<Event>, t: System)
    requires c.checkpoints > 0 && IsRun(H, c, clock, past)
    requires id !in After(H, c, clock, past).flights && Fresh(After(H, c, clock, past), r)
    ensures Leads(H, c, After(H, c, clock, past), events, t) && Reaches(H, c, After(H, c, clock, past), r, t)
  {
    RunKeeps(H, c, clock, past);
    InvariantIsWellFormed(H, c, After(H, c, clock, past));
    events, t := OneStepIsSteps(H, c, After(H, c, clock, past), r, id);
  }
}
