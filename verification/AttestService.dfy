/** The benchmark handlers run one at a time: a challenge that is over stays over, and closes at most once. */
module AttestService {
  import opened Hashing
  import opened Chain
  import opened Lane
  import opened KeyLifetime
  import opened AttestState

  /** The key store, the attestations table, and every challenge id ever made up. */
  datatype World = World(store: map<Digest, Entry>, issued: seq<Attestation>, used: set<Digest>)

  datatype Request =
    | Challenge(challengeId: Digest, seed: Digest, post: ChallengePost, limited: bool)
    | LaneStart(challengeId: Digest, lane: nat, nonce: Nonce)
    | LaneSubmit(challengeId: Digest, lane: nat, sub: Submission)

  datatype Response =
    | Created
    | LaneStarted(nonce: Nonce)
    | LaneVerified(elapsedMs: int)
    | Attested(attestation: Attestation)
    | Failed(error: Error)

  predicate Live(w: World, challengeId: Digest, now: int) {
    challengeId in w.store && Unexpired(w.store[challengeId].expiresAt, now)
  }

  ghost predicate WellFormed(c: Config, w: World) {
    c.checkpoints > 0 && forall id :: id in w.store ==> Shape(c, w.store[id].state)
  }

  // ------------------------------------------------------------ the handlers as functions

  function HandleChallenge(c: Config, w: World, r: Request, now: int): (World, Response)
    requires r.Challenge?
  {
    var refusal := ChallengeRefusal(r.post, r.limited);
    if refusal.Some? then (w, Failed(refusal.value))
    else
      var s := NewState(c, r.post.signer, r.seed, r.post.coreCount, now);
      (w.(store := w.store[r.challengeId := Entry(s, now + AtLeast1(c.challengeTtlMs))],
        used := w.used + {r.challengeId}),
       Created)
  }

  function HandleStart(c: Config, w: World, r: Request, now: int): (World, Response)
    requires r.LaneStart? && forall id :: id in w.store ==> |w.store[id].state.lanes| == LANES
  {
    if !Live(w, r.challengeId, now) then (w, Failed(UnknownChallenge))
    else
      var s := w.store[r.challengeId].state;
      var started := StartOn(s, r.lane, now, r.nonce);
      if started.0.None? then (w, Failed(started.1.value))
      else
        (w.(store := w.store[r.challengeId := Entry(started.0.value, now + AtLeast1(s.deadlineMs - now))]),
         LaneStarted(r.nonce))
  }

  /** What an outcome does to the store and the attestations. */
  function Apply(w: World, challengeId: Digest, lane: nat, now: int, outcome: Outcome): (World, Response)
    requires challengeId in w.store && |w.store[challengeId].state.lanes| == LANES
  {
    match outcome
    case Refused(error) => (w, Failed(error))
    case Dropped => (w.(store := w.store - {challengeId}), Failed(BenchFailed))
    case Progress(next) =>
      var s := w.store[challengeId].state;
      (w.(store := w.store[challengeId := Entry(next, now + AtLeast1(s.deadlineMs - now))]),
       LaneVerified(Elapsed(s, if lane < LANES then lane else 0, now)))
    case Closed(_, attestation) =>
      (w.(store := w.store - {challengeId}, issued := Record(w.issued, attestation)), Attested(attestation))
  }

  function HandleSubmit(c: Config, w: World, r: Request, now: int, accepted: bool): (World, Response)
    requires r.LaneSubmit? && forall id :: id in w.store ==> |w.store[id].state.lanes| == LANES
  {
    if !Live(w, r.challengeId, now) then (w, Failed(UnknownChallenge))
    else
      Apply(w, r.challengeId, r.lane, now,
            Decide(c, w.store[r.challengeId].state, r.challengeId, r.lane, r.sub, now, accepted))
  }

  /** The verifier's answer to a submission on the stored state. */
  ghost predicate Accepts(H: Hash, w: World, r: Request) {
    && r.LaneSubmit? && r.challengeId in w.store
    && var s := w.store[r.challengeId].state;
       s.checkpoints > 0 && r.lane < |s.lanes| && ProofAccepted(H, s, r.challengeId, r.lane, r.sub)
  }

  ghost function Handle(H: Hash, c: Config, w: World, r: Request, now: int): (World, Response)
    requires WellFormed(c, w)
  {
    match r
    case Challenge(_, _, _, _) => HandleChallenge(c, w, r, now)
    case LaneStart(_, _, _) => HandleStart(c, w, r, now)
    case LaneSubmit(_, _, _) => HandleSubmit(c, w, r, now, Accepts(H, w, r))
  }

  // ------------------------------------------------------------ the service

  /** Drawing the segments to open comes to an end for the proofs submitted on a lane. */
  ghost predicate DrawEnds(H: Hash, w: World, challengeId: Digest, lane: nat, sub: Submission) {
    challengeId in w.store ==>
      var s := w.store[challengeId].state;
      s.checkpoints > 0 && lane < |s.lanes| && AllShaped(s.lanes[lane].workers, sub.proofs) ==>
        Drawable(H, ParamsOf(s, lane), challengeId, sub.proofs)
  }

  class BenchService {
    const config: Config
    var store: map<Digest, Entry>
    var issued: seq<Attestation>
    ghost var used: set<Digest>

    constructor (config: Config)
      requires config.checkpoints > 0
      ensures this.config == config && Value() == World(map[], [], {})
    {
      this.config := config;
      store, issued, used := map[], [], {};
    }

    ghost function Value(): World
      reads this
    {
      World(store, issued, used)
    }

    method PostChallenge(challengeId: Digest, seed: Digest, post: ChallengePost, limited: bool, now: int)
      returns (r: Response)
      requires WellFormed(config, Value()) && challengeId !in used
      modifies this
      ensures (Value(), r) ==
        HandleChallenge(config, old(Value()), Challenge(challengeId, seed, post, limited), now)
      ensures WellFormed(config, Value())
    {
      if !post.registered {
        return Failed(UnknownProvider);
      }
      if post.model != "cpu/v1" {
        return Failed(Validation);
      }
      if post.arch != "x64" {
        return Failed(ArchUnsupported);
      }
      if post.coreCount < 1 || post.coreCount > MAX_WORKERS {
        return Failed(Validation);
      }
      if post.ramGib <= 0.0 {
        return Failed(Validation);
      }
      if post.cpuModel.Some? && |post.cpuModel.value| > 128 {
        return Failed(Validation);
      }
      if post.signedAt.None? {
        return Failed(Validation);
      }
      if limited {
        return Failed(RateLimited);
      }
      NewShape(config, post.signer, seed, post.coreCount, now);
      var state := NewState(config, post.signer, seed, post.coreCount, now);
      store := store[challengeId := Entry(state, now + AtLeast1(config.challengeTtlMs))];
      used := used + {challengeId};
      return Created;
    }

    method PostLaneStart(challengeId: Digest, lane: nat, nonce: Nonce, now: int) returns (r: Response)
      requires WellFormed(config, Value())
      modifies this
      ensures (Value(), r) == HandleStart(config, old(Value()), LaneStart(challengeId, lane, nonce), now)
      ensures WellFormed(config, Value())
    {
      if challengeId !in store || !Unexpired(store[challengeId].expiresAt, now) {
        return Failed(UnknownChallenge);
      }
      var state := store[challengeId].state;
      if now > state.deadlineMs {
        return Failed(Expired);
      }
      if lane >= LANES || state.lanes[lane].status != Pending {
        return Failed(Validation);
      }
      for prev := 0 to lane
        invariant forall k :: 0 <= k < prev ==> state.lanes[k].status == Done
      {
        if state.lanes[prev].status != Done {
          return Failed(Validation);
        }
      }
      StartKeepsShape(config, state, lane, now, nonce);
      var lanes := state.lanes;
      lanes := lanes[lane := lanes[lane].(status := Started, issuedAt := Some(now), nonce := Some(nonce))];
      store := store[challengeId := Entry(state.(lanes := lanes), now + AtLeast1(state.deadlineMs - now))];
      return LaneStarted(nonce);
    }

    method PostLaneSubmit(H: Hash, challengeId: Digest, lane: nat, sub: Submission, now: int) returns (r: Response)
      requires WellFormed(config, Value()) && DrawEnds(H, Value(), challengeId, lane, sub)
      modifies this
      ensures (Value(), r) == HandleSubmit(config, old(Value()), LaneSubmit(challengeId, lane, sub), now,
                                           Accepts(H, old(Value()), LaneSubmit(challengeId, lane, sub)))
      ensures WellFormed(config, Value())
    {
      if challengeId !in store || !Unexpired(store[challengeId].expiresAt, now) {
        return Failed(UnknownChallenge);
      }
      var state := store[challengeId].state;
      var refusal := Refusal(state, challengeId, lane, sub, now);
      if refusal.Some? {
        return Failed(refusal.value);
      }
      var elapsedMs := now - state.lanes[lane].issuedAt.value;
      if elapsedMs > config.maxLaneMs {
        store := store - {challengeId};
        return Failed(BenchFailed);
      }
      var verdict, cost := VerifyLane(H, ParamsOf(state, lane), state.lanes[lane].workers, challengeId, sub.proofs);
      if verdict.Rejected? {
        store := store - {challengeId};
        return Failed(BenchFailed);
      }
      r := Complete(challengeId, lane, elapsedMs, now);
    }

    /** After an accepted proof: store the progress, or close the challenge into an attestation. */
    method Complete(challengeId: Digest, lane: nat, elapsedMs: int, now: int) returns (r: Response)
      requires WellFormed(config, Value()) && challengeId in store && lane < LANES
      requires store[challengeId].state.lanes[lane].status == Started
      requires elapsedMs == Elapsed(store[challengeId].state, lane, now) <= config.maxLaneMs
      modifies this
      ensures (Value(), r) == Apply(old(Value()), challengeId, lane, now,
                                    Conclude(config, old(Value()).store[challengeId].state, challengeId, lane, now,
                                      true))
      ensures WellFormed(config, Value())
    {
      var state := store[challengeId].state;
      FinishKeepsShape(config, state, lane, elapsedMs);
      var next := Finish(state, lane, elapsedMs);
      if !AllDone(next) {
        store := store[challengeId := Entry(next, now + AtLeast1(state.deadlineMs - now))];
        return LaneVerified(elapsedMs);
      }
      var attestation := Attest(config, next, challengeId, now);
      if attestation !in issued {
        issued := issued + [attestation];
      }
      store := store - {challengeId};
      return Attested(attestation);
    }
  }

  // ------------------------------------------------------------ runs

  datatype Call = Call(request: Request, now: int)

  /** Requests one after the other: the clock does not run backwards and new challenge ids are new. */
  ghost predicate IsRun(H: Hash, c: Config, w: World, calls: seq<Call>, from: int)
    requires WellFormed(c, w)
    decreases |calls|
  {
    calls != [] ==>
    && from <= calls[0].now
    && (calls[0].request.Challenge? ==> calls[0].request.challengeId !in w.used)
    && (StepWellFormed(H, c, w, calls[0].request, calls[0].now);
        IsRun(H, c, Handle(H, c, w, calls[0].request, calls[0].now).0, calls[1..], calls[0].now))
  }

  ghost function After(H: Hash, c: Config, w: World, calls: seq<Call>, from: int): (r: World)
    requires WellFormed(c, w) && IsRun(H, c, w, calls, from)
    ensures WellFormed(c, r)
    decreases |calls|
  {
    if calls == [] then w
    else
      StepWellFormed(H, c, w, calls[0].request, calls[0].now);
      After(H, c, Handle(H, c, w, calls[0].request, calls[0].now).0, calls[1..], calls[0].now)
  }

  /** Every request keeps every stored state well formed. */
  lemma {:induction false} StepWellFormed(H: Hash, c: Config, w: World, r: Request, now: int)
    requires WellFormed(c, w)
    ensures WellFormed(c, Handle(H, c, w, r, now).0)
  {
    match r
    case Challenge(_, seed, post, limited) =>
      if ChallengeRefusal(post, limited).None? {
        NewShape(c, post.signer, seed, post.coreCount, now);
      }
    case LaneStart(id, lane, nonce) =>
      if Live(w, id, now) && StartOn(w.store[id].state, lane, now, nonce).0.Some? {
        StartKeepsShape(c, w.store[id].state, lane, now, nonce);
      }
    case LaneSubmit(id, lane, sub) =>
      if Live(w, id, now) && Decide(c, w.store[id].state, id, lane, sub, now, Accepts(H, w, r)).Progress? {
        FinishKeepsShape(c, w.store[id].state, lane, Elapsed(w.store[id].state, lane, now));
      }
  }

  /** A challenge id that was used and is not live: failed, closed or expired. */
  ghost predicate Over(w: World, challengeId: Digest, now: int) {
    challengeId in w.used && !Live(w, challengeId, now)
  }

  ghost function AttestationsOf(issued: seq<Attestation>, challengeId: Digest): seq<Attestation> {
    if issued == [] then []
    else
      var n := |issued| - 1;
      AttestationsOf(issued[..n], challengeId) + if issued[n].challengeId == challengeId then [issued[n]] else []
  }

  lemma {:induction false} OverStep(H: Hash, c: Config, w: World, r: Request, now: int, id: Digest)
    requires WellFormed(c, w) && Over(w, id, now)
    requires r.Challenge? ==> r.challengeId !in w.used
    ensures var v := Handle(H, c, w, r, now).0;
      Over(v, id, now) && AttestationsOf(v.issued, id) == AttestationsOf(w.issued, id)
  {
    var v := Handle(H, c, w, r, now).0;
    if v.issued != w.issued {
      assert v.issued[..|w.issued|] == w.issued;
    }
  }

  /** A challenge that is over never changes again: it stays over, and no attestation is added for it. */
  lemma {:induction false} OverForever(H: Hash, c: Config, w: World, calls: seq<Call>, from: int, id: Digest)
    requires WellFormed(c, w) && IsRun(H, c, w, calls, from) && Over(w, id, from)
    ensures var v := After(H, c, w, calls, from);
      && AttestationsOf(v.issued, id) == AttestationsOf(w.issued, id)
      && Over(v, id, if calls == [] then from else calls[|calls| - 1].now)
    decreases |calls|
  {
    if calls != [] {
      StepWellFormed(H, c, w, calls[0].request, calls[0].now);
      OverStep(H, c, w, calls[0].request, calls[0].now, id);
      var v := Handle(H, c, w, calls[0].request, calls[0].now).0;
      OverForever(H, c, v, calls[1..], calls[0].now, id);
    }
  }

  /** Failing a lane or closing a challenge ends it. */
  lemma {:induction false} FailureAndCloseEnd(H: Hash, c: Config, w: World, r: Request, now: int)
    requires WellFormed(c, w) && r.LaneSubmit? && r.challengeId in w.used
    requires var response := Handle(H, c, w, r, now).1;
      response.Attested? || response == Failed(BenchFailed)
    ensures Over(Handle(H, c, w, r, now).0, r.challengeId, now)
  {
  }

  /** Ids in the store and on attestations were all made up before, and no attested challenge is stored. */
  ghost predicate Accounted(w: World) {
    && w.store.Keys <= w.used
    && (forall k :: 0 <= k < |w.issued| ==> w.issued[k].challengeId in w.used - w.store.Keys)
    && forall j, k :: 0 <= j < k < |w.issued| ==> w.issued[j].challengeId != w.issued[k].challengeId
  }

  lemma {:induction false} StepAccounted(H: Hash, c: Config, w: World, r: Request, now: int)
    requires WellFormed(c, w) && Accounted(w)
    requires r.Challenge? ==> r.challengeId !in w.used
    ensures Accounted(Handle(H, c, w, r, now).0)
  {
    var v := Handle(H, c, w, r, now).0;
    if r.LaneSubmit? && v.issued != w.issued {
      assert v.issued == w.issued + [v.issued[|w.issued|]];
      assert v.issued[|w.issued|].challengeId == r.challengeId;
    }
  }

  lemma {:induction false} RunAccounted(H: Hash, c: Config, w: World, calls: seq<Call>, from: int)
    requires WellFormed(c, w) && Accounted(w) && IsRun(H, c, w, calls, from)
    ensures Accounted(After(H, c, w, calls, from))
    decreases |calls|
  {
    if calls != [] {
      StepWellFormed(H, c, w, calls[0].request, calls[0].now);
      StepAccounted(H, c, w, calls[0].request, calls[0].now);
      RunAccounted(H, c, Handle(H, c, w, calls[0].request, calls[0].now).0, calls[1..], calls[0].now);
    }
  }

  /** With requests handled one at a time, a challenge gets at most one attestation. */
  lemma {:induction false} AtMostOneAttestation(H: Hash, c: Config, calls: seq<Call>, from: int, j: nat, k: nat)
    requires c.checkpoints > 0 && IsRun(H, c, World(map[], [], {}), calls, from)
    requires j < |After(H, c, World(map[], [], {}), calls, from).issued|
    requires k < |After(H, c, World(map[], [], {}), calls, from).issued|
    ensures var issued := After(H, c, World(map[], [], {}), calls, from).issued;
      issued[j].challengeId == issued[k].challengeId ==> j == k
  {
    RunAccounted(H, c, World(map[], [], {}), calls, from);
  }
}
