/** A provider that computes its lanes and answers in time gets its attestation. */
module AttestHonest {
  import opened Hashing
  import opened Chain
  import opened Lane
  import opened AttestState
  import opened AttestService

  /** When a lane was started, under which nonce, and when its proof was received. */
  datatype Timing = Timing(nonce: Nonce, issuedAt: int, receivedAt: int)

  /** A challenge as its provider sees it. */
  datatype Plan = Plan(
    challengeId: Digest, providerId: Address, seed: Digest, coreCount: nat, openedAt: int, lanes: seq<Timing>)

  /** Lanes in order, each within the lane limit, the last one received by the deadline. */
  ghost predicate InTime(c: Config, p: Plan) {
    && |p.lanes| == LANES && 1 <= p.coreCount <= MAX_WORKERS
    && p.openedAt <= p.lanes[0].issuedAt
    && (forall l :: 0 <= l < LANES ==>
          p.lanes[l].issuedAt <= p.lanes[l].receivedAt <= p.openedAt + c.challengeTtlMs
          && p.lanes[l].receivedAt - p.lanes[l].issuedAt <= c.maxLaneMs)
    && (forall l :: 0 < l < LANES ==> p.lanes[l - 1].receivedAt <= p.lanes[l].issuedAt)
  }

  function ParamsFor(c: Config, p: Plan, l: nat): LaneParams
    requires l < |p.lanes|
  {
    LaneParams(p.seed, p.lanes[l].nonce, p.providerId, LaneName(l), c.chainLen, c.checkpoints, c.samples)
  }

  /** Drawing the segments of the honest lanes comes to an end. */
  ghost predicate Drawing(H: Hash, c: Config, p: Plan) {
    && c.checkpoints > 0
    && forall l :: 0 <= l < |p.lanes| ==>
         HonestDrawable(H, ParamsFor(c, p, l), LaneWorkers(p.coreCount, l), p.challengeId)
  }

  /** Lane k once l lanes are done, and lane l started or not. */
  function LaneAt(p: Plan, l: nat, started: bool, k: nat): LaneState
    requires k < |p.lanes|
  {
    var workers, t := LaneWorkers(p.coreCount, k), p.lanes[k];
    if k < l then LaneState(workers, Done, Some(t.issuedAt), Some(t.nonce), Some(t.receivedAt - t.issuedAt))
    else if k == l && started then LaneState(workers, Started, Some(t.issuedAt), Some(t.nonce), None)
    else LaneState(workers, Pending, None, None, None)
  }

  function StateAt(c: Config, p: Plan, l: nat, started: bool): BenchState
    requires |p.lanes| == LANES
  {
    NewState(c, p.providerId, p.seed, p.coreCount, p.openedAt).(
      lanes := seq(LANES, k requires 0 <= k < LANES => LaneAt(p, l, started, k)))
  }

  /** The store holds the plan's challenge with l lanes done, until the deadline at least. */
  ghost predicate Stands(c: Config, w: World, p: Plan, l: nat, started: bool)
    requires |p.lanes| == LANES
  {
    && p.challengeId in w.store
    && w.store[p.challengeId].state == StateAt(c, p, l, started)
    && w.store[p.challengeId].expiresAt >= p.openedAt + c.challengeTtlMs
  }

  /** The request of a provider with a profile. */
  function OpenRequest(p: Plan): Request {
    Challenge(p.challengeId, p.seed,
              ChallengePost(p.providerId, true, "cpu/v1", "x64", p.coreCount, 1.0, None, Some(p.openedAt)), false)
  }

  function StartRequest(p: Plan, l: nat): Request
    requires l < |p.lanes|
  {
    LaneStart(p.challengeId, l, p.lanes[l].nonce)
  }

  ghost function HonestSubmission(H: Hash, c: Config, p: Plan, l: nat): Submission
    requires l < |p.lanes| && Drawing(H, c, p)
  {
    Submission(p.providerId, p.challengeId, l,
               HonestLane(H, ParamsFor(c, p, l), LaneWorkers(p.coreCount, l), p.challengeId))
  }

  ghost function SubmitRequest(H: Hash, c: Config, p: Plan, l: nat): Request
    requires l < |p.lanes| && Drawing(H, c, p)
  {
    LaneSubmit(p.challengeId, l, HonestSubmission(H, c, p, l))
  }

  // ------------------------------------------------------------ one request at a time

  lemma {:induction false} OpenWorks(H: Hash, c: Config, w: World, p: Plan)
    requires WellFormed(c, w) && InTime(c, p)
    ensures var r := Handle(H, c, w, OpenRequest(p), p.openedAt);
      r.1.Created? && Stands(c, r.0, p, 0, false) && r.0.issued == w.issued
  {
    assert NewState(c, p.providerId, p.seed, p.coreCount, p.openedAt).lanes == StateAt(c, p, 0, false).lanes;
  }

  lemma {:induction false} StartWorks(H: Hash, c: Config, w: World, p: Plan, l: nat)
    requires WellFormed(c, w) && InTime(c, p) && l < LANES && Stands(c, w, p, l, false)
    ensures var r := Handle(H, c, w, StartRequest(p, l), p.lanes[l].issuedAt);
      r.1.LaneStarted? && Stands(c, r.0, p, l, true) && r.0.issued == w.issued
  {
    var s, t := StateAt(c, p, l, false), p.lanes[l];
    var started := s.lanes[l := s.lanes[l].(status := Started, issuedAt := Some(t.issuedAt), nonce := Some(t.nonce))];
    assert started == StateAt(c, p, l, true).lanes;
  }

  /** The honest proof is accepted on the state that stands. */
  lemma {:induction false} HonestAccepted(H: Hash, c: Config, w: World, p: Plan, l: nat)
    requires InTime(c, p) && Drawing(H, c, p) && l < LANES && Stands(c, w, p, l, true)
    ensures Accepts(H, w, SubmitRequest(H, c, p, l))
  {
    var s := w.store[p.challengeId].state;
    assert ParamsOf(s, l) == ParamsFor(c, p, l);
    Completeness(H, ParamsFor(c, p, l), LaneWorkers(p.coreCount, l), p.challengeId);
  }

  lemma {:induction false} FinishIs(c: Config, p: Plan, l: nat)
    requires InTime(c, p) && l < LANES
    ensures Finish(StateAt(c, p, l, true), l, p.lanes[l].receivedAt - p.lanes[l].issuedAt) ==
      StateAt(c, p, l + 1, false)
    ensures AllDone(StateAt(c, p, l + 1, false)) <==> l + 1 == LANES
  {
    var s, t := StateAt(c, p, l, true), p.lanes[l];
    var done := s.lanes[l := s.lanes[l].(status := Done, elapsedMs := Some(t.receivedAt - t.issuedAt))];
    assert done == StateAt(c, p, l + 1, false).lanes;
    if l + 1 < LANES {
      assert StateAt(c, p, l + 1, false).lanes[l + 1].status == Pending;
    }
  }

  /** What the handler decides on an honest submission. */
  lemma {:induction false} HonestOutcome(c: Config, p: Plan, l: nat, proofs: seq<WorkerProof>)
    requires InTime(c, p) && l < LANES
    ensures var sub := Submission(p.providerId, p.challengeId, l, proofs);
      Decide(c, StateAt(c, p, l, true), p.challengeId, l, sub, p.lanes[l].receivedAt, true) ==
      if l + 1 == LANES
      then Closed(StateAt(c, p, LANES, false),
        Attest(c, StateAt(c, p, LANES, false), p.challengeId, p.lanes[l].receivedAt))
      else Progress(StateAt(c, p, l + 1, false))
  {
    FinishIs(c, p, l);
  }

  lemma {:induction false} SubmitWorks(H: Hash, c: Config, w: World, p: Plan, l: nat)
    requires WellFormed(c, w) && InTime(c, p) && Drawing(H, c, p) && l < LANES && Stands(c, w, p, l, true)
    ensures var r := Handle(H, c, w, SubmitRequest(H, c, p, l), p.lanes[l].receivedAt);
      if l + 1 == LANES
      then r.0.issued == Record(w.issued, Attest(c, StateAt(c, p, LANES, false), p.challengeId, p.lanes[l].receivedAt))
      else r.1.LaneVerified? && Stands(c, r.0, p, l + 1, false) && r.0.issued == w.issued
  {
    HonestAccepted(H, c, w, p, l);
    HonestOutcome(c, p, l, HonestSubmission(H, c, p, l).proofs);
  }

  // ------------------------------------------------------------ the whole challenge

  /** One lane: its start and its submission. */
  ghost function AfterLane(H: Hash, c: Config, w: World, p: Plan, l: nat): (v: World)
    requires WellFormed(c, w) && InTime(c, p) && Drawing(H, c, p) && l < LANES
    ensures WellFormed(c, v)
  {
    StepWellFormed(H, c, w, StartRequest(p, l), p.lanes[l].issuedAt);
    var started := Handle(H, c, w, StartRequest(p, l), p.lanes[l].issuedAt).0;
    StepWellFormed(H, c, started, SubmitRequest(H, c, p, l), p.lanes[l].receivedAt);
    Handle(H, c, started, SubmitRequest(H, c, p, l), p.lanes[l].receivedAt).0
  }

  lemma {:induction false} LanePasses(H: Hash, c: Config, w: World, p: Plan, l: nat)
    requires WellFormed(c, w) && InTime(c, p) && Drawing(H, c, p) && l < LANES && Stands(c, w, p, l, false)
    ensures var v := AfterLane(H, c, w, p, l);
      if l + 1 == LANES
      then v.issued == Record(w.issued, Attest(c, StateAt(c, p, LANES, false), p.challengeId, p.lanes[l].receivedAt))
      else Stands(c, v, p, l + 1, false) && v.issued == w.issued
  {
    StartWorks(H, c, w, p, l);
    StepWellFormed(H, c, w, StartRequest(p, l), p.lanes[l].issuedAt);
    SubmitWorks(H, c, Handle(H, c, w, StartRequest(p, l), p.lanes[l].issuedAt).0, p, l);
  }

  /** Opening, then the first l lanes. */
  ghost function WorldAt(H: Hash, c: Config, w: World, p: Plan, l: nat): (v: World)
    requires WellFormed(c, w) && InTime(c, p) && Drawing(H, c, p) && l <= LANES
    ensures WellFormed(c, v)
  {
    if l == 0 then
      StepWellFormed(H, c, w, OpenRequest(p), p.openedAt);
      Handle(H, c, w, OpenRequest(p), p.openedAt).0
    else
      AfterLane(H, c, WorldAt(H, c, w, p, l - 1), p, l - 1)
  }

  lemma {:induction false} LanesPass(H: Hash, c: Config, w: World, p: Plan, l: nat)
    requires WellFormed(c, w) && InTime(c, p) && Drawing(H, c, p) && l < LANES
    ensures Stands(c, WorldAt(H, c, w, p, l), p, l, false) && WorldAt(H, c, w, p, l).issued == w.issued
  {
    if l == 0 {
      OpenWorks(H, c, w, p);
    } else {
      LanesPass(H, c, w, p, l - 1);
      LanePasses(H, c, WorldAt(H, c, w, p, l - 1), p, l - 1);
    }
  }

  /** The attestation the plan leads to. */
  function AttestationFor(c: Config, p: Plan): Attestation
    requires |p.lanes| == LANES
  {
    Attest(c, StateAt(c, p, LANES, false), p.challengeId, p.lanes[LANES - 1].receivedAt)
  }

  lemma {:induction false} ScoresFor(c: Config, p: Plan, l: nat)
    requires |p.lanes| == LANES && l < LANES
    ensures |AttestationFor(c, p).scores| == LANES
    ensures var elapsed := p.lanes[l].receivedAt - p.lanes[l].issuedAt;
      AttestationFor(c, p).scores[l] ==
      LaneScore(LaneWorkers(p.coreCount, l), c.chainLen, if elapsed > 1 then elapsed else 1)
  {
  }

  /**
   Whatever the hash, on a new challenge a provider that starts the lanes in order and submits the reference prover's
   proofs in time ends with exactly one new attestation, scored by its workers and elapsed times.
   */
  lemma {:induction false} HonestProviderAttested(H: Hash, c: Config, w: World, p: Plan)
    requires WellFormed(c, w) && InTime(c, p) && Drawing(H, c, p)
    requires forall a :: a in w.issued ==> a.challengeId != p.challengeId
    ensures WorldAt(H, c, w, p, LANES).issued == w.issued + [AttestationFor(c, p)]
    ensures AttestationFor(c, p).providerId == p.providerId && |AttestationFor(c, p).scores| == LANES
    ensures forall l :: 0 <= l < LANES ==>
      var elapsed := p.lanes[l].receivedAt - p.lanes[l].issuedAt;
      AttestationFor(c, p).scores[l] ==
      LaneScore(LaneWorkers(p.coreCount, l), c.chainLen, if elapsed > 1 then elapsed else 1)
  {
    LanesPass(H, c, w, p, LANES - 1);
    LanePasses(H, c, WorldAt(H, c, w, p, LANES - 1), p, LANES - 1);
    forall l | 0 <= l < LANES
      ensures var elapsed := p.lanes[l].receivedAt - p.lanes[l].issuedAt;
        AttestationFor(c, p).scores[l] ==
        LaneScore(LaneWorkers(p.coreCount, l), c.chainLen, if elapsed > 1 then elapsed else 1)
    {
      ScoresFor(c, p, l);
    }
  }
}
