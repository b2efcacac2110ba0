/** The benchmark challenge: its lanes, and what a start or a submission does to a loaded state. */
module AttestState {
  import opened Hashing
  import opened Chain
  import opened Lane

  const LANES: nat := 4

  datatype Config = Config(chainLen: nat, checkpoints: nat, samples: nat, challengeTtlMs: nat, maxLaneMs: nat,
                           attestationTtlMs: nat)

  datatype Status = Pending | Started | Done

  datatype LaneState = LaneState(
    workers: nat,
    status: Status,
    issuedAt: Option<int>,
    nonce: Option<Nonce>,
    elapsedMs: Option<int>)

  /** Lanes are listed in LANE_ORDER: single, quad, eight, full. */
  datatype BenchState = BenchState(
    providerId: Address,
    seed: Digest,
    chainLen: nat,
    checkpoints: nat,
    samples: nat,
    deadlineMs: int,
    coreCount: nat,
    lanes: seq<LaneState>)

  /** A stored challenge and the instant its key expires. */
  datatype Entry = Entry(state: BenchState, expiresAt: int)

  datatype Error = Validation | Expired | SigMismatch | BenchFailed | UnknownChallenge | UnknownProvider
    | ArchUnsupported | RateLimited

  const MAX_WORKERS := 256

  /** A request for a challenge, with whether its signer has a profile; a time is None where it is not valid. */
  datatype ChallengePost = ChallengePost(
    signer: Address,
    registered: bool,
    model: string,
    arch: string,
    coreCount: int,
    ramGib: real,
    cpuModel: Option<string>,
    signedAt: Option<int>)

  datatype Submission = Submission(
    signer: Address,
    payloadChallenge: Digest,
    payloadLane: nat,
    proofs: seq<WorkerProof>)

  datatype Attestation = Attestation(
    providerId: Address,
    challengeId: Digest,
    coreCount: nat,
    scores: seq<nat>,
    measuredAt: int,
    expiresAt: int)

  /** What a submission leads to: nothing stored, the challenge dropped, progress stored, or the close. */
  datatype Outcome =
    | Refused(error: Error)
    | Dropped
    | Progress(state: BenchState)
    | Closed(final: BenchState, attestation: Attestation)

  function Or<T>(o: Option<T>, default: T): T {
    if o.Some? then o.value else default
  }

  function LaneName(l: nat): Bytes {
    if l == 0 then [0x73, 0x69, 0x6E, 0x67, 0x6C, 0x65]
    else if l == 1 then [0x71, 0x75, 0x61, 0x64]
    else if l == 2 then [0x65, 0x69, 0x67, 0x68, 0x74]
    else [0x66, 0x75, 0x6C, 0x6C]
  }

  function LaneWorkers(coreCount: nat, l: nat): nat {
    if l == 0 then 1 else if l == 1 then 4 else if l == 2 then 8 else coreCount
  }

  /** The first check of `postChallenge` that fails; limited is the answer of its two rate limits. */
  function ChallengeRefusal(p: ChallengePost, limited: bool): (e: Option<Error>)
    ensures e.None? ==> 1 <= p.coreCount <= MAX_WORKERS
  {
    if !p.registered then Some(UnknownProvider)
    else if p.model != "cpu/v1" then Some(Validation)
    else if p.arch != "x64" then Some(ArchUnsupported)
    else if p.coreCount < 1 || p.coreCount > MAX_WORKERS then Some(Validation)
    else if p.ramGib <= 0.0 then Some(Validation)
    else if p.cpuModel.Some? && |p.cpuModel.value| > 128 then Some(Validation)
    else if p.signedAt.None? then Some(Validation)
    else if limited then Some(RateLimited)
    else None
  }

  /** The state `postChallenge` creates. */
  function NewState(c: Config, providerId: Address, seed: Digest, coreCount: nat, now: int): BenchState {
    BenchState(providerId, seed, c.chainLen, c.checkpoints, c.samples, now + c.challengeTtlMs, coreCount,
               seq(LANES, l requires l >= 0 => LaneState(LaneWorkers(coreCount, l), Pending, None, None, None)))
  }

  // ------------------------------------------------------------ start

  /** `postLaneStart` between the load and the store. */
  function StartOn(s: BenchState, lane: nat, now: int, nonce: Nonce): (r: (Option<BenchState>, Option<Error>))
    requires |s.lanes| == LANES
    ensures r.0.Some? <==> r.1.None?
  {
    if now > s.deadlineMs then (None, Some(Expired))
    else if lane >= LANES then (None, Some(Validation))
    else if s.lanes[lane].status != Pending then (None, Some(Validation))
    else if exists prev :: 0 <= prev < lane && s.lanes[prev].status != Done then (None, Some(Validation))
    else
      (Some(s.(lanes := s.lanes[lane := s.lanes[lane].(status := Started, issuedAt := Some(now),
        nonce := Some(nonce))])), None)
  }

  // ------------------------------------------------------------ submit

  function ParamsOf(s: BenchState, lane: nat): LaneParams
    requires lane < |s.lanes|
  {
    LaneParams(s.seed, Or(s.lanes[lane].nonce, seq(16, _ => 0)), s.providerId, LaneName(lane),
               s.chainLen, s.checkpoints, s.samples)
  }

  /** workers * L per second, rounded to the nearest integer, halves up. */
  function LaneScore(workers: nat, chainLen: nat, elapsedMs: nat): nat
    requires elapsedMs > 0
  {
    (2 * (workers * chainLen * 1000) + elapsedMs) / (2 * elapsedMs)
  }

  function Scores(s: BenchState): seq<nat>
    requires |s.lanes| == LANES
  {
    seq(LANES, l requires 0 <= l < LANES =>
      var e := Or(s.lanes[l].elapsedMs, 0);
      LaneScore(s.lanes[l].workers, s.chainLen, if e > 1 then e else 1))
  }

  predicate AllDone(s: BenchState) {
    forall l :: 0 <= l < |s.lanes| ==> s.lanes[l].status == Done
  }

  function Finish(s: BenchState, lane: nat, elapsedMs: int): BenchState
    requires lane < |s.lanes|
  {
    s.(lanes := s.lanes[lane := s.lanes[lane].(status := Done, elapsedMs := Some(elapsedMs))])
  }

  function Attest(c: Config, s: BenchState, challengeId: Digest, receivedAt: int): Attestation
    requires |s.lanes| == LANES
  {
    Attestation(s.providerId, challengeId, s.coreCount, Scores(s), receivedAt, receivedAt + c.attestationTtlMs)
  }

  /** Inserting into the attestations table: an attestation already there is left as it is. */
  function Record(issued: seq<Attestation>, a: Attestation): (r: seq<Attestation>)
    ensures a in r && issued <= r
  {
    if a in issued then issued else issued + [a]
  }

  /** The checks of `postLaneSubmit` that come before the verification. */
  function Refusal(s: BenchState, challengeId: Digest, lane: nat, sub: Submission, receivedAt: int): Option<Error> {
    if sub.signer != s.providerId then Some(SigMismatch)
    else if sub.payloadChallenge != challengeId || sub.payloadLane != lane then Some(Validation)
    else if receivedAt > s.deadlineMs then Some(Expired)
    else if lane >= |s.lanes| then Some(Validation)
    else if s.lanes[lane].status != Started then Some(Validation)
    else None
  }

  function Elapsed(s: BenchState, lane: nat, receivedAt: int): int
    requires lane < |s.lanes|
  {
    receivedAt - Or(s.lanes[lane].issuedAt, receivedAt)
  }

  /** The verdict on a submission's proof under the lane's own parameters. */
  ghost predicate ProofAccepted(H: Hash, s: BenchState, challengeId: Digest, lane: nat, sub: Submission)
    requires s.checkpoints > 0 && lane < |s.lanes|
  {
    LaneAccepts(H, ParamsOf(s, lane), s.lanes[lane].workers, challengeId, sub.proofs)
  }

  /** What follows once the proof's verdict is known. */
  function Conclude(c: Config, s: BenchState, challengeId: Digest, lane: nat, receivedAt: int, accepted: bool): Outcome
    requires |s.lanes| == LANES && lane < LANES
  {
    var elapsedMs := Elapsed(s, lane, receivedAt);
    if elapsedMs > c.maxLaneMs || !accepted then Dropped
    else
      var next := Finish(s, lane, elapsedMs);
      if AllDone(next) then Closed(next, Attest(c, next, challengeId, receivedAt)) else Progress(next)
  }

  /** `postLaneSubmit` between the load and what it does to the store, given the proof's verdict. */
  function Decide(c: Config, s: BenchState, challengeId: Digest, lane: nat, sub: Submission, receivedAt: int,
                  accepted: bool): Outcome
    requires |s.lanes| == LANES
  {
    var refusal := Refusal(s, challengeId, lane, sub, receivedAt);
    if refusal.Some? then Refused(refusal.value)
    else Conclude(c, s, challengeId, lane, receivedAt, accepted)
  }

  // ------------------------------------------------------------ the shape every state keeps

  ghost predicate LaneShape(c: Config, lane: LaneState) {
    && (lane.nonce.Some? <==> lane.status != Pending)
    && (lane.issuedAt.Some? <==> lane.status != Pending)
    && (lane.elapsedMs.Some? <==> lane.status == Done)
    && (lane.status == Done ==> lane.elapsedMs.value <= c.maxLaneMs)
  }

  /** Done lanes come first; only the lane right after them may be started. */
  ghost predicate Shape(c: Config, s: BenchState) {
    && |s.lanes| == LANES
    && s.checkpoints == c.checkpoints && s.samples == c.samples && s.chainLen == c.chainLen
    && (forall l :: 0 <= l < LANES ==> s.lanes[l].workers == LaneWorkers(s.coreCount, l) && LaneShape(c, s.lanes[l]))
    && (forall k, l :: 0 <= k < l < LANES && s.lanes[l].status != Pending ==> s.lanes[k].status == Done)
  }

  lemma {:induction false} NewShape(c: Config, providerId: Address, seed: Digest, coreCount: nat, now: int)
    ensures Shape(c, NewState(c, providerId, seed, coreCount, now))
  {
  }

  lemma {:induction false} StartKeepsShape(c: Config, s: BenchState, lane: nat, now: int, nonce: Nonce)
    requires Shape(c, s) && StartOn(s, lane, now, nonce).0.Some?
    ensures Shape(c, StartOn(s, lane, now, nonce).0.value)
  {
  }

  lemma {:induction false} FinishKeepsShape(c: Config, s: BenchState, lane: nat, elapsedMs: int)
    requires Shape(c, s) && lane < LANES && s.lanes[lane].status == Started && elapsedMs <= c.maxLaneMs
    ensures Shape(c, Finish(s, lane, elapsedMs))
  {
  }

  /** A start is possible exactly on the first lane that is not done, when it is still pending. */
  lemma {:induction false} StartableIff(c: Config, s: BenchState, lane: nat, now: int, nonce: Nonce)
    requires Shape(c, s) && now <= s.deadlineMs && lane < LANES
    ensures StartOn(s, lane, now, nonce).0.Some? <==>
      && (forall k :: 0 <= k < lane ==> s.lanes[k].status == Done)
      && (forall k :: lane <= k < LANES ==> s.lanes[k].status == Pending)
  {
    assert forall k :: lane < k < LANES && s.lanes[k].status != Pending ==> s.lanes[lane].status == Done;
  }

  /** The score is the nearest integer to workers * L / (elapsed / 1000). */
  lemma {:induction false} ScoreIsNearest(workers: nat, chainLen: nat, elapsedMs: nat)
    requires elapsedMs > 0
    ensures var r, work := LaneScore(workers, chainLen, elapsedMs), workers * chainLen * 1000;
      2 * work - elapsedMs < 2 * (r * elapsedMs) <= 2 * work + elapsedMs
  {
    var a, b := 2 * (workers * chainLen * 1000) + elapsedMs, 2 * elapsedMs;
    assert a == b * (a / b) + a % b;
    assert b * (a / b) == 2 * (LaneScore(workers, chainLen, elapsedMs) * elapsedMs);
  }

  /** The code of ASCII text. */
  function Text(s: string): Bytes
    requires forall i :: 0 <= i < |s| ==> s[i] as int < 0x80
  {
    seq(|s|, i requires 0 <= i < |s| => s[i] as int)
  }

  /** The four lanes, by name and by how many workers compute them. */
  lemma {:induction false} LanesAre(coreCount: nat)
    ensures LaneName(0) == Text("single") && LaneWorkers(coreCount, 0) == 1
    ensures LaneName(1) == Text("quad") && LaneWorkers(coreCount, 1) == 4
    ensures LaneName(2) == Text("eight") && LaneWorkers(coreCount, 2) == 8
    ensures LaneName(3) == Text("full") && LaneWorkers(coreCount, 3) == coreCount
  {
  }

  /** What a lane's proofs are checked against: its own nonce, name and workers, and the challenge's parameters. */
  lemma {:induction false} ParamsAre(s: BenchState, l: nat)
    requires l < |s.lanes|
    ensures var p := ParamsOf(s, l);
      && p.seed == s.seed && p.providerId == s.providerId && p.laneId == LaneName(l)
      && (s.lanes[l].nonce.Some? ==> p.laneNonce == s.lanes[l].nonce.value)
      && p.chainLen == s.chainLen && p.checkpoints == s.checkpoints && p.samples == s.samples
  {
  }
}
