/** What the handlers of a challenge answer, said without the decisions they are built from. */
module AttestAnswers {
  import opened Hashing
  import opened Chain
  import opened AttestState
  import opened AttestService

  /** Until when a key set now for a state is kept: its deadline, or the next millisecond. */
  function KeptUntil(deadlineMs: int, now: int): int {
    if now < deadlineMs then deadlineMs else now + 1
  }

  ghost predicate Refuses(H: Hash, c: Config, w: World, r: Request, now: int, e: Error)
    requires WellFormed(c, w)
  {
    Handle(H, c, w, r, now) == (w, Failed(e))
  }

  // ------------------------------------------------------------ opening a challenge

  /** A post that could be benchmarked: the one model and architecture, 1 to 256 cores, some memory. */
  predicate Benchable(p: ChallengePost) {
    && p.model == "cpu/v1" && p.arch == "x64" && 1 <= p.coreCount <= 256 && p.ramGib > 0.0
    && (p.cpuModel.Some? ==> |p.cpuModel.value| <= 128)
  }

  /** A challenge is created exactly for a registered signer's valid post within the rate limits, else nothing is. */
  lemma {:induction false} CreatedIff(H: Hash, c: Config, w: World, r: Request, now: int)
    requires WellFormed(c, w) && r.Challenge?
    ensures Handle(H, c, w, r, now).1 == Created <==>
      r.post.registered && Benchable(r.post) && r.post.signedAt.Some? && !r.limited
    ensures Handle(H, c, w, r, now).1 != Created ==> exists e :: Refuses(H, c, w, r, now, e)
  {
    var answer := Handle(H, c, w, r, now);
    if answer.1 != Created {
      assert Refuses(H, c, w, r, now, answer.1.error);
    }
  }

  /** Which error a refused post gets. */
  lemma {:induction false} CreationErrors(H: Hash, c: Config, w: World, r: Request, now: int)
    requires WellFormed(c, w) && r.Challenge?
    ensures Refuses(H, c, w, r, now, UnknownProvider) <==> !r.post.registered
    ensures Refuses(H, c, w, r, now, ArchUnsupported) <==>
      r.post.registered && r.post.model == "cpu/v1" && r.post.arch != "x64"
    ensures Refuses(H, c, w, r, now, RateLimited) <==>
      r.post.registered && Benchable(r.post) && r.post.signedAt.Some? && r.limited
    ensures Refuses(H, c, w, r, now, Validation) <==>
      && r.post.registered && (r.post.model != "cpu/v1" || r.post.arch == "x64")
      && !(Benchable(r.post) && r.post.signedAt.Some?)
  {
  }

  /** What a created challenge is: for its signer, to the configured length, due after the configured time. */
  lemma {:induction false} CreatedIs(H: Hash, c: Config, w: World, r: Request, now: int)
    requires WellFormed(c, w) && r.Challenge? && Handle(H, c, w, r, now).1 == Created && c.challengeTtlMs > 0
    ensures var v := Handle(H, c, w, r, now).0;
      && v.issued == w.issued && v.store.Keys == w.store.Keys + {r.challengeId}
      && (forall id :: id in w.store && id != r.challengeId ==> v.store[id] == w.store[id])
      && v.store[r.challengeId].expiresAt == now + c.challengeTtlMs
    ensures var s := Handle(H, c, w, r, now).0.store[r.challengeId].state;
      && s.providerId == r.post.signer && s.seed == r.seed && s.coreCount == r.post.coreCount
      && s.chainLen == c.chainLen && s.checkpoints == c.checkpoints && s.samples == c.samples
      && s.deadlineMs == now + c.challengeTtlMs && |s.lanes| == 4
      && s.lanes[0].workers == 1 && s.lanes[1].workers == 4 && s.lanes[2].workers == 8
      && s.lanes[3].workers == r.post.coreCount
      && forall l :: 0 <= l < 4 ==>
           s.lanes[l].status == Pending && s.lanes[l].nonce.None? && s.lanes[l].issuedAt.None?
             && s.lanes[l].elapsedMs.None?
  {
  }

  // ------------------------------------------------------------ starting a lane

  /** The lane can be started: it and all later ones are pending, all before it done. */
  predicate IsNext(s: BenchState, lane: nat) {
    && lane < |s.lanes| && s.lanes[lane].status == Pending
    && forall k :: 0 <= k < lane ==> s.lanes[k].status == Done
  }

  lemma {:induction false} StartRefused(H: Hash, c: Config, w: World, id: Digest, lane: nat, nonce: Nonce, now: int)
    requires WellFormed(c, w)
    ensures var r := LaneStart(id, lane, nonce);
      && (Refuses(H, c, w, r, now, UnknownChallenge) <==> !Live(w, id, now))
      && (Live(w, id, now) ==>
            var s := w.store[id].state;
            && (Refuses(H, c, w, r, now, Expired) <==> now > s.deadlineMs)
            && (Refuses(H, c, w, r, now, Validation) <==> now <= s.deadlineMs && !IsNext(s, lane)))
  {
  }

  /** A start sets the lane's nonce and instant and nothing else, and keeps the challenge until its deadline. */
  lemma {:induction false} StartIs(H: Hash, c: Config, w: World, id: Digest, lane: nat, nonce: Nonce, now: int)
    requires WellFormed(c, w) && Live(w, id, now)
    requires now <= w.store[id].state.deadlineMs && IsNext(w.store[id].state, lane)
    ensures Handle(H, c, w, LaneStart(id, lane, nonce), now).1 == LaneStarted(nonce)
    ensures var s, v := w.store[id].state, Handle(H, c, w, LaneStart(id, lane, nonce), now).0;
      var lanes := s.lanes[lane := LaneState(s.lanes[lane].workers, Started, Some(now), Some(nonce),
        s.lanes[lane].elapsedMs)];
      v == w.(store := w.store[id := Entry(s.(lanes := lanes), KeptUntil(s.deadlineMs, now))])
  {
  }

  // ------------------------------------------------------------ submitting a lane

  /** The submission is its signer's to make, says what the request says, and comes in time for a started lane. */
  predicate Admissible(s: BenchState, id: Digest, lane: nat, sub: Submission, now: int) {
    && sub.signer == s.providerId
    && sub.payloadChallenge == id && sub.payloadLane == lane
    && now <= s.deadlineMs
    && lane < |s.lanes| && s.lanes[lane].status == Started
  }

  /** Anybody else's submission is answered with a signature mismatch and leaves everything as it was. */
  lemma {:induction false} StrangerRefused(H: Hash, c: Config, w: World, id: Digest, lane: nat, sub: Submission,
                                           now: int)
    requires WellFormed(c, w) && Live(w, id, now)
    ensures Refuses(H, c, w, LaneSubmit(id, lane, sub), now, SigMismatch) <==>
      sub.signer != w.store[id].state.providerId
  {
  }

  /** Which other submissions leave everything as it was, and the error each gets. */
  lemma {:induction false} SubmitRefused(H: Hash, c: Config, w: World, id: Digest, lane: nat, sub: Submission, now: int)
    requires WellFormed(c, w)
    ensures var r := LaneSubmit(id, lane, sub);
      && (Refuses(H, c, w, r, now, UnknownChallenge) <==> !Live(w, id, now))
      && (Live(w, id, now) ==>
            var s := w.store[id].state;
            && ((exists e :: Refuses(H, c, w, r, now, e)) <==> !Admissible(s, id, lane, sub, now))
            && (Refuses(H, c, w, r, now, Expired) <==>
                  && sub.signer == s.providerId && sub.payloadChallenge == id && sub.payloadLane == lane
                  && now > s.deadlineMs))
  {
    var r := LaneSubmit(id, lane, sub);
    if Live(w, id, now) {
      var answer := Handle(H, c, w, r, now);
      if !Admissible(w.store[id].state, id, lane, sub, now) {
        assert Refuses(H, c, w, r, now, answer.1.error);
      }
    }
  }

  /** The time since the lane's start. */
  function Taken(s: BenchState, lane: nat, now: int): int
    requires lane < |s.lanes| && s.lanes[lane].issuedAt.Some?
  {
    now - s.lanes[lane].issuedAt.value
  }

  /** A lane that took too long or whose proof is not accepted drops the challenge, and nothing else. */
  lemma {:induction false} FailureDrops(H: Hash, c: Config, w: World, id: Digest, lane: nat, sub: Submission, now: int)
    requires WellFormed(c, w) && Live(w, id, now) && Admissible(w.store[id].state, id, lane, sub, now)
    ensures w.store[id].state.lanes[lane].issuedAt.Some?
    ensures Handle(H, c, w, LaneSubmit(id, lane, sub), now) == (w.(store := w.store - {id}), Failed(BenchFailed)) <==>
      || Taken(w.store[id].state, lane, now) > c.maxLaneMs
      || !ProofAccepted(H, w.store[id].state, id, lane, sub)
  {
  }

  /** The state with the lane done in the time it took. */
  function WithDone(s: BenchState, lane: nat, now: int): BenchState
    requires lane < |s.lanes| && s.lanes[lane].issuedAt.Some?
  {
    var l := s.lanes[lane];
    s.(lanes := s.lanes[lane := LaneState(l.workers, Done, l.issuedAt, l.nonce, Some(Taken(s, lane, now)))])
  }

  predicate Passes(c: Config, s: BenchState, lane: nat, now: int)
    requires lane < |s.lanes| && s.lanes[lane].issuedAt.Some?
  {
    Taken(s, lane, now) <= c.maxLaneMs
  }

  /** An accepted lane before the last is stored as done, until the deadline. */
  lemma {:induction false} ProgressIs(H: Hash, c: Config, w: World, id: Digest, lane: nat, sub: Submission, now: int)
    requires WellFormed(c, w) && Live(w, id, now) && Admissible(w.store[id].state, id, lane, sub, now) && lane < 3
    requires w.store[id].state.lanes[lane].issuedAt.Some? && Passes(c, w.store[id].state, lane, now)
    requires ProofAccepted(H, w.store[id].state, id, lane, sub)
    ensures var s := w.store[id].state;
      Handle(H, c, w, LaneSubmit(id, lane, sub), now) ==
      (w.(store := w.store[id := Entry(WithDone(s, lane, now), KeptUntil(s.deadlineMs, now))]),
       LaneVerified(Taken(s, lane, now)))
  {
    var s := w.store[id].state;
    var next := Finish(s, lane, Elapsed(s, lane, now));
    assert next.lanes[lane + 1].status == Pending;
    assert next == WithDone(s, lane, now);
  }

  /** The score of a lane: its hashes per second, rounded, over at least one millisecond. */
  predicate ScoreFits(score: nat, workers: nat, chainLen: nat, elapsedMs: int) {
    var ms := if elapsedMs < 1 then 1 else elapsedMs;
    2 * (workers * chainLen * 1000) - ms < 2 * (score * ms) <= 2 * (workers * chainLen * 1000) + ms
  }

  /** The accepted last lane drops the challenge and leaves an attestation of it. */
  lemma {:induction false} CloseIs(H: Hash, c: Config, w: World, id: Digest, sub: Submission, now: int)
    returns (a: Attestation)
    requires WellFormed(c, w) && Live(w, id, now) && Admissible(w.store[id].state, id, 3, sub, now)
    requires w.store[id].state.lanes[3].issuedAt.Some? && Passes(c, w.store[id].state, 3, now)
    requires ProofAccepted(H, w.store[id].state, id, 3, sub)
    ensures Handle(H, c, w, LaneSubmit(id, 3, sub), now) ==
      (World(w.store - {id}, if a in w.issued then w.issued else w.issued + [a], w.used), Attested(a))
    ensures var s := w.store[id].state;
      && a.challengeId == id && a.providerId == s.providerId && a.coreCount == s.coreCount
      && a.measuredAt == now && a.expiresAt == now + c.attestationTtlMs && |a.scores| == 4
      && (forall l :: 0 <= l < 3 ==> s.lanes[l].elapsedMs.Some?)
      && ScoreFits(a.scores[0], 1, s.chainLen, s.lanes[0].elapsedMs.value)
      && ScoreFits(a.scores[1], 4, s.chainLen, s.lanes[1].elapsedMs.value)
      && ScoreFits(a.scores[2], 8, s.chainLen, s.lanes[2].elapsedMs.value)
      && ScoreFits(a.scores[3], s.coreCount, s.chainLen, Taken(s, 3, now))
  {
    var s := w.store[id].state;
    var done := Finish(s, 3, Elapsed(s, 3, now));
    assert AllDone(done);
    a := Attest(c, done, id, now);
    assert done.lanes[..3] == s.lanes[..3];
    forall l | 0 <= l < 4
      ensures ScoreFits(a.scores[l], done.lanes[l].workers, s.chainLen, done.lanes[l].elapsedMs.value) {
      var e := done.lanes[l].elapsedMs.value;
      ScoreIsNearest(done.lanes[l].workers, s.chainLen, if e > 1 then e else 1);
    }
  }
}
