/** What an attestation says about work: the lane machine and the lane proofs put together. */
module AttestWork {
  import opened Arith
  import opened Hashing
  import opened Chain
  import opened Sampling
  import opened Lane
  import opened LaneSoundness
  import opened ProofBinding
  import opened Detection
  import opened Strategies
  import opened AttestState
  import opened AttestInterleaved

  /** A verification's proofs, measured against any checkpoint lists their roots commit to. */
  ghost predicate ShowsWork(H: Hash, p: LaneParams, workers: nat, v: Verified) {
    p.checkpoints > 0 &&
    forall committed :: Commits(H, p, v.proofs, committed) ==>
      var e := FindInLane(H, committed, v.proofs, 0);
      if e.Some? then Collides(H, e.value)
      else
        && Drawable(H, p, v.challengeId, v.proofs)
        && |v.proofs| == workers
        && forall w :: 0 <= w < workers ==>
             && Honours(H, p, w, committed[w], Required(H, p, v.challengeId, v.proofs), v.proofs[w])
             && (p.samples >= p.checkpoints ==>
                   committed[w] == Checkpoints(H, p, w) && v.proofs[w].final == State(H, p, w, p.checkpoints))
  }

  /**
   The same without any committed list, for workers whose paths to a leaf have one length. With K below C this
   says that the opened segments lie on one list; FewPass is about the others.
   */
  ghost predicate BindsWork(H: Hash, p: LaneParams, workers: nat, v: Verified) {
    && p.checkpoints > 0
    && Drawable(H, p, v.challengeId, v.proofs)
    && |v.proofs| == workers
    && forall w :: 0 <= w < workers && OneLength(LeavesOf(p.checkpoints, v.proofs[w])) ==>
         var leaves := LeavesOf(p.checkpoints, v.proofs[w]);
         var e := FindClash(H, leaves, 0);
         if e.Some? then Collides(H, e.value)
         else
           && Honours(H, p, w, Named(p.checkpoints, leaves), Required(H, p, v.challengeId, v.proofs), v.proofs[w])
           && (p.samples >= p.checkpoints ==> v.proofs[w].final == State(H, p, w, p.checkpoints))
  }

  lemma {:induction false} AcceptedBindsWork(H: Hash, p: LaneParams, workers: nat, v: Verified)
    requires p.checkpoints > 0 && LaneAccepts(H, p, workers, v.challengeId, v.proofs)
    ensures BindsWork(H, p, workers, v)
  {
    var required := Required(H, p, v.challengeId, v.proofs);
    RequiredInRange(H, LaneTranscript(H, p, v.challengeId, v.proofs), p.samples, p.checkpoints);
    if p.samples >= p.checkpoints {
      EveryRequired(H, p, v.challengeId, v.proofs);
    }
    forall w | 0 <= w < workers && OneLength(LeavesOf(p.checkpoints, v.proofs[w]))
      ensures var leaves := LeavesOf(p.checkpoints, v.proofs[w]);
        var e := FindClash(H, leaves, 0);
        if e.Some? then Collides(H, e.value)
        else
          && Honours(H, p, w, Named(p.checkpoints, leaves), required, v.proofs[w])
          && (p.samples >= p.checkpoints ==> v.proofs[w].final == State(H, p, w, p.checkpoints))
    {
      WorkerBinds(H, p, w, required, v.proofs[w]);
      if FindClash(H, LeavesOf(p.checkpoints, v.proofs[w]), 0).None? && p.samples >= p.checkpoints {
        HonouredIsChain(H, p, w, Named(p.checkpoints, LeavesOf(p.checkpoints, v.proofs[w])), required, v.proofs[w]);
      }
    }
  }

  /** Proofs that would pass for different draws under a verification's roots, its own ones among them. */
  ghost predicate Alternatives(H: Hash, p: LaneParams, v: Verified, answers: seq<Answer>)
    requires p.checkpoints > 0 && Drawable(H, p, v.challengeId, v.proofs)
  {
    && AllAnswer(H, p, Roots(v.proofs), Min(p.samples, p.checkpoints), answers)
    && Distinct(DrawsOf(answers)) && AllLevel(p.checkpoints, answers)
    && OwnAnswer(H, p, v.challengeId, v.proofs) in answers
  }

  /** What of them passes is few in the number of segments not computed, the draw that was made being one of it. */
  ghost predicate FewPass(H: Hash, p: LaneParams, v: Verified) {
    && p.checkpoints > 0
    && Drawable(H, p, v.challengeId, v.proofs)
    && (LevelProofs(p.checkpoints, v.proofs) ==> Alternatives(H, p, v, [OwnAnswer(H, p, v.challengeId, v.proofs)]))
    && forall answers: seq<Answer> | Alternatives(H, p, v, answers) ::
         var roots, k := Roots(v.proofs), Min(p.samples, p.checkpoints);
         var e := FindInPools(H, p.checkpoints, answers, |roots|, 0);
         if e.Some? then Collides(H, e.value)
         else Few(p.checkpoints, k, BrokenInLane(H, p, Lists(H, p, roots, k, answers)), answers)
  }

  lemma {:induction false} AcceptedFewPass(H: Hash, p: LaneParams, workers: nat, v: Verified)
    requires p.checkpoints > 0 && LaneAccepts(H, p, workers, v.challengeId, v.proofs)
    ensures FewPass(H, p, v)
  {
    var roots, k := Roots(v.proofs), Min(p.samples, p.checkpoints);
    AcceptedAnswers(H, p, workers, v.challengeId, v.proofs);
    forall answers: seq<Answer> | Alternatives(H, p, v, answers)
      ensures var e := FindInPools(H, p.checkpoints, answers, |roots|, 0);
        if e.Some? then Collides(H, e.value)
        else Few(p.checkpoints, k, BrokenInLane(H, p, Lists(H, p, roots, k, answers)), answers)
    {
      AnswersAreFew(H, p, roots, k, answers);
    }
  }

  lemma {:induction false} AcceptedShowsWork(H: Hash, p: LaneParams, workers: nat, v: Verified)
    requires p.checkpoints > 0 && LaneAccepts(H, p, workers, v.challengeId, v.proofs)
    ensures ShowsWork(H, p, workers, v)
  {
    forall committed | Commits(H, p, v.proofs, committed)
      ensures var e := FindInLane(H, committed, v.proofs, 0);
        if e.Some? then Collides(H, e.value)
        else
          forall w :: 0 <= w < workers ==>
            && Honours(H, p, w, committed[w], Required(H, p, v.challengeId, v.proofs), v.proofs[w])
            && (p.samples >= p.checkpoints ==>
                  committed[w] == Checkpoints(H, p, w) && v.proofs[w].final == State(H, p, w, p.checkpoints))
    {
      ExtractionSound(H, p, workers, v.challengeId, v.proofs, committed);
      if FindInLane(H, committed, v.proofs, 0).None? && p.samples >= p.checkpoints {
        forall w | 0 <= w < workers
          ensures committed[w] == Checkpoints(H, p, w) && v.proofs[w].final == State(H, p, w, p.checkpoints)
        {
          FullOpeningForcesChain(H, p, workers, v.challengeId, v.proofs, committed, w);
        }
      }
    }
  }

  /**
   Whatever the interleaving, behind each lane of an issued attestation there is a verification,
   under the nonce drawn when the lane was started, whose proofs show the lane's work.
   */
  lemma {:induction false} AttestedWork(H: Hash, c: Config, clock: int, events: seq<Event>, k: nat, l: nat)
    returns (v: Verified)
    requires c.checkpoints > 0 && IsRun(H, c, clock, events)
    requires k < |After(H, c, clock, events).issued| && l < LANES
    ensures var s := After(H, c, clock, events);
      var i := s.issued[k];
      && l < |i.final.lanes|
      && v in s.h.log && v.lane == l && v.challengeId == i.attestation.challengeId
      && Some(v.nonce) == i.final.lanes[l].nonce
      && ShowsWork(H, ParamsOf(i.final, l), LaneWorkers(i.attestation.coreCount, l), v)
      && BindsWork(H, ParamsOf(i.final, l), LaneWorkers(i.attestation.coreCount, l), v)
      && FewPass(H, ParamsOf(i.final, l), v)
  {
    AttestationBacked(H, c, clock, events, k);
    var s := After(H, c, clock, events);
    var i := s.issued[k];
    assert LaneProved(H, s.h, i, l);
    v :| v in s.h.log
      && v.challengeId == i.attestation.challengeId && v.lane == l && Some(v.nonce) == i.final.lanes[l].nonce
      && LaneAccepts(H, ParamsOf(i.final, l), LaneWorkers(i.attestation.coreCount, l), v.challengeId, v.proofs);
    AcceptedShowsWork(H, ParamsOf(i.final, l), LaneWorkers(i.attestation.coreCount, l), v);
    AcceptedBindsWork(H, ParamsOf(i.final, l), LaneWorkers(i.attestation.coreCount, l), v);
    AcceptedFewPass(H, ParamsOf(i.final, l), LaneWorkers(i.attestation.coreCount, l), v);
  }
}
