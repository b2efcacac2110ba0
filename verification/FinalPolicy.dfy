/**
 Which path lengths bind a lane's final states, with K at least C. For every hash at once the answer is
 the one of LengthPolicy, for any set of lengths; for each single hash too, where the lengths reach all leaves.
 */
module FinalPolicy {
  import opened Arith
  import opened Hashing
  import opened Merkle
  import opened Chain
  import opened Sampling
  import opened Lane
  import opened LaneSoundness
  import opened ProofBinding
  import opened PathLengths
  import opened Strategies
  import opened LengthPolicy

  /** An accepted lane on admitted lengths, none of whose workers' paths collide. */
  ghost predicate Considered(H: Hash, p: LaneParams, workers: nat, challengeId: Digest, lengths: set<nat>,
                             proofs: seq<WorkerProof>)
    requires p.checkpoints > 0
  {
    && LaneAccepts(H, p, workers, challengeId, proofs)
    && forall w :: 0 <= w < workers ==> Within(p.checkpoints, lengths, proofs[w]) && Quiet(H, p.checkpoints, proofs[w])
  }

  /** Every such lane ends its workers' chains. */
  ghost predicate FinalBound(H: Hash, p: LaneParams, workers: nat, challengeId: Digest, lengths: set<nat>)
    requires p.checkpoints > 0
  {
    forall proofs: seq<WorkerProof> | Considered(H, p, workers, challengeId, lengths, proofs) ::
      forall w :: 0 <= w < workers ==> proofs[w].final == State(H, p, w, p.checkpoints)
  }

  /** Drawing segments comes to an end whatever the transcript. */
  ghost predicate AlwaysDraws(H: Hash, K: nat, C: nat)
    requires C > 0
  {
    forall h: Digest :: Samplable(H, h, K, C)
  }

  /** A hash that returns the counter it is given, so drawing always ends for it. */
  function LastFour(b: Bytes): Digest {
    (if |b| >= 4 then b[|b| - 4..] else [0, 0, 0, 0]) + seq(28, _ => 0)
  }

  lemma {:induction false} LastFourReads(h: Digest, n: Bytes)
    requires |n| == 4
    ensures FirstU32(LastFour(h + n)) == FirstU32(n)
  {
    assert (h + n)[|h + n| - 4..] == n;
  }

  lemma {:induction false} DrawIsCounter(h: Digest, C: nat, j: nat)
    requires j < C <= U32
    ensures Draw(LastFour, h, C, j) == j
  {
    LastFourReads(h, U32be(j));
    U32RoundTrip(j);
    SmallModulo(j, U32);
    SmallModulo(j, C);
  }

  /** There are hashes whose draws always end, whatever K and C are. */
  lemma {:induction false} SomeHashAlwaysDraws(K: nat, C: nat)
    requires 0 < C <= U32
    ensures AlwaysDraws(LastFour, K, C)
  {
    forall h: Digest ensures Samplable(LastFour, h, K, C) {
      forall j | j in Below(C) ensures j in Hits(LastFour, h, C, U32) {
        DrawIsCounter(h, C, j);
      }
      SubsetCount(Below(C), Hits(LastFour, h, C, U32));
      SamplableIff(LastFour, h, K, C);
    }
  }

  // ------------------------------------------------------------ lengths that keep apart

  /** A lane under consideration is an admitted answer to its own draw. */
  lemma {:induction false} LaneIsAdmitted(H: Hash, p: LaneParams, workers: nat, challengeId: Digest, lengths: set<nat>,
                                          proofs: seq<WorkerProof>)
    requires p.checkpoints > 0 && Considered(H, p, workers, challengeId, lengths, proofs)
    ensures Admitted(H, p, Roots(proofs), Min(p.samples, p.checkpoints), lengths,
      [OwnAnswer(H, p, challengeId, proofs)])
  {
    AcceptedAnswers(H, p, workers, challengeId, proofs);
    var answers := [OwnAnswer(H, p, challengeId, proofs)];
    forall w | 0 <= w < workers
      ensures PoolClash(H, p.checkpoints, answers, w).None? && AnswersWithin(p.checkpoints, lengths, answers, w)
    {
      assert Pool(p.checkpoints, answers, w, 1) == LeavesOf(p.checkpoints, proofs[w]);
    }
  }

  lemma {:induction false} ApartBindsFinal(H: Hash, p: LaneParams, workers: nat, challengeId: Digest, lengths: set<nat>,
                                           proofs: seq<WorkerProof>)
    requires 0 < p.checkpoints <= p.samples && Considered(H, p, workers, challengeId, lengths, proofs)
    requires Apart(p.checkpoints, lengths)
    ensures forall w :: 0 <= w < workers ==> proofs[w].final == State(H, p, w, p.checkpoints)
  {
    var own := OwnAnswer(H, p, challengeId, proofs);
    LaneIsAdmitted(H, p, workers, challengeId, lengths, proofs);
    AdmittedConsistent(H, p, Roots(proofs), p.checkpoints, lengths, [own]);
    ConsistentFit(H, p, Roots(proofs), p.checkpoints, [own]);
    EveryRequired(H, p, challengeId, proofs);
    var lists := Lists(H, p, Roots(proofs), p.checkpoints, [own]);
    forall w | 0 <= w < workers ensures proofs[w].final == State(H, p, w, p.checkpoints) {
      assert Honours(H, p, w, lists[w], RequiredSegments([own][0].drawn), [own][0].proofs[w]);
      HonouredIsChain(H, p, w, lists[w], RequiredSegments(own.drawn), proofs[w]);
    }
  }

  // ------------------------------------------------------------ lengths that do not

  lemma {:induction false} GraftLaneConsidered(H: Hash, p: LaneParams, workers: nat, challengeId: Digest, g: nat,
                                               z: nat -> Digest, m: nat, n: nat, lengths: set<nat>)
    returns (proofs: seq<WorkerProof>)
    requires p.checkpoints > 0 && Vacant(p.checkpoints, g, m, n) && m in lengths && n in lengths
    requires AlwaysDraws(H, p.samples, p.checkpoints)
    ensures Considered(H, p, workers, challengeId, lengths, proofs)
    ensures forall w :: 0 <= w < workers ==> proofs[w].final == Onward(H, p, z(w), p.checkpoints - 1 - g)
  {
    var kits := GraftKits(H, p, workers, g, z, m, n);
    GraftLaneAccepted(H, p, workers, challengeId, g, z, m, n);
    proofs := KitLane(H, p, challengeId, kits);
    forall w | 0 <= w < workers
      ensures Within(p.checkpoints, lengths, proofs[w]) && Quiet(H, p.checkpoints, proofs[w])
      ensures proofs[w].final == Onward(H, p, z(w), p.checkpoints - 1 - g)
    {
      GraftStays(H, p, w, g, z(w), m, n, KitRequired(H, p, challengeId, kits), lengths);
    }
  }

  /** A hash that leaves 32 bytes as they are, and otherwise returns the counter it is given. */
  function Still(b: Bytes): Digest { if |b| == 32 then b else LastFour(b) }

  lemma {:induction false} StillSteps(s: Digest, k: nat)
    ensures Steps(Still, s, k) == s
  {
    if k > 0 {
      StillSteps(s, k - 1);
    }
  }

  lemma {:induction false} StillStands(p: LaneParams, z: Digest, k: nat)
    requires p.checkpoints > 0
    ensures Onward(Still, p, z, k) == z && State(Still, p, 0, p.checkpoints) == S0(Still, p, 0)
  {
    StillSteps(z, k * SegLen(p));
    StillSteps(S0(Still, p, 0), p.checkpoints * SegLen(p));
  }

  lemma {:induction false} StillDraws(K: nat, C: nat)
    requires 0 < C <= U32
    ensures AlwaysDraws(Still, K, C)
  {
    forall h: Digest ensures Samplable(Still, h, K, C) {
      forall j | j in Below(C) ensures j in Hits(Still, h, C, U32) {
        DrawIsCounter(h, C, j);
        assert Draw(Still, h, C, j) == Draw(LastFour, h, C, j);
      }
      SubsetCount(Below(C), Hits(Still, h, C, U32));
      SamplableIff(Still, h, K, C);
    }
  }

  /** Under this hash a chain never leaves its start, so a checkpoint replaced on the way shows at the end. */
  lemma {:induction false} StillUnbound(p: LaneParams, workers: nat, challengeId: Digest, lengths: set<nat>, n: nat,
                                        m: nat)
    requires 0 < p.checkpoints <= U32 && workers > 0 && n in lengths && m in lengths
    requires n < m && Height(p.checkpoints) <= m && !Covered(p.checkpoints, n, m)
    ensures AlwaysDraws(Still, p.samples, p.checkpoints) && !FinalBound(Still, p, workers, challengeId, lengths)
  {
    var g := Highest(p.checkpoints, n);
    var z := Other(S0(Still, p, 0));
    StillDraws(p.samples, p.checkpoints);
    UncoveredVacant(p.checkpoints, n, m);
    var proofs := GraftLaneConsidered(Still, p, workers, challengeId, g, (w: nat) => z, m, n, lengths);
    StillStands(p, z, p.checkpoints - 1 - g);
    assert proofs[0].final != State(Still, p, 0, p.checkpoints);
  }

  /** Two lengths that reach all leaves unbind the final states under every hash. */
  lemma {:induction false} TwoLengthsUnbind(H: Hash, p: LaneParams, workers: nat, challengeId: Digest,
                                            lengths: set<nat>, n: nat, m: nat)
    requires p.checkpoints > 1 && workers > 0 && n in lengths && m in lengths && Height(p.checkpoints) <= n < m
    requires AlwaysDraws(H, p.samples, p.checkpoints)
    ensures !FinalBound(H, p, workers, challengeId, lengths)
  {
    var z := Other(State(H, p, 0, p.checkpoints));
    LastVacant(p.checkpoints, m, n);
    var proofs := GraftLaneConsidered(H, p, workers, challengeId, p.checkpoints - 1, (w: nat) => z, m, n, lengths);
    OnwardSteps(H, p, z, 0);
    assert proofs[0].final != State(H, p, 0, p.checkpoints);
  }

  // ------------------------------------------------------------ exactly when

  /** For each hash: with lengths that reach all leaves, final states are bound if and only if there is one length. */
  lemma {:induction false} FinalBoundIff(H: Hash, p: LaneParams, workers: nat, challengeId: Digest, lengths: set<nat>)
    requires 0 < p.checkpoints <= p.samples && workers > 0 && AlwaysDraws(H, p.samples, p.checkpoints)
    requires forall n :: n in lengths ==> Height(p.checkpoints) <= n
    ensures FinalBound(H, p, workers, challengeId, lengths) <==>
      p.checkpoints == 1 || forall m, n :: m in lengths && n in lengths ==> m == n
  {
    HighApartIff(p.checkpoints, lengths);
    if Apart(p.checkpoints, lengths) {
      ApartBinds(H, p, workers, challengeId, lengths);
    } else {
      var n, m :| n in lengths && m in lengths && n < m;
      TwoLengthsUnbind(H, p, workers, challengeId, lengths, n, m);
    }
  }

  lemma {:induction false} ApartBinds(H: Hash, p: LaneParams, workers: nat, challengeId: Digest, lengths: set<nat>)
    requires 0 < p.checkpoints <= p.samples && Apart(p.checkpoints, lengths)
    ensures FinalBound(H, p, workers, challengeId, lengths)
  {
    forall proofs: seq<WorkerProof> | Considered(H, p, workers, challengeId, lengths, proofs)
      ensures forall w :: 0 <= w < workers ==> proofs[w].final == State(H, p, w, p.checkpoints)
    {
      ApartBindsFinal(H, p, workers, challengeId, lengths, proofs);
    }
  }

  /** For all hashes together: with any set of lengths, final states are bound if and only if the lengths keep apart. */
  lemma {:induction false} EveryHashBoundIff(p: LaneParams, workers: nat, challengeId: Digest, lengths: set<nat>)
    requires 0 < p.checkpoints <= p.samples && p.checkpoints <= U32 && workers > 0
    ensures (forall H: Hash | AlwaysDraws(H, p.samples, p.checkpoints) ::
      FinalBound(H, p, workers, challengeId, lengths))
      <==> Apart(p.checkpoints, lengths)
  {
    if Apart(p.checkpoints, lengths) {
      forall H: Hash | AlwaysDraws(H, p.samples, p.checkpoints)
        ensures FinalBound(H, p, workers, challengeId, lengths)
      {
        ApartBinds(H, p, workers, challengeId, lengths);
      }
    } else {
      var n, m :| n in lengths && m in lengths && n < m && Height(p.checkpoints) <= m && !Covered(p.checkpoints, n, m);
      StillUnbound(p, workers, challengeId, lengths, n, m);
    }
  }
}
