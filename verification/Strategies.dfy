/**
 Detection without a committed list. A root may belong to no tree, so the bound is put on what can be
 answered: given a lane's roots, consider any proofs that would pass for different draws of segments, each
 with paths of one length. Two of their paths collide, or they fit one list per worker, every segment they
 answer was computed on it, and the draws answered are few if many segments were not computed.
 */
module Strategies {
  import opened Arith
  import opened Hashing
  import opened PathBinding
  import opened Chain
  import opened Sampling
  import opened Lane
  import opened LaneSoundness
  import opened ProofBinding
  import opened Detection

  /** Proofs for one draw of segments. */
  datatype Answer = Answer(drawn: seq<nat>, proofs: seq<WorkerProof>)

  /** The proofs pass the verifier's checks under the given roots for the segments drawn. */
  ghost predicate Answers(H: Hash, p: LaneParams, roots: seq<Bytes>, k: nat, a: Answer) {
    && p.checkpoints > 0 && |a.proofs| == |roots|
    && a.drawn in DrawsFrom(Below(p.checkpoints), k)
    && forall w :: 0 <= w < |roots| ==>
         a.proofs[w].root == roots[w] && WorkerOk(H, p, w, RequiredSegments(a.drawn), a.proofs[w])
  }

  /** A lane as the answer to its own draw. */
  ghost function OwnAnswer(H: Hash, p: LaneParams, challengeId: Digest, proofs: seq<WorkerProof>): Answer
    requires p.checkpoints > 0 && Drawable(H, p, challengeId, proofs)
  {
    Answer(Sample(H, LaneTranscript(H, p, challengeId, proofs), p.samples, p.checkpoints), proofs)
  }

  /** An accepted lane is the answer to its own draw. */
  lemma {:induction false} AcceptedAnswers(H: Hash, p: LaneParams, workers: nat, challengeId: Digest,
                                           proofs: seq<WorkerProof>)
    requires p.checkpoints > 0 && LaneAccepts(H, p, workers, challengeId, proofs)
    ensures Answers(H, p, Roots(proofs), Min(p.samples, p.checkpoints), OwnAnswer(H, p, challengeId, proofs))
  {
    var drawn := Sample(H, LaneTranscript(H, p, challengeId, proofs), p.samples, p.checkpoints);
    SampleShape(H, LaneTranscript(H, p, challengeId, proofs), p.samples, p.checkpoints);
    forall i | 0 <= i < |drawn| ensures drawn[i] in Below(p.checkpoints) {
      assert drawn[i] in drawn;
    }
    DrawsFromMeans(Below(p.checkpoints), Min(p.samples, p.checkpoints), drawn);
  }

  /** All leaves the first n answers open for worker w. */
  function Pool(C: nat, answers: seq<Answer>, w: nat, n: nat): seq<Leaf>
    requires C > 0 && n <= |answers| && forall a :: 0 <= a < |answers| ==> w < |answers[a].proofs|
  {
    if n == 0 then [] else Pool(C, answers, w, n - 1) + LeavesOf(C, answers[n - 1].proofs[w])
  }

  ghost predicate AllAnswer(H: Hash, p: LaneParams, roots: seq<Bytes>, k: nat, answers: seq<Answer>) {
    p.checkpoints > 0 && forall a :: 0 <= a < |answers| ==> Answers(H, p, roots, k, answers[a])
  }

  lemma {:induction false} WorkersThere(H: Hash, p: LaneParams, roots: seq<Bytes>, k: nat, answers: seq<Answer>, w: nat)
    requires AllAnswer(H, p, roots, k, answers) && w < |roots|
    ensures forall a :: 0 <= a < |answers| ==> w < |answers[a].proofs|
  {
  }

  lemma {:induction false} PoolHas(C: nat, answers: seq<Answer>, w: nat, n: nat, a: nat, l: Leaf)
    requires C > 0 && a < n <= |answers| && forall b :: 0 <= b < |answers| ==> w < |answers[b].proofs|
    requires l in LeavesOf(C, answers[a].proofs[w])
    ensures l in Pool(C, answers, w, n)
  {
    if a < n - 1 {
      PoolHas(C, answers, w, n - 1, a, l);
    }
  }

  lemma {:induction false} PoolOk(H: Hash, p: LaneParams, roots: seq<Bytes>, k: nat, answers: seq<Answer>, w: nat,
                                  n: nat)
    requires AllAnswer(H, p, roots, k, answers) && w < |roots| && n <= |answers|
    requires forall b :: 0 <= b < |answers| ==> w < |answers[b].proofs|
    ensures LeavesOk(H, roots[w], Pool(p.checkpoints, answers, w, n))
  {
    if n > 0 {
      PoolOk(H, p, roots, k, answers, w, n - 1);
      WorkerLeavesOk(H, p, w, RequiredSegments(answers[n - 1].drawn), answers[n - 1].proofs[w]);
    }
  }

  lemma {:induction false} DrawnInRange(C: nat, k: nat, drawn: seq<nat>)
    requires C > 0 && drawn in DrawsFrom(Below(C), k)
    ensures Distinct(drawn) && |drawn| == k && forall i :: 0 <= i < |drawn| ==> drawn[i] < C
    ensures forall i :: 0 <= i < |RequiredSegments(drawn)| ==> RequiredSegments(drawn)[i] < C
  {
    DrawsFromMeans(Below(C), k, drawn);
    RequiredMeans(drawn);
    var r := RequiredSegments(drawn);
    forall i | 0 <= i < |r| ensures r[i] < C {
      assert r[i] in r;
    }
  }

  /** One answer fits the list that the pool of all answers names. */
  lemma {:induction false} AnswerFits(H: Hash, p: LaneParams, roots: seq<Bytes>, k: nat, answers: seq<Answer>, w: nat,
                                      a: nat)
    requires AllAnswer(H, p, roots, k, answers) && w < |roots| && a < |answers|
    requires forall b :: 0 <= b < |answers| ==> w < |answers[b].proofs|
    requires var pool := Pool(p.checkpoints, answers, w, |answers|);
      OneLength(pool) && FindClash(H, pool, 0).None?
    ensures Honours(H, p, w, Named(p.checkpoints, Pool(p.checkpoints, answers, w, |answers|)),
                    RequiredSegments(answers[a].drawn), answers[a].proofs[w])
  {
    var pool := Pool(p.checkpoints, answers, w, |answers|);
    PoolOk(H, p, roots, k, answers, w, |answers|);
    DrawnInRange(p.checkpoints, k, answers[a].drawn);
    forall l | l in LeavesOf(p.checkpoints, answers[a].proofs[w]) ensures l in pool {
      PoolHas(p.checkpoints, answers, w, |answers|, a, l);
    }
    HonoursNamed(H, p, w, RequiredSegments(answers[a].drawn), answers[a].proofs[w], pool);
  }

  /** The lists the answers name, one per worker. */
  ghost function Lists(H: Hash, p: LaneParams, roots: seq<Bytes>, k: nat, answers: seq<Answer>)
    : (lists: seq<seq<Bytes>>)
    requires AllAnswer(H, p, roots, k, answers)
    ensures |lists| == |roots| && forall w :: 0 <= w < |roots| ==> |lists[w]| == p.checkpoints
  {
    seq(|roots|, w requires 0 <= w < |roots| =>
      WorkersThere(H, p, roots, k, answers, w);
      Named(p.checkpoints, Pool(p.checkpoints, answers, w, |answers|)))
  }

  /** Paths to one leaf of a worker have one length in all answers, and none of them collide. */
  ghost predicate Consistent(H: Hash, p: LaneParams, roots: seq<Bytes>, k: nat, answers: seq<Answer>)
    requires AllAnswer(H, p, roots, k, answers)
  {
    forall w :: 0 <= w < |roots| ==>
      (WorkersThere(H, p, roots, k, answers, w);
       var pool := Pool(p.checkpoints, answers, w, |answers|);
       OneLength(pool) && FindClash(H, pool, 0).None?)
  }

  // ------------------------------------------------------------ what each proof must show for that

  /** All paths of one worker's proof have one length, in each answer: a condition on one proof at a time. */
  ghost predicate AllLevel(C: nat, answers: seq<Answer>)
    requires C > 0
  {
    forall a :: 0 <= a < |answers| ==> LevelProofs(C, answers[a].proofs)
  }

  /** The closing leaf and leaf 0 are there in every answer. */
  lemma {:induction false} FirstLeafOpened(H: Hash, p: LaneParams, roots: seq<Bytes>, k: nat, a: Answer, w: nat)
    returns (l: Leaf)
    requires Answers(H, p, roots, k, a) && w < |roots|
    ensures l in LeavesOf(p.checkpoints, a.proofs[w]) && l.index == 0
  {
    DrawnInRange(p.checkpoints, k, a.drawn);
    RequiredMeans(a.drawn);
    var required := RequiredSegments(a.drawn);
    assert OpeningOk(H, S0(H, p, w), SegLen(p), a.proofs[w].root, required[0], a.proofs[w].openings[0]);
    EndsAreLeaves(p.checkpoints, a.proofs[w], 0);
    l := EndLeaf(a.proofs[w].openings[0]);
  }

  lemma {:induction false} PoolOrigin(C: nat, answers: seq<Answer>, w: nat, n: nat, l: Leaf) returns (a: nat)
    requires C > 0 && n <= |answers| && forall b :: 0 <= b < |answers| ==> w < |answers[b].proofs|
    requires l in Pool(C, answers, w, n)
    ensures a < n && l in LeavesOf(C, answers[a].proofs[w])
  {
    if l in Pool(C, answers, w, n - 1) {
      a := PoolOrigin(C, answers, w, n - 1, l);
    } else {
      a := n - 1;
    }
  }

  lemma {:induction false} SameInLevel(leaves: seq<Leaf>, a: Leaf, b: Leaf)
    requires Level(leaves) && a in leaves && b in leaves
    ensures |a.path| == |b.path|
  {
    var i :| 0 <= i < |leaves| && leaves[i] == a;
    var j :| 0 <= j < |leaves| && leaves[j] == b;
    assert |leaves[i].path| == |leaves[j].path|;
  }

  /** Beside each leaf of the pool there is a leaf 0 on a path of the same length. */
  lemma {:induction false} ZeroBeside(H: Hash, p: LaneParams, roots: seq<Bytes>, k: nat, answers: seq<Answer>, w: nat,
                                      l: Leaf)
    returns (zero: Leaf)
    requires AllAnswer(H, p, roots, k, answers) && AllLevel(p.checkpoints, answers) && w < |roots|
    requires forall b :: 0 <= b < |answers| ==> w < |answers[b].proofs|
    requires l in Pool(p.checkpoints, answers, w, |answers|)
    ensures zero in Pool(p.checkpoints, answers, w, |answers|) && zero.index == 0 && |zero.path| == |l.path|
  {
    var a := PoolOrigin(p.checkpoints, answers, w, |answers|, l);
    zero := FirstLeafOpened(H, p, roots, k, answers[a], w);
    PoolHas(p.checkpoints, answers, w, |answers|, a, zero);
    SameInLevel(LeavesOf(p.checkpoints, answers[a].proofs[w]), l, zero);
  }

  /**
   Leaf 0 binds its path at every length, and every proof opens it: so proofs with paths of one length each
   have the same length under one root, or two of their paths collide.
   */
  lemma {:induction false} LevelPool(H: Hash, p: LaneParams, roots: seq<Bytes>, k: nat, answers: seq<Answer>, w: nat)
    requires AllAnswer(H, p, roots, k, answers) && AllLevel(p.checkpoints, answers) && w < |roots|
    requires forall b :: 0 <= b < |answers| ==> w < |answers[b].proofs|
    requires PoolClash(H, p.checkpoints, answers, w).None?
    ensures Level(Pool(p.checkpoints, answers, w, |answers|))
  {
    var pool := Pool(p.checkpoints, answers, w, |answers|);
    PoolOk(H, p, roots, k, answers, w, |answers|);
    forall i, j | 0 <= i < |pool| && 0 <= j < |pool| ensures |pool[i].path| == |pool[j].path| {
      var zero := ZeroBeside(H, p, roots, k, answers, w, pool[i]);
      var other := ZeroBeside(H, p, roots, k, answers, w, pool[j]);
      NoClashAgrees(H, roots[w], pool, zero, other);
    }
  }

  lemma {:induction false} LevelConsistent(H: Hash, p: LaneParams, roots: seq<Bytes>, k: nat, answers: seq<Answer>)
    requires AllAnswer(H, p, roots, k, answers) && AllLevel(p.checkpoints, answers)
    requires forall a :: 0 <= a < |answers| ==> |answers[a].proofs| == |roots|
    requires forall w :: 0 <= w < |roots| ==> PoolClash(H, p.checkpoints, answers, w).None?
    ensures Consistent(H, p, roots, k, answers)
  {
    forall w | 0 <= w < |roots|
      ensures OneLength(Pool(p.checkpoints, answers, w, |answers|)) && PoolClash(H, p.checkpoints, answers, w).None?
    {
      LevelPool(H, p, roots, k, answers, w);
    }
  }

  /** The collision found among all leaves the answers open for worker w. */
  function PoolClash(H: Hash, C: nat, answers: seq<Answer>, w: nat): Option<(Bytes, Bytes)>
    requires C > 0 && forall a :: 0 <= a < |answers| ==> w < |answers[a].proofs|
  {
    FindClash(H, Pool(C, answers, w, |answers|), 0)
  }

  /** The first collision found for a worker from w on. */
  function FindInPools(H: Hash, C: nat, answers: seq<Answer>, workers: nat, w: nat): (e: Option<(Bytes, Bytes)>)
    requires C > 0 && w <= workers && forall a :: 0 <= a < |answers| ==> |answers[a].proofs| == workers
    ensures e.None? <==> forall v :: w <= v < workers ==> PoolClash(H, C, answers, v).None?
    decreases workers - w
  {
    if w == workers then None
    else
      var here := PoolClash(H, C, answers, w);
      if here.Some? then here else FindInPools(H, C, answers, workers, w + 1)
  }

  /** What the finder returns is a collision. */
  lemma {:induction false} FoundInPools(H: Hash, p: LaneParams, roots: seq<Bytes>, k: nat, answers: seq<Answer>, w: nat)
    requires AllAnswer(H, p, roots, k, answers) && w <= |roots|
    requires forall a :: 0 <= a < |answers| ==> |answers[a].proofs| == |roots|
    ensures var e := FindInPools(H, p.checkpoints, answers, |roots|, w); e.Some? ==> Collides(H, e.value)
    decreases |roots| - w
  {
    if w < |roots| {
      PoolOk(H, p, roots, k, answers, w, |answers|);
      if PoolClash(H, p.checkpoints, answers, w).Some? {
        FoundCollides(H, roots[w], Pool(p.checkpoints, answers, w, |answers|), 0);
      } else {
        FoundInPools(H, p, roots, k, answers, w + 1);
      }
    }
  }

  /** No answered segment is broken on the lists. */
  lemma {:induction false} AnsweredComputed(H: Hash, p: LaneParams, roots: seq<Bytes>, k: nat, answers: seq<Answer>,
                                            a: nat, j: nat)
    requires AllAnswer(H, p, roots, k, answers) && Consistent(H, p, roots, k, answers) && a < |answers|
    requires j in RequiredSegments(answers[a].drawn)
    ensures j !in BrokenInLane(H, p, Lists(H, p, roots, k, answers))
  {
    var lists := Lists(H, p, roots, k, answers);
    var required := RequiredSegments(answers[a].drawn);
    var i :| 0 <= i < |required| && required[i] == j;
    forall w | 0 <= w < |lists| ensures j !in Broken(H, p, w, lists[w]) {
      WorkersThere(H, p, roots, k, answers, w);
      AnswerFits(H, p, roots, k, answers, w, a);
      assert Opens(H, S0(H, p, w), SegLen(p), lists[w], required[i], answers[a].proofs[w].openings[i]);
    }
  }

  lemma {:induction false} BrokenBelow(H: Hash, p: LaneParams, lists: seq<seq<Bytes>>)
    requires p.checkpoints > 0 && forall w :: 0 <= w < |lists| ==> |lists[w]| == p.checkpoints
    ensures BrokenInLane(H, p, lists) <= Below(p.checkpoints)
  {
    forall j | j in BrokenInLane(H, p, lists) ensures j in Below(p.checkpoints) {
      var w :| 0 <= w < |lists| && j in Broken(H, p, w, lists[w]);
    }
  }

  lemma {:induction false} AnsweredDraw(H: Hash, p: LaneParams, roots: seq<Bytes>, k: nat, answers: seq<Answer>, a: nat)
    requires AllAnswer(H, p, roots, k, answers) && Consistent(H, p, roots, k, answers) && a < |answers|
    ensures var broken := BrokenInLane(H, p, Lists(H, p, roots, k, answers));
      0 !in broken && answers[a].drawn in DrawsFrom(Below(p.checkpoints) - broken, k)
  {
    var broken := BrokenInLane(H, p, Lists(H, p, roots, k, answers));
    var drawn := answers[a].drawn;
    DrawnInRange(p.checkpoints, k, drawn);
    RequiredMeans(drawn);
    AnsweredComputed(H, p, roots, k, answers, a, 0);
    forall i | 0 <= i < |drawn| ensures drawn[i] in Below(p.checkpoints) - broken {
      assert drawn[i] in drawn;
      AnsweredComputed(H, p, roots, k, answers, a, drawn[i]);
    }
    DrawsFromMeans(Below(p.checkpoints) - broken, k, drawn);
  }

  function DrawsOf(answers: seq<Answer>): (draws: seq<seq<nat>>)
    ensures |draws| == |answers| && forall a :: 0 <= a < |answers| ==> draws[a] == answers[a].drawn
  {
    seq(|answers|, a requires 0 <= a < |answers| => answers[a].drawn)
  }

  /** Different draws of one set are at most as many as there are. */
  lemma {:induction false} CountedDraws(draws: seq<seq<nat>>, s: set<nat>, k: nat)
    requires Distinct(draws) && forall a :: 0 <= a < |draws| ==> draws[a] in DrawsFrom(s, k)
    ensures |draws| <= |DrawsFrom(s, k)|
  {
    ElementsCount(draws);
    SubsetCount((set d | d in draws), DrawsFrom(s, k));
  }

  /**
   Segment 0 is computed, every draw answered avoids the broken segments, and of the T draws possible
   the N answered satisfy N * C^k <= T * (C - b)^k.
   */
  ghost predicate Few(C: nat, k: nat, broken: set<nat>, answers: seq<Answer>) {
    && |broken| <= C
    && (answers != [] ==> 0 !in broken)
    && (forall a :: 0 <= a < |answers| ==> answers[a].drawn in DrawsFrom(Below(C) - broken, k))
    && |answers| * Power(C, k) <= |DrawsFrom(Below(C), k)| * Power(C - |broken|, k)
  }

  lemma {:induction false} AvoidingIsFew(C: nat, k: nat, broken: set<nat>, answers: seq<Answer>)
    requires broken <= Below(C) && Distinct(DrawsOf(answers)) && (answers != [] ==> 0 !in broken)
    requires forall a :: 0 <= a < |answers| ==> answers[a].drawn in DrawsFrom(Below(C) - broken, k)
    ensures Few(C, k, broken, answers)
  {
    CountedDraws(DrawsOf(answers), Below(C) - broken, k);
    CountedMiss(C, k, broken);
    MulLe(|answers|, |DrawsFrom(Below(C) - broken, k)|, Power(C, k), Power(C, k));
  }

  lemma {:induction false} ConsistentAreFew(H: Hash, p: LaneParams, roots: seq<Bytes>, k: nat, answers: seq<Answer>)
    requires AllAnswer(H, p, roots, k, answers) && Distinct(DrawsOf(answers)) && Consistent(H, p, roots, k, answers)
    ensures Few(p.checkpoints, k, BrokenInLane(H, p, Lists(H, p, roots, k, answers)), answers)
  {
    var broken := BrokenInLane(H, p, Lists(H, p, roots, k, answers));
    forall a | 0 <= a < |answers|
      ensures 0 !in broken && answers[a].drawn in DrawsFrom(Below(p.checkpoints) - broken, k)
    {
      AnsweredDraw(H, p, roots, k, answers, a);
    }
    BrokenBelow(H, p, Lists(H, p, roots, k, answers));
    AvoidingIsFew(p.checkpoints, k, broken, answers);
  }

  /**
   Detection, for any roots. Take proofs that pass for different draws of k segments, each with paths of one
   length. Two of their paths collide, or they name a list per worker, and if b segments are not
   computed on some worker's list, the draws answered are few in that measure.
   */
  lemma {:induction false} AnswersAreFew(H: Hash, p: LaneParams, roots: seq<Bytes>, k: nat, answers: seq<Answer>)
    requires AllAnswer(H, p, roots, k, answers) && Distinct(DrawsOf(answers)) && AllLevel(p.checkpoints, answers)
    ensures var e := FindInPools(H, p.checkpoints, answers, |roots|, 0);
      if e.Some? then Collides(H, e.value)
      else Few(p.checkpoints, k, BrokenInLane(H, p, Lists(H, p, roots, k, answers)), answers)
  {
    FoundInPools(H, p, roots, k, answers, 0);
    if FindInPools(H, p.checkpoints, answers, |roots|, 0).None? {
      LevelConsistent(H, p, roots, k, answers);
      ConsistentAreFew(H, p, roots, k, answers);
    }
  }
}
