/**
 Extraction relative to a committed list. From an accepted lane proof and checkpoint lists whose trees have
 its roots, either a concrete hash collision is computed, or the openings are the committed checkpoints
 themselves. The verifier does not check that a root belongs to such a tree; ProofBinding and Strategies
 do without that.
 */
module LaneSoundness {
  import opened Arith
  import opened Hashing
  import opened Merkle
  import opened MerkleBinding
  import opened Chain
  import opened Sampling
  import opened Lane

  /** One list of C checkpoints per worker, each under the root its worker submitted. */
  ghost predicate Commits(H: Hash, p: LaneParams, proofs: seq<WorkerProof>, committed: seq<seq<Bytes>>) {
    && |committed| == |proofs|
    && forall w :: 0 <= w < |proofs| ==>
         |committed[w]| == p.checkpoints > 0 && proofs[w].root == Root(H, Leaves(H, committed[w]))
  }

  // ------------------------------------------------------------ the collision finder

  function FindInOpening(H: Hash, cps: seq<Bytes>, op: Opening): Option<(Bytes, Bytes)>
    requires |cps| > 0
  {
    var start := if op.seg > 0 && op.prevPath.Some?
      then ExtractOpening(H, cps, op.prev, op.seg - 1, op.prevPath.value) else None;
    if start.Some? || op.seg < 0 then start else ExtractOpening(H, cps, op.next, op.seg, op.nextPath)
  }

  function FindInOpenings(H: Hash, cps: seq<Bytes>, openings: seq<Opening>, i: nat): (e: Option<(Bytes, Bytes)>)
    requires |cps| > 0 && i <= |openings|
    ensures e.None? <==> forall k :: i <= k < |openings| ==> FindInOpening(H, cps, openings[k]).None?
    ensures e.Some? ==> exists k :: i <= k < |openings| && FindInOpening(H, cps, openings[k]) == e
    decreases |openings| - i
  {
    if i == |openings| then None
    else
      var here := FindInOpening(H, cps, openings[i]);
      if here.Some? then here else FindInOpenings(H, cps, openings, i + 1)
  }

  function FindInWorker(H: Hash, cps: seq<Bytes>, wp: WorkerProof): Option<(Bytes, Bytes)>
    requires |cps| > 0
  {
    var last := ExtractOpening(H, cps, wp.final, |cps| - 1, wp.finalPath);
    if last.Some? then last else FindInOpenings(H, cps, wp.openings, 0)
  }

  /** The first collision met by walking every opened path of every worker from w on down its committed tree. */
  function FindInLane(H: Hash, committed: seq<seq<Bytes>>, proofs: seq<WorkerProof>, w: nat)
    : (e: Option<(Bytes, Bytes)>)
    requires |committed| == |proofs| && w <= |proofs|
    requires forall v :: 0 <= v < |committed| ==> |committed[v]| > 0
    ensures e.None? <==> forall v :: w <= v < |proofs| ==> FindInWorker(H, committed[v], proofs[v]).None?
    decreases |proofs| - w
  {
    if w == |proofs| then None
    else
      var here := FindInWorker(H, committed[w], proofs[w]);
      if here.Some? then here else FindInLane(H, committed, proofs, w + 1)
  }

  lemma {:induction false} FoundInWorker(H: Hash, committed: seq<seq<Bytes>>, proofs: seq<WorkerProof>, w: nat)
    returns (v: nat)
    requires |committed| == |proofs| && w <= |proofs|
    requires forall v :: 0 <= v < |committed| ==> |committed[v]| > 0
    requires FindInLane(H, committed, proofs, w).Some?
    ensures w <= v < |proofs| && FindInWorker(H, committed[v], proofs[v]) == FindInLane(H, committed, proofs, w)
    decreases |proofs| - w
  {
    if FindInWorker(H, committed[w], proofs[w]).Some? {
      v := w;
    } else {
      v := FoundInWorker(H, committed, proofs, w + 1);
    }
  }

  // ------------------------------------------------------------ one worker

  /** The opening shows segment j of the committed list, and the segment was really computed. */
  ghost predicate Opens(H: Hash, start: Bytes, segLen: nat, cps: seq<Bytes>, j: nat, op: Opening)
    requires j < |cps|
  {
    && op.prev == SegStart(start, cps, j)
    && op.next == cps[j]
    && Steps(H, SegStart(start, cps, j), segLen) == cps[j]
  }

  ghost predicate OpensAll(H: Hash, start: Bytes, segLen: nat, cps: seq<Bytes>, required: seq<nat>,
                           openings: seq<Opening>) {
    && |openings| == |required|
    && forall i :: 0 <= i < |required| ==>
         required[i] < |cps| && Opens(H, start, segLen, cps, required[i], openings[i])
  }

  lemma {:induction false} OpenedLeaf(H: Hash, cps: seq<Bytes>, c: Bytes, i: nat, path: seq<Bytes>)
    requires i < |cps| && PathOk(H, c, i, path, Root(H, Leaves(H, cps)))
    ensures var e := ExtractOpening(H, cps, c, i, path);
      if e.Some? then Collides(H, e.value) else c == cps[i] && |path| == Height(|cps|)
  {
    PositionBinding(H, cps, c, i, path);
  }

  lemma {:induction false} StartSound(H: Hash, start: Bytes, segLen: nat, cps: seq<Bytes>, j: nat, op: Opening)
    requires 0 < j < |cps|
    requires OpeningOk(H, start, segLen, Root(H, Leaves(H, cps)), j, op)
    ensures var e := ExtractOpening(H, cps, op.prev, j - 1, op.prevPath.value);
      if e.Some? then Collides(H, e.value) else op.prev == cps[j - 1] && |op.prevPath.value| == Height(|cps|)
  {
    OpenedLeaf(H, cps, op.prev, j - 1, op.prevPath.value);
  }

  lemma {:induction false} EndSound(H: Hash, start: Bytes, segLen: nat, cps: seq<Bytes>, j: nat, op: Opening)
    requires j < |cps|
    requires OpeningOk(H, start, segLen, Root(H, Leaves(H, cps)), j, op)
    ensures var e := ExtractOpening(H, cps, op.next, j, op.nextPath);
      if e.Some? then Collides(H, e.value) else op.next == cps[j] && |op.nextPath| == Height(|cps|)
  {
    OpenedLeaf(H, cps, op.next, j, op.nextPath);
  }

  lemma {:induction false} OpeningSound(H: Hash, start: Bytes, segLen: nat, cps: seq<Bytes>, j: nat, op: Opening)
    requires j < |cps|
    requires OpeningOk(H, start, segLen, Root(H, Leaves(H, cps)), j, op)
    ensures var e := FindInOpening(H, cps, op);
      if e.Some? then Collides(H, e.value)
      else
        && Opens(H, start, segLen, cps, j, op)
        && |op.nextPath| == Height(|cps|)
        && (j > 0 ==> |op.prevPath.value| == Height(|cps|))
  {
    if j > 0 {
      StartSound(H, start, segLen, cps, j, op);
    }
    EndSound(H, start, segLen, cps, j, op);
  }

  lemma {:induction false} OpeningsSound(H: Hash, start: Bytes, segLen: nat, cps: seq<Bytes>, required: seq<nat>,
                                         openings: seq<Opening>)
    requires |cps| > 0 && |openings| == |required|
    requires forall i :: 0 <= i < |required| ==>
      required[i] < |cps| && OpeningOk(H, start, segLen, Root(H, Leaves(H, cps)), required[i], openings[i])
    ensures var e := FindInOpenings(H, cps, openings, 0);
      if e.Some? then Collides(H, e.value) else OpensAll(H, start, segLen, cps, required, openings)
  {
    forall i | 0 <= i < |required|
      ensures var e := FindInOpening(H, cps, openings[i]);
        if e.Some? then Collides(H, e.value) else Opens(H, start, segLen, cps, required[i], openings[i])
    {
      OpeningSound(H, start, segLen, cps, required[i], openings[i]);
    }
  }

  /** What an accepted worker proof shows of the list it committed to. */
  ghost predicate Honours(H: Hash, p: LaneParams, w: nat, cps: seq<Bytes>, required: seq<nat>, wp: WorkerProof)
    requires p.checkpoints > 0 && |cps| > 0
  {
    && wp.final == cps[|cps| - 1]
    && OpensAll(H, S0(H, p, w), SegLen(p), cps, required, wp.openings)
  }

  lemma {:induction false} WorkerSound(H: Hash, p: LaneParams, w: nat, cps: seq<Bytes>, required: seq<nat>,
                                       wp: WorkerProof)
    requires |cps| == p.checkpoints > 0 && wp.root == Root(H, Leaves(H, cps))
    requires WorkerOk(H, p, w, required, wp)
    requires forall i :: 0 <= i < |required| ==> required[i] < |cps|
    ensures var e := FindInWorker(H, cps, wp);
      if e.Some? then Collides(H, e.value) else Honours(H, p, w, cps, required, wp)
  {
    OpenedLeaf(H, cps, wp.final, |cps| - 1, wp.finalPath);
    OpeningsSound(H, S0(H, p, w), SegLen(p), cps, required, wp.openings);
  }

  // ------------------------------------------------------------ the lane

  /**
   Extraction soundness: an accepted lane proof yields a collision, or each worker's final state is
   its last committed checkpoint and every required segment opens the committed checkpoints at its
   two ends and was really computed between them, from s_0 in the case of segment 0.
   */
  lemma {:induction false} ExtractionSound(H: Hash, p: LaneParams, workers: nat, challengeId: Digest,
                                           proofs: seq<WorkerProof>, committed: seq<seq<Bytes>>)
    requires p.checkpoints > 0
    requires LaneAccepts(H, p, workers, challengeId, proofs) && Commits(H, p, proofs, committed)
    ensures var e := FindInLane(H, committed, proofs, 0);
      if e.Some? then Collides(H, e.value)
      else forall w :: 0 <= w < workers ==>
        Honours(H, p, w, committed[w], Required(H, p, challengeId, proofs), proofs[w])
  {
    var required := Required(H, p, challengeId, proofs);
    RequiredInRange(H, LaneTranscript(H, p, challengeId, proofs), p.samples, p.checkpoints);
    forall w | 0 <= w < workers
      ensures var e := FindInWorker(H, committed[w], proofs[w]);
        if e.Some? then Collides(H, e.value) else Honours(H, p, w, committed[w], required, proofs[w])
    {
      WorkerSound(H, p, w, committed[w], required, proofs[w]);
    }
    if FindInLane(H, committed, proofs, 0).Some? {
      var w := FoundInWorker(H, committed, proofs, 0);
    }
  }

  /** An accepted lane proof whose openings and committed lists contain no collision. */
  ghost predicate Clean(H: Hash, p: LaneParams, workers: nat, challengeId: Digest, proofs: seq<WorkerProof>,
                        committed: seq<seq<Bytes>>)
  {
    && p.checkpoints > 0
    && LaneAccepts(H, p, workers, challengeId, proofs)
    && Commits(H, p, proofs, committed)
    && FindInLane(H, committed, proofs, 0).None?
  }

  lemma {:induction false} CleanHonours(H: Hash, p: LaneParams, workers: nat, challengeId: Digest,
                                        proofs: seq<WorkerProof>, committed: seq<seq<Bytes>>, w: nat)
    requires Clean(H, p, workers, challengeId, proofs, committed) && w < workers
    ensures |proofs| == workers == |committed| && |committed[w]| == p.checkpoints > 0
    ensures Drawable(H, p, challengeId, proofs)
    ensures Honours(H, p, w, committed[w], Required(H, p, challengeId, proofs), proofs[w])
  {
    ExtractionSound(H, p, workers, challengeId, proofs, committed);
  }

  /** One required segment of one worker: it leads from its committed start to its committed end. */
  lemma {:induction false} SegmentOpened(H: Hash, p: LaneParams, workers: nat, challengeId: Digest,
                                         proofs: seq<WorkerProof>, committed: seq<seq<Bytes>>, w: nat, j: nat)
    requires Clean(H, p, workers, challengeId, proofs, committed) && w < workers
    requires j in Required(H, p, challengeId, proofs)
    ensures j < p.checkpoints
    ensures Steps(H, SegStart(S0(H, p, w), committed[w], j), SegLen(p)) == committed[w][j]
  {
    var required := Required(H, p, challengeId, proofs);
    CleanHonours(H, p, workers, challengeId, proofs, committed, w);
    var i :| 0 <= i < |required| && required[i] == j;
    assert Opens(H, S0(H, p, w), SegLen(p), committed[w], required[i], proofs[w].openings[i]);
  }

  lemma {:induction false} LinkedIsChain(H: Hash, p: LaneParams, w: nat, cps: seq<Bytes>)
    requires |cps| == p.checkpoints > 0 && Linked(H, S0(H, p, w), SegLen(p), cps)
    ensures cps == Checkpoints(H, p, w)
  {
    forall j | 0 <= j < |cps| ensures cps[j] == Checkpoints(H, p, w)[j] {
      ChainFromLinks(H, p, w, cps, j);
    }
  }

  lemma {:induction false} FinalIsLast(H: Hash, p: LaneParams, workers: nat, challengeId: Digest,
                                       proofs: seq<WorkerProof>, committed: seq<seq<Bytes>>, w: nat)
    requires Clean(H, p, workers, challengeId, proofs, committed) && w < workers
    ensures |proofs| == workers == |committed| && |committed[w]| == p.checkpoints > 0
    ensures proofs[w].final == committed[w][p.checkpoints - 1]
  {
    CleanHonours(H, p, workers, challengeId, proofs, committed, w);
  }

  lemma {:induction false} AllSegmentsOpened(H: Hash, p: LaneParams, workers: nat, challengeId: Digest,
                                             proofs: seq<WorkerProof>, committed: seq<seq<Bytes>>, w: nat)
    requires Clean(H, p, workers, challengeId, proofs, committed) && w < workers
    requires p.samples >= p.checkpoints
    ensures w < |committed| && |committed[w]| == p.checkpoints > 0
    ensures Linked(H, S0(H, p, w), SegLen(p), committed[w])
  {
    forall j | 0 <= j < |committed[w]|
      ensures Steps(H, SegStart(S0(H, p, w), committed[w], j), SegLen(p)) == committed[w][j]
    {
      AllRequired(H, LaneTranscript(H, p, challengeId, proofs), p.samples, p.checkpoints, j);
      SegmentOpened(H, p, workers, challengeId, proofs, committed, w, j);
    }
  }

  /**
   With K at least C nothing is left to chance: without a collision every committed list is the
   computed chain, and the final state is the one C segments from s_0.
   */
  lemma {:induction false} FullOpeningForcesChain(H: Hash, p: LaneParams, workers: nat, challengeId: Digest,
                                                  proofs: seq<WorkerProof>, committed: seq<seq<Bytes>>, w: nat)
    requires Clean(H, p, workers, challengeId, proofs, committed) && w < workers
    requires p.samples >= p.checkpoints
    ensures committed[w] == Checkpoints(H, p, w)
    ensures proofs[w].final == State(H, p, w, p.checkpoints)
  {
    AllSegmentsOpened(H, p, workers, challengeId, proofs, committed, w);
    LinkedIsChain(H, p, w, committed[w]);
    FinalIsLast(H, p, workers, challengeId, proofs, committed, w);
    LastCheckpoint(H, p, w);
  }

  lemma {:induction false} LastCheckpoint(H: Hash, p: LaneParams, w: nat)
    requires p.checkpoints > 0
    ensures Checkpoints(H, p, w)[p.checkpoints - 1] == State(H, p, w, p.checkpoints)
  {
  }

  /** ... so where C divides L the submitted final state is L hash steps from s_0. */
  lemma {:induction false} FullOpeningForcesWork(H: Hash, p: LaneParams, workers: nat, challengeId: Digest,
                                                 proofs: seq<WorkerProof>, committed: seq<seq<Bytes>>, w: nat)
    requires Clean(H, p, workers, challengeId, proofs, committed) && w < workers
    requires p.samples >= p.checkpoints && p.chainLen % p.checkpoints == 0
    ensures proofs[w].final == Steps(H, S0(H, p, w), p.chainLen)
  {
    FullOpeningForcesChain(H, p, workers, challengeId, proofs, committed, w);
    FullChain(H, p, w);
  }

  /** The segments of a committed list that were not computed. */
  ghost function Broken(H: Hash, p: LaneParams, w: nat, cps: seq<Bytes>): set<nat>
    requires p.checkpoints > 0
  {
    set j: nat | j in Below(|cps|) && Steps(H, SegStart(S0(H, p, w), cps, j), SegLen(p)) != cps[j]
  }

  /** An accepted proof without a collision required none of the broken segments. */
  lemma {:induction false} BrokenNotRequired(H: Hash, p: LaneParams, workers: nat, challengeId: Digest,
                                             proofs: seq<WorkerProof>, committed: seq<seq<Bytes>>, w: nat, j: nat)
    requires Clean(H, p, workers, challengeId, proofs, committed) && w < workers
    requires j in Broken(H, p, w, committed[w])
    ensures j !in Required(H, p, challengeId, proofs)
  {
    if j in Required(H, p, challengeId, proofs) {
      SegmentOpened(H, p, workers, challengeId, proofs, committed, w, j);
    }
  }

  /** Every path of a worker's proof has the tree's height: the closing leaf's and the opened segments'. */
  ghost predicate PathsHigh(n: nat, wp: WorkerProof)
    requires n > 0
  {
    && |wp.finalPath| == Height(n)
    && forall i :: 0 <= i < |wp.openings| ==> OpeningHigh(n, wp.openings[i])
  }

  ghost predicate OpeningHigh(n: nat, op: Opening)
    requires n > 0
  {
    && |op.nextPath| == Height(n)
    && (op.seg > 0 ==> op.prevPath.Some? && |op.prevPath.value| == Height(n))
  }

  lemma {:induction false} OpeningPaths(H: Hash, start: Bytes, segLen: nat, cps: seq<Bytes>, j: nat, op: Opening)
    requires j < |cps| && FindInOpening(H, cps, op).None?
    requires OpeningOk(H, start, segLen, Root(H, Leaves(H, cps)), j, op)
    ensures OpeningHigh(|cps|, op)
  {
    OpeningSound(H, start, segLen, cps, j, op);
  }

  lemma {:induction false} NoneFound(H: Hash, cps: seq<Bytes>, wp: WorkerProof, i: nat)
    requires |cps| > 0 && FindInWorker(H, cps, wp).None? && i < |wp.openings|
    ensures FindInOpening(H, cps, wp.openings[i]).None?
  {
  }

  lemma {:induction false} WorkerPaths(H: Hash, p: LaneParams, w: nat, cps: seq<Bytes>, required: seq<nat>,
                                       wp: WorkerProof)
    requires |cps| == p.checkpoints > 0 && wp.root == Root(H, Leaves(H, cps))
    requires WorkerOk(H, p, w, required, wp)
    requires forall i :: 0 <= i < |required| ==> required[i] < |cps|
    requires FindInWorker(H, cps, wp).None?
    ensures PathsHigh(|cps|, wp)
  {
    OpenedLeaf(H, cps, wp.final, |cps| - 1, wp.finalPath);
    forall i | 0 <= i < |wp.openings| ensures OpeningHigh(|cps|, wp.openings[i]) {
      NoneFound(H, cps, wp, i);
      OpeningPaths(H, S0(H, p, w), SegLen(p), cps, required[i], wp.openings[i]);
    }
  }

  /** Under roots of C-leaf trees, without a collision, every path of an accepted proof has ceil(log2 C) siblings. */
  lemma {:induction false} AcceptedPathLengths(H: Hash, p: LaneParams, workers: nat, challengeId: Digest,
                                               proofs: seq<WorkerProof>, committed: seq<seq<Bytes>>)
    requires Clean(H, p, workers, challengeId, proofs, committed)
    ensures forall w :: 0 <= w < workers ==> PathsHigh(p.checkpoints, proofs[w])
    ensures p.checkpoints <= Power(2, Height(p.checkpoints)) < 2 * p.checkpoints
  {
    RequiredInRange(H, LaneTranscript(H, p, challengeId, proofs), p.samples, p.checkpoints);
    forall w | 0 <= w < workers ensures PathsHigh(p.checkpoints, proofs[w]) {
      WorkerPaths(H, p, w, committed[w], Required(H, p, challengeId, proofs), proofs[w]);
    }
    HeightIsCeilLog2(p.checkpoints);
  }
}
