/** Lane proofs: the reference prover, the verifier, and that they meet. */
module Lane {
  import opened Arith
  import opened Hashing
  import opened Merkle
  import opened Chain
  import opened Sampling

  datatype Opening = Opening(
    seg: int,
    prev: Bytes,
    prevPath: Option<seq<Bytes>>,
    next: Bytes,
    nextPath: seq<Bytes>)

  datatype WorkerProof = WorkerProof(
    workerIndex: int,
    root: Bytes,
    final: Bytes,
    finalPath: seq<Bytes>,
    openings: seq<Opening>)

  datatype Reason =
    | WorkerCount
    | Malformed(worker: nat)
    | FinalNotBound(worker: nat)
    | OpeningCount(worker: nat)
    | WrongOpening(worker: nat, i: nat)
    | NotFromS0(worker: nat)
    | StartNotInTree(worker: nat, seg: nat)
    | EndNotInTree(worker: nat, seg: nat)
    | WrongSteps(worker: nat, seg: nat)

  datatype Verdict = Accepted | Rejected(reason: Reason)

  // ------------------------------------------------------------ what the verifier accepts

  predicate WellShaped(wp: WorkerProof, w: nat) {
    wp.workerIndex == w && |wp.root| == 32 && |wp.final| == 32
  }

  predicate AllShaped(workers: nat, proofs: seq<WorkerProof>) {
    |proofs| == workers && forall w :: 0 <= w < workers ==> WellShaped(proofs[w], w)
  }

  function Roots(proofs: seq<WorkerProof>): (roots: seq<Bytes>)
    ensures |roots| == |proofs|
  {
    seq(|proofs|, w requires 0 <= w < |proofs| => proofs[w].root)
  }

  /** Segment j of a chain from start, opened under root. */
  predicate OpeningOk(H: Hash, start: Bytes, segLen: nat, root: Bytes, j: nat, op: Opening) {
    && op.seg == j && |op.prev| == 32 && |op.next| == 32
    && (if j == 0 then op.prev == start
        else op.prevPath.Some? && PathOk(H, op.prev, j - 1, op.prevPath.value, root))
    && PathOk(H, op.next, j, op.nextPath, root)
    && Steps(H, op.prev, segLen) == op.next
  }

  predicate FinalOk(H: Hash, p: LaneParams, wp: WorkerProof)
    requires p.checkpoints > 0
  {
    PathOk(H, wp.final, p.checkpoints - 1, wp.finalPath, wp.root)
  }

  predicate WorkerOk(H: Hash, p: LaneParams, w: nat, required: seq<nat>, wp: WorkerProof)
    requires p.checkpoints > 0
  {
    && FinalOk(H, p, wp)
    && |wp.openings| == |required|
    && forall i :: 0 <= i < |required| ==> OpeningOk(H, S0(H, p, w), SegLen(p), wp.root, required[i], wp.openings[i])
  }

  /** The digest the segments to open are drawn from. */
  function LaneTranscript(H: Hash, p: LaneParams, challengeId: Digest, proofs: seq<WorkerProof>): Digest {
    Transcript(H, challengeId, p.laneId, Roots(proofs))
  }

  ghost predicate Drawable(H: Hash, p: LaneParams, challengeId: Digest, proofs: seq<WorkerProof>)
    requires p.checkpoints > 0
  {
    Samplable(H, LaneTranscript(H, p, challengeId, proofs), p.samples, p.checkpoints)
  }

  ghost function Required(H: Hash, p: LaneParams, challengeId: Digest, proofs: seq<WorkerProof>): seq<nat>
    requires p.checkpoints > 0 && Drawable(H, p, challengeId, proofs)
  {
    RequiredSegments(Sample(H, LaneTranscript(H, p, challengeId, proofs), p.samples, p.checkpoints))
  }

  ghost predicate LaneAccepts(H: Hash, p: LaneParams, workers: nat, challengeId: Digest, proofs: seq<WorkerProof>)
    requires p.checkpoints > 0
  {
    && AllShaped(workers, proofs)
    && Drawable(H, p, challengeId, proofs)
    && forall w :: 0 <= w < workers ==>
         WorkerOk(H, p, w, Required(H, p, challengeId, proofs), proofs[w])
  }

  // ------------------------------------------------------------ the first fault, in the order of the checks

  function OpeningFault(H: Hash, p: LaneParams, w: nat, root: Bytes, i: nat, j: nat, op: Opening): (f: Option<Reason>)
    requires p.checkpoints > 0
    ensures f.None? <==> OpeningOk(H, S0(H, p, w), SegLen(p), root, j, op)
  {
    if op.seg != j || |op.prev| != 32 || |op.next| != 32 then Some(WrongOpening(w, i))
    else if j == 0 && op.prev != S0(H, p, w) then Some(NotFromS0(w))
    else if j != 0 && (op.prevPath.None? || !PathOk(H, op.prev, j - 1, op.prevPath.value, root)) then
      Some(StartNotInTree(w, j))
    else if !PathOk(H, op.next, j, op.nextPath, root) then Some(EndNotInTree(w, j))
    else if Steps(H, op.prev, SegLen(p)) != op.next then Some(WrongSteps(w, j))
    else None
  }

  function OpeningsFault(H: Hash, p: LaneParams, w: nat, required: seq<nat>, wp: WorkerProof, i: nat)
    : (f: Option<Reason>)
    requires p.checkpoints > 0 && |wp.openings| == |required| && i <= |required|
    ensures f.None? <==>
      forall k :: i <= k < |required| ==> OpeningOk(H, S0(H, p, w), SegLen(p), wp.root, required[k], wp.openings[k])
    decreases |required| - i
  {
    if i == |required| then None
    else
      var f := OpeningFault(H, p, w, wp.root, i, required[i], wp.openings[i]);
      if f.Some? then f else OpeningsFault(H, p, w, required, wp, i + 1)
  }

  function WorkerFault(H: Hash, p: LaneParams, w: nat, required: seq<nat>, wp: WorkerProof): (f: Option<Reason>)
    requires p.checkpoints > 0
    ensures f.None? <==> WorkerOk(H, p, w, required, wp)
  {
    if !FinalOk(H, p, wp) then Some(FinalNotBound(w))
    else if |wp.openings| != |required| then Some(OpeningCount(w))
    else OpeningsFault(H, p, w, required, wp, 0)
  }

  function WorkersFault(H: Hash, p: LaneParams, required: seq<nat>, proofs: seq<WorkerProof>, w: nat)
    : (f: Option<Reason>)
    requires p.checkpoints > 0 && w <= |proofs|
    ensures f.None? <==> forall v :: w <= v < |proofs| ==> WorkerOk(H, p, v, required, proofs[v])
    decreases |proofs| - w
  {
    if w == |proofs| then None
    else
      var f := WorkerFault(H, p, w, required, proofs[w]);
      if f.Some? then f else WorkersFault(H, p, required, proofs, w + 1)
  }

  function ShapeFault(proofs: seq<WorkerProof>, w: nat): (f: Option<Reason>)
    requires w <= |proofs|
    ensures f.None? <==> forall v :: w <= v < |proofs| ==> WellShaped(proofs[v], v)
    decreases |proofs| - w
  {
    if w == |proofs| then None
    else if !WellShaped(proofs[w], w) then Some(Malformed(w))
    else ShapeFault(proofs, w + 1)
  }

  /** The verdict: the reason of the first failing check, or acceptance. */
  ghost function LaneVerdict(H: Hash, p: LaneParams, workers: nat, challengeId: Digest, proofs: seq<WorkerProof>)
    : (v: Verdict)
    requires p.checkpoints > 0
    requires AllShaped(workers, proofs) ==> Drawable(H, p, challengeId, proofs)
    ensures v.Accepted? <==> LaneAccepts(H, p, workers, challengeId, proofs)
  {
    if |proofs| != workers then Rejected(WorkerCount)
    else
      var s := ShapeFault(proofs, 0);
      if s.Some? then Rejected(s.value)
      else
        var f := WorkersFault(H, p, Required(H, p, challengeId, proofs), proofs, 0);
        if f.Some? then Rejected(f.value) else Accepted
  }

  // ------------------------------------------------------------ what acceptance means

  /** The segments of a lane are drawn from a hash of the challenge, the lane and the roots its workers submit. */
  lemma {:induction false} LaneTranscriptHolds(H: Hash, p: LaneParams, workers: nat, challengeId: Digest,
                                               proofs: seq<WorkerProof>)
    returns (pre: Bytes)
    requires AllShaped(workers, proofs)
    ensures LaneTranscript(H, p, challengeId, proofs) == H(pre)
    ensures |pre| == 32 + |p.laneId| + 32 * workers
    ensures pre[..32] == challengeId && pre[32..32 + |p.laneId|] == p.laneId
    ensures forall w :: 0 <= w < workers ==>
      pre[32 + |p.laneId| + 32 * w..32 + |p.laneId| + 32 * (w + 1)] == proofs[w].root
  {
    pre := TranscriptHolds(H, challengeId, p.laneId, Roots(proofs));
    forall w | 0 <= w < workers
      ensures pre[32 + |p.laneId| + 32 * w..32 + |p.laneId| + 32 * (w + 1)] == proofs[w].root
    {
      assert Roots(proofs)[w] == proofs[w].root;
    }
  }

  /** What an accepted lane looks like, and what the verifier recomputed of it. */
  lemma {:induction false} AcceptedShape(H: Hash, p: LaneParams, workers: nat, challengeId: Digest,
                                         proofs: seq<WorkerProof>, w: nat, i: nat)
    requires p.checkpoints > 0 && LaneAccepts(H, p, workers, challengeId, proofs) && w < workers
    requires i < |Required(H, p, challengeId, proofs)|
    ensures |proofs| == workers && proofs[w].workerIndex == w && |proofs[w].root| == 32 && |proofs[w].final| == 32
    ensures |proofs[w].openings| == |Required(H, p, challengeId, proofs)|
    ensures var j, op := Required(H, p, challengeId, proofs)[i], proofs[w].openings[i];
      && op.seg == j && |op.prev| == 32 && |op.next| == 32
      && (j == 0 ==> op.prev == S0(H, p, w)) && (j > 0 ==> op.prevPath.Some?)
  {
    assert OpeningOk(H, S0(H, p, w), SegLen(p), proofs[w].root, Required(H, p, challengeId, proofs)[i],
                     proofs[w].openings[i]);
  }

  // ------------------------------------------------------------ the verifier

  /** How many segments the verifier may recompute for one worker. */
  function OpeningBound(p: LaneParams): nat { Min(p.samples, p.checkpoints) + 1 }

  /** The recomputation of one segment, with its cost in hash steps. */
  method Recompute(H: Hash, prev: Bytes, segLen: nat) returns (state: Bytes, ghost cost: nat)
    ensures state == Steps(H, prev, segLen) && cost == segLen
  {
    state, cost := prev, 0;
    for k := 0 to segLen
      invariant state == Steps(H, prev, k) && cost == k
    {
      state := H(state);
      cost := cost + 1;
    }
  }

  /** The checks on one opening. */
  method CheckOpening(H: Hash, p: LaneParams, w: nat, root: Bytes, i: nat, j: nat, op: Opening)
    returns (fault: Option<Reason>, ghost cost: nat)
    requires p.checkpoints > 0
    ensures fault == OpeningFault(H, p, w, root, i, j, op)
    ensures cost <= SegLen(p) && (fault.None? ==> cost == SegLen(p))
  {
    cost := 0;
    if op.seg != j || |op.prev| != 32 || |op.next| != 32 {
      return Some(WrongOpening(w, i)), 0;
    }
    if j == 0 {
      if op.prev != S0(H, p, w) {
        return Some(NotFromS0(w)), 0;
      }
    } else {
      if op.prevPath.None? {
        return Some(StartNotInTree(w, j)), 0;
      }
      var startOk := VerifyPath(H, op.prev, j - 1, op.prevPath.value, root);
      if !startOk {
        return Some(StartNotInTree(w, j)), 0;
      }
    }
    var endOk := VerifyPath(H, op.next, j, op.nextPath, root);
    if !endOk {
      return Some(EndNotInTree(w, j)), 0;
    }
    var state: Bytes;
    state, cost := Recompute(H, op.prev, SegLen(p));
    if state != op.next {
      return Some(WrongSteps(w, j)), cost;
    }
    return None, cost;
  }

  method CheckWorker(H: Hash, p: LaneParams, w: nat, expected: seq<nat>, wp: WorkerProof)
    returns (fault: Option<Reason>, ghost cost: nat)
    requires p.checkpoints > 0
    ensures fault == WorkerFault(H, p, w, expected, wp)
    ensures cost <= |expected| * SegLen(p) && (fault.None? ==> cost == |expected| * SegLen(p))
  {
    cost := 0;
    var finalOk := VerifyPath(H, wp.final, p.checkpoints - 1, wp.finalPath, wp.root);
    if !finalOk {
      return Some(FinalNotBound(w)), 0;
    }
    if |wp.openings| != |expected| {
      return Some(OpeningCount(w)), 0;
    }
    for i := 0 to |expected|
      invariant OpeningsFault(H, p, w, expected, wp, 0) == OpeningsFault(H, p, w, expected, wp, i)
      invariant cost == i * SegLen(p)
    {
      ghost var c: nat;
      fault, c := CheckOpening(H, p, w, wp.root, i, expected[i], wp.openings[i]);
      cost := cost + c;
      assert (i + 1) * SegLen(p) == i * SegLen(p) + SegLen(p);
      if fault.Some? {
        MulMono(i + 1, |expected|, SegLen(p));
        return;
      }
    }
    return None, cost;
  }

  lemma {:induction false} MulMono(a: nat, b: nat, c: nat)
    requires a <= b
    ensures a * c <= b * c
  {
    assert (b - a) * c >= 0;
  }

  /** The structural pass, which also collects the roots in worker order. */
  method CheckShapes(proofs: seq<WorkerProof>) returns (fault: Option<Reason>, roots: seq<Bytes>)
    ensures fault == ShapeFault(proofs, 0)
    ensures fault.None? ==> roots == Roots(proofs)
  {
    roots := [];
    for w := 0 to |proofs|
      invariant ShapeFault(proofs, 0) == ShapeFault(proofs, w)
      invariant roots == Roots(proofs)[..w]
    {
      if !WellShaped(proofs[w], w) {
        return Some(Malformed(w)), roots;
      }
      roots := roots + [proofs[w].root];
    }
    return None, roots;
  }

  method CheckWorkers(H: Hash, p: LaneParams, expected: seq<nat>, proofs: seq<WorkerProof>)
    returns (fault: Option<Reason>, ghost cost: nat)
    requires p.checkpoints > 0
    ensures fault == WorkersFault(H, p, expected, proofs, 0)
    ensures cost <= |proofs| * (|expected| * SegLen(p))
    ensures fault.None? ==> cost == |proofs| * (|expected| * SegLen(p))
  {
    cost := 0;
    ghost var each := |expected| * SegLen(p);
    for w := 0 to |proofs|
      invariant WorkersFault(H, p, expected, proofs, 0) == WorkersFault(H, p, expected, proofs, w)
      invariant cost == w * each
    {
      ghost var c: nat;
      fault, c := CheckWorker(H, p, w, expected, proofs[w]);
      cost := cost + c;
      assert (w + 1) * each == w * each + each;
      if fault.Some? {
        MulMono(w + 1, |proofs|, each);
        return;
      }
    }
    return None, cost;
  }

  /**
   `verifyLane`. On every input it recomputes at most workers * (min(K, C) + 1) segments. The
   second requires is what makes drawing the segments end.
   */
  method VerifyLane(H: Hash, p: LaneParams, workers: nat, challengeId: Digest, proofs: seq<WorkerProof>)
    returns (v: Verdict, ghost cost: nat)
    requires p.checkpoints > 0
    requires AllShaped(workers, proofs) ==> Drawable(H, p, challengeId, proofs)
    ensures v == LaneVerdict(H, p, workers, challengeId, proofs)
    ensures cost <= workers * (OpeningBound(p) * SegLen(p))
    ensures v.Accepted? ==> cost == workers * (|Required(H, p, challengeId, proofs)| * SegLen(p))
  {
    cost := 0;
    if |proofs| != workers {
      return Rejected(WorkerCount), 0;
    }
    var shape, roots := CheckShapes(proofs);
    if shape.Some? {
      return Rejected(shape.value), 0;
    }
    var sampled := SampleIndices(H, challengeId, p.laneId, roots, p.samples, p.checkpoints);
    var expected := RequiredSegments(sampled);
    assert expected == Required(H, p, challengeId, proofs);
    RequiredInRange(H, LaneTranscript(H, p, challengeId, proofs), p.samples, p.checkpoints);
    var fault: Option<Reason>;
    fault, cost := CheckWorkers(H, p, expected, proofs);
    CostBound(workers, |expected|, OpeningBound(p), SegLen(p));
    return (if fault.Some? then Rejected(fault.value) else Accepted), cost;
  }

  lemma {:induction false} CostBound(workers: nat, openings: nat, bound: nat, segLen: nat)
    requires openings <= bound
    ensures workers * (openings * segLen) <= workers * (bound * segLen)
  {
    MulMono(openings, bound, segLen);
    assert workers * (bound * segLen - openings * segLen) >= 0;
  }

  // ------------------------------------------------------------ the prover

  function HonestRoots(H: Hash, p: LaneParams, workers: nat): (roots: seq<Bytes>)
    requires p.checkpoints > 0
    ensures |roots| == workers
  {
    seq(workers, w requires w >= 0 => Root(H, Leaves(H, Checkpoints(H, p, w))))
  }

  function HonestOpening(H: Hash, p: LaneParams, w: nat, j: nat): Opening
    requires j < p.checkpoints
  {
    var leaves := Leaves(H, Checkpoints(H, p, w));
    Opening(j, State(H, p, w, j), if j == 0 then None else Some(Path(H, leaves, j - 1)),
            State(H, p, w, j + 1), Path(H, leaves, j))
  }

  function HonestWorker(H: Hash, p: LaneParams, w: nat, required: seq<nat>): WorkerProof
    requires p.checkpoints > 0 && forall i :: 0 <= i < |required| ==> required[i] < p.checkpoints
  {
    var leaves := Leaves(H, Checkpoints(H, p, w));
    WorkerProof(w, Root(H, leaves), State(H, p, w, p.checkpoints), Path(H, leaves, p.checkpoints - 1),
                seq(|required|, i requires 0 <= i < |required| => HonestOpening(H, p, w, required[i])))
  }

  ghost predicate HonestDrawable(H: Hash, p: LaneParams, workers: nat, challengeId: Digest)
    requires p.checkpoints > 0
  {
    Samplable(H, Transcript(H, challengeId, p.laneId, HonestRoots(H, p, workers)), p.samples, p.checkpoints)
  }

  ghost function HonestRequired(H: Hash, p: LaneParams, workers: nat, challengeId: Digest): (r: seq<nat>)
    requires p.checkpoints > 0 && HonestDrawable(H, p, workers, challengeId)
    ensures forall i :: 0 <= i < |r| ==> r[i] < p.checkpoints
  {
    var h := Transcript(H, challengeId, p.laneId, HonestRoots(H, p, workers));
    RequiredInRange(H, h, p.samples, p.checkpoints);
    RequiredSegments(Sample(H, h, p.samples, p.checkpoints))
  }

  ghost function HonestLane(H: Hash, p: LaneParams, workers: nat, challengeId: Digest): (proofs: seq<WorkerProof>)
    requires p.checkpoints > 0 && HonestDrawable(H, p, workers, challengeId)
    ensures |proofs| == workers
  {
    seq(workers, w requires w >= 0 => HonestWorker(H, p, w, HonestRequired(H, p, workers, challengeId)))
  }

  method OpenSegment(H: Hash, p: LaneParams, w: nat, cps: seq<Digest>, leaves: seq<Digest>, j: nat)
    returns (op: Opening)
    requires j < p.checkpoints && cps == Checkpoints(H, p, w) && leaves == Leaves(H, cps)
    ensures op == HonestOpening(H, p, w, j)
  {
    var prevPath: Option<seq<Bytes>> := None;
    if j != 0 {
      var path := MerklePath(H, leaves, j - 1);
      prevPath := Some(path);
    }
    var nextPath := MerklePath(H, leaves, j);
    op := Opening(j, if j == 0 then S0(H, p, w) else cps[j - 1], prevPath, cps[j], nextPath);
  }

  method OpenSegments(H: Hash, p: LaneParams, w: nat, cps: seq<Digest>, leaves: seq<Digest>, indices: seq<nat>)
    returns (openings: seq<Opening>)
    requires p.checkpoints > 0 && cps == Checkpoints(H, p, w) && leaves == Leaves(H, cps)
    requires forall i :: 0 <= i < |indices| ==> indices[i] < p.checkpoints
    ensures openings == HonestWorker(H, p, w, indices).openings
  {
    openings := [];
    for i := 0 to |indices|
      invariant |openings| == i
      invariant forall k :: 0 <= k < i ==> openings[k] == HonestOpening(H, p, w, indices[k])
    {
      var op := OpenSegment(H, p, w, cps, leaves, indices[i]);
      openings := openings + [op];
    }
  }

  method BuildProofs(H: Hash, p: LaneParams, workers: nat, chains: seq<seq<Digest>>, roots: seq<Bytes>,
                     indices: seq<nat>)
    returns (proofs: seq<WorkerProof>)
    requires p.checkpoints > 0 && |chains| == workers && roots == HonestRoots(H, p, workers)
    requires forall v :: 0 <= v < workers ==> chains[v] == Checkpoints(H, p, v)
    requires forall i :: 0 <= i < |indices| ==> indices[i] < p.checkpoints
    ensures |proofs| == workers
    ensures forall w :: 0 <= w < workers ==> proofs[w] == HonestWorker(H, p, w, indices)
  {
    proofs := [];
    for w := 0 to workers
      invariant |proofs| == w && forall v :: 0 <= v < w ==> proofs[v] == HonestWorker(H, p, v, indices)
    {
      var leaves := Leaves(H, chains[w]);
      var openings := OpenSegments(H, p, w, chains[w], leaves, indices);
      var finalPath := MerklePath(H, leaves, p.checkpoints - 1);
      proofs := proofs + [WorkerProof(w, roots[w], chains[w][p.checkpoints - 1], finalPath, openings)];
    }
  }

  /** `proveLane`, with the cost of its chains in hash steps: workers * L. None where computeChain throws. */
  method ProveLane(H: Hash, p: LaneParams, workers: nat, challengeId: Digest)
    returns (r: Option<seq<WorkerProof>>, ghost cost: nat)
    requires p.checkpoints > 0
    requires workers == 0 || p.chainLen % p.checkpoints == 0 ==> HonestDrawable(H, p, workers, challengeId)
    ensures r.Some? <==> workers == 0 || p.chainLen % p.checkpoints == 0
    ensures r.Some? ==> r.value == HonestLane(H, p, workers, challengeId)
    ensures r.Some? ==> cost == workers * p.chainLen
  {
    cost := 0;
    var chains, roots := [], [];
    for w := 0 to workers
      invariant |chains| == w && roots == HonestRoots(H, p, workers)[..w]
      invariant forall v :: 0 <= v < w ==> chains[v] == Checkpoints(H, p, v)
      invariant w > 0 ==> p.chainLen % p.checkpoints == 0
      invariant cost == w * p.chainLen
    {
      var cps: Option<seq<Digest>>;
      ghost var each: nat;
      cps, each := ComputeChain(H, p, w);
      cost := cost + each;
      if cps.None? {
        return None, cost;
      }
      assert (w + 1) * p.chainLen == w * p.chainLen + p.chainLen;
      var root: Bytes := MerkleRoot(H, Leaves(H, cps.value));
      chains := chains + [cps.value];
      roots := roots + [root];
    }
    assert roots == HonestRoots(H, p, workers);
    var sampled := SampleIndices(H, challengeId, p.laneId, roots, p.samples, p.checkpoints);
    var indices := RequiredSegments(sampled);
    assert indices == HonestRequired(H, p, workers, challengeId);
    var proofs := BuildProofs(H, p, workers, chains, roots, indices);
    assert proofs == HonestLane(H, p, workers, challengeId);
    return Some(proofs), cost;
  }

  /** The verifier's bound against the prover's cost: (min(K, C) + 1) / C of it. */
  lemma {:induction false} CostRatio(p: LaneParams, workers: nat)
    requires p.checkpoints > 0 && p.chainLen % p.checkpoints == 0
    ensures p.checkpoints * (workers * (OpeningBound(p) * SegLen(p))) == OpeningBound(p) * (workers * p.chainLen)
  {
    var c, s, o := p.checkpoints, SegLen(p), OpeningBound(p);
    assert p.chainLen == c * s by {
      QuotientUnique(p.chainLen + c - 1, c, p.chainLen / c, c - 1);
    }
    Swap(c, workers, o, s);
  }

  lemma {:induction false} Swap(c: nat, w: nat, o: nat, s: nat)
    ensures c * (w * (o * s)) == o * (w * (c * s))
  {
    assert w * (o * s) == o * (w * s);
    assert w * (c * s) == c * (w * s);
    assert c * (o * (w * s)) == o * (c * (w * s));
  }

  // ------------------------------------------------------------ completeness

  lemma {:induction false} HonestOpeningOk(H: Hash, p: LaneParams, w: nat, j: nat)
    requires j < p.checkpoints
    ensures OpeningOk(H, S0(H, p, w), SegLen(p), Root(H, Leaves(H, Checkpoints(H, p, w))), j, HonestOpening(H, p, w, j))
  {
    var cps := Checkpoints(H, p, w);
    if j == 0 {
      assert State(H, p, w, 0) == S0(H, p, w);
    } else {
      PathVerifies(H, cps, j - 1);
      assert cps[j - 1] == State(H, p, w, j);
    }
    PathVerifies(H, cps, j);
    SegmentSteps(H, p, w, j);
  }

  lemma {:induction false} HonestWorkerOk(H: Hash, p: LaneParams, w: nat, required: seq<nat>)
    requires p.checkpoints > 0 && forall i :: 0 <= i < |required| ==> required[i] < p.checkpoints
    ensures WorkerOk(H, p, w, required, HonestWorker(H, p, w, required))
  {
    PathVerifies(H, Checkpoints(H, p, w), p.checkpoints - 1);
    forall i | 0 <= i < |required|
      ensures OpeningOk(H, S0(H, p, w), SegLen(p), Root(H, Leaves(H, Checkpoints(H, p, w))), required[i],
                        HonestOpening(H, p, w, required[i]))
    {
      HonestOpeningOk(H, p, w, required[i]);
    }
  }

  /** The verifier accepts what the prover builds, for every hash, worker count and parameters. */
  lemma {:induction false} Completeness(H: Hash, p: LaneParams, workers: nat, challengeId: Digest)
    requires p.checkpoints > 0 && HonestDrawable(H, p, workers, challengeId)
    ensures LaneAccepts(H, p, workers, challengeId, HonestLane(H, p, workers, challengeId))
  {
    var proofs := HonestLane(H, p, workers, challengeId);
    assert Roots(proofs) == HonestRoots(H, p, workers);
    var required := HonestRequired(H, p, workers, challengeId);
    forall w | 0 <= w < workers ensures WorkerOk(H, p, w, required, proofs[w]) {
      HonestWorkerOk(H, p, w, required);
    }
  }
}
