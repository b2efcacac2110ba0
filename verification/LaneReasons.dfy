/** What a rejected lane's reason says: a check that fails, and that what comes before it passes. */
module LaneReasons {
  import opened Hashing
  import opened Merkle
  import opened Chain
  import opened Lane

  /** The check a reason names fails. */
  ghost predicate Fails(H: Hash, p: LaneParams, required: seq<nat>, proofs: seq<WorkerProof>, r: Reason)
    requires p.checkpoints > 0
  {
    match r
    case WorkerCount => false
    case Malformed(w) =>
      w < |proofs| && (proofs[w].workerIndex != w || |proofs[w].root| != 32 || |proofs[w].final| != 32)
    case FinalNotBound(w) =>
      w < |proofs| && !PathOk(H, proofs[w].final, p.checkpoints - 1, proofs[w].finalPath, proofs[w].root)
    case OpeningCount(w) => w < |proofs| && |proofs[w].openings| != |required|
    case WrongOpening(w, i) =>
      && w < |proofs| && i < |proofs[w].openings| == |required|
      && var op := proofs[w].openings[i];
         op.seg != required[i] || |op.prev| != 32 || |op.next| != 32
    case NotFromS0(w) =>
      w < |proofs| && exists i: nat :: Opened(required, proofs[w], i, 0) && proofs[w].openings[i].prev != S0(H, p, w)
    case StartNotInTree(w, j) =>
      && w < |proofs| && j > 0
      && exists i: nat :: Opened(required, proofs[w], i, j) && StartAstray(H, proofs[w].root, j, proofs[w].openings[i])
    case EndNotInTree(w, j) =>
      && w < |proofs|
      && exists i: nat :: Opened(required, proofs[w], i, j) && EndAstray(H, proofs[w].root, j, proofs[w].openings[i])
    case WrongSteps(w, j) =>
      && w < |proofs|
      && exists i: nat :: Opened(required, proofs[w], i, j) && Miscounted(H, SegLen(p), proofs[w].openings[i])
  }

  predicate StartAstray(H: Hash, root: Bytes, j: nat, op: Opening)
    requires j > 0
  {
    op.prevPath.None? || !PathOk(H, op.prev, j - 1, op.prevPath.value, root)
  }

  predicate EndAstray(H: Hash, root: Bytes, j: nat, op: Opening) { !PathOk(H, op.next, j, op.nextPath, root) }

  predicate Miscounted(H: Hash, segLen: nat, op: Opening) { Steps(H, op.prev, segLen) != op.next }

  predicate Opened(required: seq<nat>, wp: WorkerProof, i: nat, j: nat) {
    i < |required| == |wp.openings| && required[i] == j
  }

  /** The worker a reason is about. */
  function AboutWorker(r: Reason): nat {
    match r
    case WorkerCount => 0
    case Malformed(w) => w
    case FinalNotBound(w) => w
    case OpeningCount(w) => w
    case WrongOpening(w, _) => w
    case NotFromS0(w) => w
    case StartNotInTree(w, _) => w
    case EndNotInTree(w, _) => w
    case WrongSteps(w, _) => w
  }

  lemma {:induction false} OpeningFails(H: Hash, p: LaneParams, required: seq<nat>, proofs: seq<WorkerProof>, w: nat,
                                        i: nat)
    requires p.checkpoints > 0 && w < |proofs| && i < |required| == |proofs[w].openings|
    requires OpeningFault(H, p, w, proofs[w].root, i, required[i], proofs[w].openings[i]).Some?
    ensures var r := OpeningFault(H, p, w, proofs[w].root, i, required[i], proofs[w].openings[i]).value;
      !r.WorkerCount? && !r.Malformed? && AboutWorker(r) == w && Fails(H, p, required, proofs, r)
  {
    assert Opened(required, proofs[w], i, required[i]);
  }

  lemma {:induction false} OpeningsFail(H: Hash, p: LaneParams, required: seq<nat>, proofs: seq<WorkerProof>, w: nat,
                                        i: nat)
    requires p.checkpoints > 0 && w < |proofs| && i <= |required| == |proofs[w].openings|
    requires OpeningsFault(H, p, w, required, proofs[w], i).Some?
    ensures var r := OpeningsFault(H, p, w, required, proofs[w], i).value;
      !r.WorkerCount? && !r.Malformed? && AboutWorker(r) == w && Fails(H, p, required, proofs, r)
    decreases |required| - i
  {
    if OpeningFault(H, p, w, proofs[w].root, i, required[i], proofs[w].openings[i]).Some? {
      OpeningFails(H, p, required, proofs, w, i);
    } else {
      OpeningsFail(H, p, required, proofs, w, i + 1);
    }
  }

  lemma {:induction false} WorkersFail(H: Hash, p: LaneParams, required: seq<nat>, proofs: seq<WorkerProof>, w: nat)
    requires p.checkpoints > 0 && w <= |proofs| && WorkersFault(H, p, required, proofs, w).Some?
    ensures var r := WorkersFault(H, p, required, proofs, w).value;
      && !r.WorkerCount? && !r.Malformed? && Fails(H, p, required, proofs, r)
      && w <= AboutWorker(r) < |proofs|
      && forall v :: w <= v < AboutWorker(r) ==> WorkerOk(H, p, v, required, proofs[v])
    decreases |proofs| - w
  {
    if WorkerFault(H, p, w, required, proofs[w]).None? {
      WorkersFail(H, p, required, proofs, w + 1);
    } else if FinalOk(H, p, proofs[w]) && |proofs[w].openings| == |required| {
      OpeningsFail(H, p, required, proofs, w, 0);
    }
  }

  lemma {:induction false} ShapesFail(H: Hash, p: LaneParams, required: seq<nat>, proofs: seq<WorkerProof>, w: nat)
    requires p.checkpoints > 0 && w <= |proofs| && ShapeFault(proofs, w).Some?
    ensures var r := ShapeFault(proofs, w).value;
      && r.Malformed? && Fails(H, p, required, proofs, r) && w <= AboutWorker(r)
      && forall v :: w <= v < AboutWorker(r) ==> WellShaped(proofs[v], v)
    decreases |proofs| - w
  {
    if WellShaped(proofs[w], w) {
      ShapesFail(H, p, required, proofs, w + 1);
    }
  }

  /** A rejection names a check that fails, for the first worker one fails for; shapes are checked before all else. */
  lemma {:induction false} RejectionMeans(H: Hash, p: LaneParams, workers: nat, challengeId: Digest,
                                          proofs: seq<WorkerProof>)
    requires p.checkpoints > 0 && (AllShaped(workers, proofs) ==> Drawable(H, p, challengeId, proofs))
    requires LaneVerdict(H, p, workers, challengeId, proofs).Rejected?
    ensures var r := LaneVerdict(H, p, workers, challengeId, proofs).reason;
      if |proofs| != workers then r == WorkerCount
      else if !AllShaped(workers, proofs) then
        r.Malformed? && Fails(H, p, [], proofs, r) && forall v :: 0 <= v < r.worker ==> WellShaped(proofs[v], v)
      else
        && !r.WorkerCount? && !r.Malformed? && Fails(H, p, Required(H, p, challengeId, proofs), proofs, r)
        && forall v :: 0 <= v < AboutWorker(r) && v < workers ==>
             WorkerOk(H, p, v, Required(H, p, challengeId, proofs), proofs[v])
  {
    if |proofs| == workers {
      if AllShaped(workers, proofs) {
        WorkersFail(H, p, Required(H, p, challengeId, proofs), proofs, 0);
      } else {
        ShapesFail(H, p, [], proofs, 0);
      }
    }
  }

  /** A lane that passes gives no reason to reject it. */
  lemma {:induction false} NothingFails(H: Hash, p: LaneParams, required: seq<nat>, proofs: seq<WorkerProof>, r: Reason)
    requires p.checkpoints > 0
    requires forall w :: 0 <= w < |proofs| ==> WellShaped(proofs[w], w) && WorkerOk(H, p, w, required, proofs[w])
    ensures !Fails(H, p, required, proofs, r)
  {
    var w := AboutWorker(r);
    if w < |proofs| {
      assert WorkerOk(H, p, w, required, proofs[w]);
      forall i: nat, j: nat | Opened(required, proofs[w], i, j)
        ensures OpeningOk(H, S0(H, p, w), SegLen(p), proofs[w].root, j, proofs[w].openings[i])
      {
      }
    }
  }

  /** A lane is accepted exactly if it has a proof from each worker and no check fails. */
  lemma {:induction false} AcceptedIffNothingFails(H: Hash, p: LaneParams, workers: nat, challengeId: Digest,
                                                   proofs: seq<WorkerProof>)
    requires p.checkpoints > 0 && Drawable(H, p, challengeId, proofs)
    ensures LaneVerdict(H, p, workers, challengeId, proofs).Accepted? <==>
      |proofs| == workers && forall r :: !Fails(H, p, Required(H, p, challengeId, proofs), proofs, r)
  {
    var required := Required(H, p, challengeId, proofs);
    var v := LaneVerdict(H, p, workers, challengeId, proofs);
    if v.Accepted? {
      forall r ensures !Fails(H, p, required, proofs, r) {
        NothingFails(H, p, required, proofs, r);
      }
    } else {
      RejectionMeans(H, p, workers, challengeId, proofs);
      assert v.reason == WorkerCount || Fails(H, p, required, proofs, v.reason);
    }
  }
}
