/**
 What an accepted worker proof binds by itself. The verifier never checks that a root belongs to a tree
 of C leaves, so nothing here is measured against a committed list: the leaves a proof opens are
 compared with each other. If its paths to one leaf have one length, they name one list of checkpoints, of
 which every required segment was computed, or two of its paths hand over a collision.
 */
module ProofBinding {
  import opened Hashing
  import opened Merkle
  import opened PathBinding
  import opened Chain
  import opened Sampling
  import opened Lane
  import opened LaneSoundness

  function StartLeaf(op: Opening): Leaf
    requires op.seg > 0 && op.prevPath.Some?
  {
    Leaf(op.seg - 1, op.prev, op.prevPath.value)
  }

  function EndLeaf(op: Opening): Leaf
    requires op.seg >= 0
  {
    Leaf(op.seg, op.next, op.nextPath)
  }

  function OpeningLeaves(op: Opening): seq<Leaf> {
    (if op.seg > 0 && op.prevPath.Some? then [StartLeaf(op)] else []) + if op.seg >= 0 then [EndLeaf(op)] else []
  }

  /** The leaves of the first n openings. */
  function AllLeaves(openings: seq<Opening>, n: nat): seq<Leaf>
    requires n <= |openings|
  {
    if n == 0 then [] else AllLeaves(openings, n - 1) + OpeningLeaves(openings[n - 1])
  }

  function FinalLeaf(C: nat, wp: WorkerProof): Leaf
    requires C > 0
  {
    Leaf(C - 1, wp.final, wp.finalPath)
  }

  /** Every leaf a worker proof opens: the closing one and both ends of its segments. */
  function LeavesOf(C: nat, wp: WorkerProof): seq<Leaf>
    requires C > 0
  {
    [FinalLeaf(C, wp)] + AllLeaves(wp.openings, |wp.openings|)
  }

  /** Paths to one leaf have one length, leaf 0 excepted. Binds one proof, not what another one would open. */
  predicate OneLength(leaves: seq<Leaf>) {
    forall a, b :: 0 <= a < |leaves| && 0 <= b < |leaves| && leaves[a].index == leaves[b].index > 0 ==>
      |leaves[a].path| == |leaves[b].path|
  }

  /** All paths have one length. Leaf 0 is opened by every proof, so this binds what any other one would open. */
  predicate Level(leaves: seq<Leaf>) {
    forall a, b :: 0 <= a < |leaves| && 0 <= b < |leaves| ==> |leaves[a].path| == |leaves[b].path|
  }

  // ------------------------------------------------------------ the collision finder

  function ClashWith(H: Hash, a: Leaf, leaves: seq<Leaf>, k: nat): (e: Option<(Bytes, Bytes)>)
    requires k <= |leaves|
    ensures e.None? <==> forall j :: k <= j < |leaves| ==> Compare(H, a, leaves[j]).None?
    ensures e.Some? ==> exists j :: k <= j < |leaves| && Compare(H, a, leaves[j]) == e
    decreases |leaves| - k
  {
    if k == |leaves| then None
    else
      var here := Compare(H, a, leaves[k]);
      if here.Some? then here else ClashWith(H, a, leaves, k + 1)
  }

  /** The first collision met by comparing every leaf from k on with every leaf. */
  function FindClash(H: Hash, leaves: seq<Leaf>, k: nat): Option<(Bytes, Bytes)>
    requires k <= |leaves|
    decreases |leaves| - k
  {
    if k == |leaves| then None
    else
      var here := ClashWith(H, leaves[k], leaves, 0);
      if here.Some? then here else FindClash(H, leaves, k + 1)
  }

  /** It returns nothing exactly when no two of these leaves clash. */
  lemma {:induction false} NoClashBetween(H: Hash, leaves: seq<Leaf>, k: nat, a: nat, b: nat)
    requires k <= a < |leaves| && b < |leaves| && FindClash(H, leaves, k).None?
    ensures Compare(H, leaves[a], leaves[b]).None?
    decreases |leaves| - k
  {
    if k < a {
      NoClashBetween(H, leaves, k + 1, a, b);
    }
  }

  lemma {:induction false} NoClashAtAll(H: Hash, leaves: seq<Leaf>, k: nat)
    requires k <= |leaves|
    requires forall a, b :: 0 <= a < |leaves| && 0 <= b < |leaves| ==> Compare(H, leaves[a], leaves[b]).None?
    ensures FindClash(H, leaves, k).None?
    decreases |leaves| - k
  {
    if k < |leaves| {
      NoClashAtAll(H, leaves, k + 1);
    }
  }

  predicate LeavesOk(H: Hash, root: Bytes, leaves: seq<Leaf>) {
    forall k :: 0 <= k < |leaves| ==> LeafOk(H, root, leaves[k])
  }

  /** What the finder returns is a collision. */
  lemma {:induction false} FoundCollides(H: Hash, root: Bytes, leaves: seq<Leaf>, k: nat)
    requires k <= |leaves| && LeavesOk(H, root, leaves) && FindClash(H, leaves, k).Some?
    ensures Collides(H, FindClash(H, leaves, k).value)
    decreases |leaves| - k
  {
    var here := ClashWith(H, leaves[k], leaves, 0);
    if here.Some? {
      var b :| 0 <= b < |leaves| && Compare(H, leaves[k], leaves[b]) == here;
      CompareWorks(H, leaves[k], leaves[b]);
    } else {
      FoundCollides(H, root, leaves, k + 1);
    }
  }

  /** Without one, leaves of one index and one path length (any lengths at index 0) are the same leaf. */
  lemma {:induction false} NoClashAgrees(H: Hash, root: Bytes, leaves: seq<Leaf>, a: Leaf, b: Leaf)
    requires LeavesOk(H, root, leaves) && FindClash(H, leaves, 0).None?
    requires a in leaves && b in leaves && a.index == b.index && (|a.path| == |b.path| || a.index == 0)
    ensures a == b
  {
    var j :| 0 <= j < |leaves| && leaves[j] == a;
    var k :| 0 <= k < |leaves| && leaves[k] == b;
    NoClashBetween(H, leaves, 0, j, k);
    SameLengthBinding(H, root, a, b);
  }

  // ------------------------------------------------------------ the list the leaves name

  /** The value opened at an index, empty where none is. */
  function ValueAt(leaves: seq<Leaf>, i: nat): Bytes {
    if leaves == [] then []
    else if leaves[|leaves| - 1].index == i then leaves[|leaves| - 1].value
    else ValueAt(leaves[..|leaves| - 1], i)
  }

  lemma {:induction false} ValueAtIs(leaves: seq<Leaf>, l: Leaf)
    requires l in leaves
    requires forall b :: b in leaves && b.index == l.index ==> b.value == l.value
    ensures ValueAt(leaves, l.index) == l.value
    decreases |leaves|
  {
    var n := |leaves| - 1;
    if leaves[n].index != l.index {
      assert leaves == leaves[..n] + [leaves[n]];
      ValueAtIs(leaves[..n], l);
    }
  }

  /** The C checkpoints the opened leaves name. */
  function Named(C: nat, leaves: seq<Leaf>): (cps: seq<Bytes>)
    ensures |cps| == C
  {
    seq(C, i requires 0 <= i < C => ValueAt(leaves, i))
  }

  /** Leaves that verify under one root, have one length and show no collision are all on the list they name. */
  lemma {:induction false} NamedIs(H: Hash, root: Bytes, C: nat, leaves: seq<Leaf>, l: Leaf)
    requires LeavesOk(H, root, leaves) && OneLength(leaves) && FindClash(H, leaves, 0).None?
    requires l in leaves && l.index < C
    ensures Named(C, leaves)[l.index] == l.value
  {
    var j :| 0 <= j < |leaves| && leaves[j] == l;
    forall b | b in leaves && b.index == l.index ensures b.value == l.value {
      var k :| 0 <= k < |leaves| && leaves[k] == b;
      assert l.index > 0 ==> |leaves[j].path| == |leaves[k].path|;
      NoClashAgrees(H, root, leaves, l, b);
    }
    ValueAtIs(leaves, l);
  }

  // ------------------------------------------------------------ the leaves of an accepted worker

  lemma {:induction false} LeafHasOpening(openings: seq<Opening>, n: nat, l: Leaf) returns (i: nat)
    requires n <= |openings| && l in AllLeaves(openings, n)
    ensures i < n && l in OpeningLeaves(openings[i])
  {
    if l in AllLeaves(openings, n - 1) {
      i := LeafHasOpening(openings, n - 1, l);
    } else {
      i := n - 1;
    }
  }

  lemma {:induction false} OpeningHasLeaf(openings: seq<Opening>, n: nat, l: Leaf, i: nat)
    requires i < n <= |openings| && l in OpeningLeaves(openings[i])
    ensures l in AllLeaves(openings, n)
  {
    assert AllLeaves(openings, n) == AllLeaves(openings, n - 1) + OpeningLeaves(openings[n - 1]);
    if i < n - 1 {
      OpeningHasLeaf(openings, n - 1, l, i);
    }
  }

  /** The leaves of an opening that passed are verified, and inside the list. */
  lemma {:induction false} OpeningLeavesOk(H: Hash, start: Bytes, segLen: nat, root: Bytes, j: nat, op: Opening,
                                           l: Leaf)
    requires OpeningOk(H, start, segLen, root, j, op) && l in OpeningLeaves(op)
    ensures LeafOk(H, root, l) && l.index <= j
  {
  }

  lemma {:induction false} WorkerLeavesOk(H: Hash, p: LaneParams, w: nat, required: seq<nat>, wp: WorkerProof)
    requires p.checkpoints > 0 && WorkerOk(H, p, w, required, wp)
    ensures LeavesOk(H, wp.root, LeavesOf(p.checkpoints, wp))
  {
    var leaves := LeavesOf(p.checkpoints, wp);
    forall k | 0 <= k < |leaves| ensures LeafOk(H, wp.root, leaves[k]) {
      if k > 0 {
        var l := leaves[k];
        assert l == AllLeaves(wp.openings, |wp.openings|)[k - 1];
        var i := LeafHasOpening(wp.openings, |wp.openings|, l);
        OpeningLeavesOk(H, S0(H, p, w), SegLen(p), wp.root, required[i], wp.openings[i], l);
      }
    }
  }

  /** Both ends of an opened segment are among the leaves. */
  lemma {:induction false} EndsAreLeaves(C: nat, wp: WorkerProof, i: nat)
    requires C > 0 && i < |wp.openings| && wp.openings[i].seg >= 0
    ensures EndLeaf(wp.openings[i]) in LeavesOf(C, wp)
    ensures wp.openings[i].seg > 0 && wp.openings[i].prevPath.Some? ==> StartLeaf(wp.openings[i]) in LeavesOf(C, wp)
  {
    var op := wp.openings[i];
    assert EndLeaf(op) in OpeningLeaves(op);
    OpeningHasLeaf(wp.openings, |wp.openings|, EndLeaf(op), i);
    if op.seg > 0 && op.prevPath.Some? {
      assert StartLeaf(op) in OpeningLeaves(op);
      OpeningHasLeaf(wp.openings, |wp.openings|, StartLeaf(op), i);
    }
  }

  // ------------------------------------------------------------ the list is honoured

  /** An opening of an accepted worker, measured against the list named by leaves that include its own. */
  lemma {:induction false} OpensNamed(H: Hash, start: Bytes, segLen: nat, root: Bytes, C: nat, leaves: seq<Leaf>,
                                      j: nat, op: Opening)
    requires LeavesOk(H, root, leaves) && OneLength(leaves) && FindClash(H, leaves, 0).None?
    requires j < C && OpeningOk(H, start, segLen, root, j, op)
    requires EndLeaf(op) in leaves && (j > 0 ==> StartLeaf(op) in leaves)
    ensures Opens(H, start, segLen, Named(C, leaves), j, op)
  {
    NamedIs(H, root, C, leaves, EndLeaf(op));
    if j > 0 {
      NamedIs(H, root, C, leaves, StartLeaf(op));
    }
  }

  lemma {:induction false} HonoursNamed(H: Hash, p: LaneParams, w: nat, required: seq<nat>, wp: WorkerProof,
                                        leaves: seq<Leaf>)
    requires p.checkpoints > 0 && WorkerOk(H, p, w, required, wp)
    requires forall i :: 0 <= i < |required| ==> required[i] < p.checkpoints
    requires LeavesOk(H, wp.root, leaves) && OneLength(leaves) && FindClash(H, leaves, 0).None?
    requires forall l :: l in LeavesOf(p.checkpoints, wp) ==> l in leaves
    ensures Honours(H, p, w, Named(p.checkpoints, leaves), required, wp)
  {
    NamedIs(H, wp.root, p.checkpoints, leaves, FinalLeaf(p.checkpoints, wp));
    forall i | 0 <= i < |required|
      ensures Opens(H, S0(H, p, w), SegLen(p), Named(p.checkpoints, leaves), required[i], wp.openings[i])
    {
      EndsAreLeaves(p.checkpoints, wp, i);
      OpensNamed(H, S0(H, p, w), SegLen(p), wp.root, p.checkpoints, leaves, required[i], wp.openings[i]);
    }
  }

  /**
   One worker, no committed list: if its paths have one length, the proof yields a collision between two
   of them, or it names a list it honours. Its final state is the last of the list, and every required
   segment leads from one entry to the next, from s_0 to the first in the case of segment 0.
   */
  lemma {:induction false} WorkerBinds(H: Hash, p: LaneParams, w: nat, required: seq<nat>, wp: WorkerProof)
    requires p.checkpoints > 0 && WorkerOk(H, p, w, required, wp)
    requires forall i :: 0 <= i < |required| ==> required[i] < p.checkpoints
    requires OneLength(LeavesOf(p.checkpoints, wp))
    ensures var leaves := LeavesOf(p.checkpoints, wp);
      var e := FindClash(H, leaves, 0);
      if e.Some? then Collides(H, e.value) else Honours(H, p, w, Named(p.checkpoints, leaves), required, wp)
  {
    var leaves := LeavesOf(p.checkpoints, wp);
    WorkerLeavesOk(H, p, w, required, wp);
    if FindClash(H, leaves, 0).Some? {
      FoundCollides(H, wp.root, leaves, 0);
    } else {
      HonoursNamed(H, p, w, required, wp, leaves);
    }
  }

  /** So the segments of a worker join: where one required segment ends the next one starts. */
  lemma {:induction false} SegmentsJoin(H: Hash, p: LaneParams, w: nat, required: seq<nat>, wp: WorkerProof, a: nat,
                                        b: nat)
    requires p.checkpoints > 0 && WorkerOk(H, p, w, required, wp)
    requires forall i :: 0 <= i < |required| ==> required[i] < p.checkpoints
    requires OneLength(LeavesOf(p.checkpoints, wp)) && FindClash(H, LeavesOf(p.checkpoints, wp), 0).None?
    requires a < |required| && b < |required|
    ensures required[b] == required[a] + 1 ==> wp.openings[b].prev == wp.openings[a].next
    ensures required[a] == p.checkpoints - 1 ==> wp.final == wp.openings[a].next
  {
    WorkerBinds(H, p, w, required, wp);
    var cps := Named(p.checkpoints, LeavesOf(p.checkpoints, wp));
    assert Opens(H, S0(H, p, w), SegLen(p), cps, required[a], wp.openings[a]);
    assert Opens(H, S0(H, p, w), SegLen(p), cps, required[b], wp.openings[b]);
  }

  // ------------------------------------------------------------ the lane

  /** The length condition on every worker of a lane. */
  predicate LengthsAgree(C: nat, proofs: seq<WorkerProof>)
    requires C > 0
  {
    forall w :: 0 <= w < |proofs| ==> OneLength(LeavesOf(C, proofs[w]))
  }

  /** All paths of each worker of a lane have one length. */
  predicate LevelProofs(C: nat, proofs: seq<WorkerProof>)
    requires C > 0
  {
    forall w :: 0 <= w < |proofs| ==> Level(LeavesOf(C, proofs[w]))
  }

  /** The conditions hold in particular where every path has ceil(log2 C) siblings. */
  lemma {:induction false} HighPathsAgree(C: nat, wp: WorkerProof)
    requires C > 0 && PathsHigh(C, wp)
    ensures Level(LeavesOf(C, wp)) && OneLength(LeavesOf(C, wp))
  {
    var leaves := LeavesOf(C, wp);
    forall k | 0 <= k < |leaves| ensures |leaves[k].path| == Height(C) {
      if k > 0 {
        assert leaves[k] == AllLeaves(wp.openings, |wp.openings|)[k - 1];
        var i := LeafHasOpening(wp.openings, |wp.openings|, leaves[k]);
        assert OpeningHigh(C, wp.openings[i]);
      }
    }
  }

  /** The same for a lane the verifier accepts, whatever its roots are. */
  lemma {:induction false} LaneBinds(H: Hash, p: LaneParams, workers: nat, challengeId: Digest,
                                     proofs: seq<WorkerProof>, w: nat)
    requires p.checkpoints > 0 && LaneAccepts(H, p, workers, challengeId, proofs) && w < workers
    requires LengthsAgree(p.checkpoints, proofs)
    ensures var leaves := LeavesOf(p.checkpoints, proofs[w]);
      var e := FindClash(H, leaves, 0);
      if e.Some? then Collides(H, e.value)
      else Honours(H, p, w, Named(p.checkpoints, leaves), Required(H, p, challengeId, proofs), proofs[w])
  {
    RequiredInRange(H, LaneTranscript(H, p, challengeId, proofs), p.samples, p.checkpoints);
    WorkerBinds(H, p, w, Required(H, p, challengeId, proofs), proofs[w]);
  }

  /** An honoured list all of whose segments are required is the chain. */
  lemma {:induction false} HonouredIsChain(H: Hash, p: LaneParams, w: nat, cps: seq<Bytes>, required: seq<nat>,
                                           wp: WorkerProof)
    requires |cps| == p.checkpoints > 0 && Honours(H, p, w, cps, required, wp)
    requires forall j :: 0 <= j < p.checkpoints ==> j in required
    ensures cps == Checkpoints(H, p, w) && wp.final == State(H, p, w, p.checkpoints)
  {
    forall j | 0 <= j < |cps| ensures Steps(H, SegStart(S0(H, p, w), cps, j), SegLen(p)) == cps[j] {
      assert j in required;
      var i :| 0 <= i < |required| && required[i] == j;
      assert Opens(H, S0(H, p, w), SegLen(p), cps, required[i], wp.openings[i]);
    }
    LinkedIsChain(H, p, w, cps);
    LastCheckpoint(H, p, w);
  }

  lemma {:induction false} EveryRequired(H: Hash, p: LaneParams, challengeId: Digest, proofs: seq<WorkerProof>)
    requires p.checkpoints > 0 && Drawable(H, p, challengeId, proofs) && p.samples >= p.checkpoints
    ensures forall j :: 0 <= j < p.checkpoints ==> j in Required(H, p, challengeId, proofs)
  {
    forall j | 0 <= j < p.checkpoints ensures j in Required(H, p, challengeId, proofs) {
      AllRequired(H, LaneTranscript(H, p, challengeId, proofs), p.samples, p.checkpoints, j);
    }
  }

  /**
   With K at least C and paths of one length, nothing but a collision between two paths of the proof
   stands between acceptance and the work: the final state is the one C segments from s_0.
   */
  lemma {:induction false} FullOpeningBindsChain(H: Hash, p: LaneParams, workers: nat, challengeId: Digest,
                                                 proofs: seq<WorkerProof>, w: nat)
    requires p.checkpoints > 0 && LaneAccepts(H, p, workers, challengeId, proofs) && w < workers
    requires LengthsAgree(p.checkpoints, proofs) && p.samples >= p.checkpoints
    ensures var leaves := LeavesOf(p.checkpoints, proofs[w]);
      var e := FindClash(H, leaves, 0);
      if e.Some? then Collides(H, e.value)
      else Named(p.checkpoints, leaves) == Checkpoints(H, p, w) && proofs[w].final == State(H, p, w, p.checkpoints)
  {
    LaneBinds(H, p, workers, challengeId, proofs, w);
    EveryRequired(H, p, challengeId, proofs);
    var leaves := LeavesOf(p.checkpoints, proofs[w]);
    if FindClash(H, leaves, 0).None? {
      HonouredIsChain(H, p, w, Named(p.checkpoints, leaves), Required(H, p, challengeId, proofs), proofs[w]);
    }
  }

  /** ... so where C divides L it is L hash steps from s_0. */
  lemma {:induction false} FullOpeningBindsWork(H: Hash, p: LaneParams, workers: nat, challengeId: Digest,
                                                proofs: seq<WorkerProof>, w: nat)
    requires p.checkpoints > 0 && LaneAccepts(H, p, workers, challengeId, proofs) && w < workers
    requires LengthsAgree(p.checkpoints, proofs) && p.samples >= p.checkpoints && p.chainLen % p.checkpoints == 0
    ensures var e := FindClash(H, LeavesOf(p.checkpoints, proofs[w]), 0);
      if e.Some? then Collides(H, e.value) else proofs[w].final == Steps(H, S0(H, p, w), p.chainLen)
  {
    FullOpeningBindsChain(H, p, workers, challengeId, proofs, w);
    FullChain(H, p, w);
  }
}
