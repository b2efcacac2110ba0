/**
 What the unchecked path lengths leave open. The verifier accepts lanes whose final state is any 32 bytes,
 and lanes of which two segments were computed; both need an index opened at two path lengths.
 */
module PathLengths {
  import opened Arith
  import opened Hashing
  import opened Merkle
  import opened PathBinding
  import opened Plans
  import opened Chain
  import opened Sampling
  import opened Lane
  import opened ProofBinding

  // ------------------------------------------------------------ lanes built around a root

  /** A worker's root with an opening ready for each of the C segments. */
  datatype Kit = Kit(root: Digest, final: Bytes, finalPath: seq<Bytes>, openings: seq<Opening>)

  ghost predicate KitOk(H: Hash, p: LaneParams, w: nat, kit: Kit) {
    && p.checkpoints > 0 && |kit.final| == 32 && |kit.openings| == p.checkpoints
    && PathOk(H, kit.final, p.checkpoints - 1, kit.finalPath, kit.root)
    && forall j :: 0 <= j < p.checkpoints ==> OpeningOk(H, S0(H, p, w), SegLen(p), kit.root, j, kit.openings[j])
  }

  function KitRoots(kits: seq<Kit>): (roots: seq<Bytes>)
    ensures |roots| == |kits|
  {
    seq(|kits|, w requires 0 <= w < |kits| => kits[w].root)
  }

  ghost predicate KitsDrawable(H: Hash, p: LaneParams, challengeId: Digest, kits: seq<Kit>)
    requires p.checkpoints > 0
  {
    Samplable(H, Transcript(H, challengeId, p.laneId, KitRoots(kits)), p.samples, p.checkpoints)
  }

  ghost function KitRequired(H: Hash, p: LaneParams, challengeId: Digest, kits: seq<Kit>): (r: seq<nat>)
    requires p.checkpoints > 0 && KitsDrawable(H, p, challengeId, kits)
    ensures forall i :: 0 <= i < |r| ==> r[i] < p.checkpoints
  {
    var h := Transcript(H, challengeId, p.laneId, KitRoots(kits));
    RequiredInRange(H, h, p.samples, p.checkpoints);
    RequiredSegments(Sample(H, h, p.samples, p.checkpoints))
  }

  function KitProof(w: nat, kit: Kit, required: seq<nat>): WorkerProof
    requires forall i :: 0 <= i < |required| ==> required[i] < |kit.openings|
  {
    WorkerProof(w, kit.root, kit.final, kit.finalPath,
                seq(|required|, i requires 0 <= i < |required| => kit.openings[required[i]]))
  }

  ghost function KitLane(H: Hash, p: LaneParams, challengeId: Digest, kits: seq<Kit>): (proofs: seq<WorkerProof>)
    requires p.checkpoints > 0 && KitsDrawable(H, p, challengeId, kits)
    requires forall w :: 0 <= w < |kits| ==> |kits[w].openings| == p.checkpoints
    ensures |proofs| == |kits|
  {
    seq(|kits|, w requires 0 <= w < |kits| => KitProof(w, kits[w], KitRequired(H, p, challengeId, kits)))
  }

  /** Openings that pass one by one are accepted as a lane, whichever segments are drawn. */
  lemma {:induction false} KitLaneAccepted(H: Hash, p: LaneParams, challengeId: Digest, kits: seq<Kit>)
    requires p.checkpoints > 0 && KitsDrawable(H, p, challengeId, kits)
    requires forall w :: 0 <= w < |kits| ==> |kits[w].openings| == p.checkpoints && KitOk(H, p, w, kits[w])
    ensures LaneAccepts(H, p, |kits|, challengeId, KitLane(H, p, challengeId, kits))
    ensures Required(H, p, challengeId, KitLane(H, p, challengeId, kits)) == KitRequired(H, p, challengeId, kits)
  {
    var proofs := KitLane(H, p, challengeId, kits);
    assert Roots(proofs) == KitRoots(kits);
    var required := KitRequired(H, p, challengeId, kits);
    forall w | 0 <= w < |kits| ensures WorkerOk(H, p, w, required, proofs[w]) {
      KitProofOk(H, p, w, kits[w], required);
    }
  }

  lemma {:induction false} KitProofOk(H: Hash, p: LaneParams, w: nat, kit: Kit, required: seq<nat>)
    requires KitOk(H, p, w, kit) && forall i :: 0 <= i < |required| ==> required[i] < p.checkpoints
    ensures WorkerOk(H, p, w, required, KitProof(w, kit, required))
  {
  }

  // ------------------------------------------------------------ openings read off a tree

  /** What a segment's opening holds at its two ends, and how far down the tree shows it. */
  datatype Part = Part(prev: Bytes, prevLen: nat, next: Bytes, nextLen: nat)

  /** A tree, where it shows the final state, and a part for every segment. */
  datatype Script = Script(tree: Plan, final: Bytes, finalLen: nat, parts: seq<Part>)

  function PartOpening(H: Hash, t: Plan, j: nat, a: Part): Opening {
    Opening(j, a.prev, if j == 0 then None else Some(Way(H, t, j - 1, a.prevLen)), a.next, Way(H, t, j, a.nextLen))
  }

  predicate PartOk(H: Hash, start: Bytes, segLen: nat, t: Plan, j: nat, a: Part) {
    && |a.prev| == 32 && |a.next| == 32
    && (if j == 0 then a.prev == start else Shows(t, j - 1, a.prevLen, a.prev))
    && Shows(t, j, a.nextLen, a.next)
    && Steps(H, a.prev, segLen) == a.next
  }

  function ScriptKit(H: Hash, C: nat, s: Script): (kit: Kit)
    requires C > 0
    ensures |kit.openings| == |s.parts|
  {
    Kit(RootOf(H, s.tree), s.final, Way(H, s.tree, C - 1, s.finalLen),
        seq(|s.parts|, j requires 0 <= j < |s.parts| => PartOpening(H, s.tree, j, s.parts[j])))
  }

  ghost predicate ScriptOk(H: Hash, p: LaneParams, w: nat, s: Script) {
    && p.checkpoints > 0 && |s.final| == 32 && |s.parts| == p.checkpoints
    && Shows(s.tree, p.checkpoints - 1, s.finalLen, s.final)
    && forall j :: 0 <= j < p.checkpoints ==> PartOk(H, S0(H, p, w), SegLen(p), s.tree, j, s.parts[j])
  }

  lemma {:induction false} PartOpens(H: Hash, start: Bytes, segLen: nat, t: Plan, j: nat, a: Part)
    requires PartOk(H, start, segLen, t, j, a)
    ensures OpeningOk(H, start, segLen, RootOf(H, t), j, PartOpening(H, t, j, a))
  {
    if j > 0 {
      ShownVerifies(H, t, j - 1, a.prevLen, a.prev);
    }
    ShownVerifies(H, t, j, a.nextLen, a.next);
  }

  /** A script whose tree shows what its parts hold makes a kit that passes. */
  lemma {:induction false} ScriptKitOk(H: Hash, p: LaneParams, w: nat, s: Script)
    requires ScriptOk(H, p, w, s)
    ensures KitOk(H, p, w, ScriptKit(H, p.checkpoints, s))
  {
    ShownVerifies(H, s.tree, p.checkpoints - 1, s.finalLen, s.final);
    var kit := ScriptKit(H, p.checkpoints, s);
    forall j | 0 <= j < p.checkpoints ensures OpeningOk(H, S0(H, p, w), SegLen(p), kit.root, j, kit.openings[j]) {
      PartOpens(H, S0(H, p, w), SegLen(p), s.tree, j, s.parts[j]);
    }
  }

  function ScriptProof(H: Hash, C: nat, w: nat, s: Script, required: seq<nat>): WorkerProof
    requires C > 0 && forall i :: 0 <= i < |required| ==> required[i] < |s.parts|
  {
    KitProof(w, ScriptKit(H, C, s), required)
  }

  // ------------------------------------------------------------ the leaves of such a proof

  /** The leaf is a tip of the tree. */
  predicate Planned(H: Hash, t: Plan, l: Leaf) {
    Shows(t, l.index, |l.path|, l.value) && l == Shown(H, t, l.index, |l.path|, l.value)
  }

  /** Where the l-th end comes from: the closing state, or a segment's start or end. */
  ghost predicate FromPart(s: Script, required: seq<nat>, l: Leaf) {
    exists i :: 0 <= i < |required| && required[i] < |s.parts| && IsEnd(s, required[i], l)
  }

  predicate IsEnd(s: Script, j: nat, l: Leaf)
    requires j < |s.parts|
  {
    || (l.index == j && |l.path| == s.parts[j].nextLen)
    || (j > 0 && l.index == j - 1 && |l.path| == s.parts[j].prevLen)
  }

  lemma {:induction false} PartLeaf(H: Hash, start: Bytes, segLen: nat, s: Script, j: nat, l: Leaf)
    requires j < |s.parts| && PartOk(H, start, segLen, s.tree, j, s.parts[j])
    requires l in OpeningLeaves(PartOpening(H, s.tree, j, s.parts[j]))
    ensures Planned(H, s.tree, l) && IsEnd(s, j, l)
  {
    if j > 0 {
      ShownVerifies(H, s.tree, j - 1, s.parts[j].prevLen, s.parts[j].prev);
    }
    ShownVerifies(H, s.tree, j, s.parts[j].nextLen, s.parts[j].next);
  }

  lemma {:induction false} ScriptEnd(H: Hash, p: LaneParams, w: nat, s: Script, required: seq<nat>, l: Leaf)
    requires ScriptOk(H, p, w, s) && forall i :: 0 <= i < |required| ==> required[i] < p.checkpoints
    requires var openings := ScriptProof(H, p.checkpoints, w, s, required).openings;
      l in AllLeaves(openings, |openings|)
    ensures Planned(H, s.tree, l) && FromPart(s, required, l)
  {
    var openings := ScriptProof(H, p.checkpoints, w, s, required).openings;
    var i := LeafHasOpening(openings, |openings|, l);
    var j := required[i];
    assert openings[i] == PartOpening(H, s.tree, j, s.parts[j]);
    PartLeaf(H, S0(H, p, w), SegLen(p), s, j, l);
  }

  lemma {:induction false} ScriptFinal(H: Hash, p: LaneParams, w: nat, s: Script, required: seq<nat>)
    requires ScriptOk(H, p, w, s) && forall i :: 0 <= i < |required| ==> required[i] < p.checkpoints
    ensures var l := FinalLeaf(p.checkpoints, ScriptProof(H, p.checkpoints, w, s, required));
      Planned(H, s.tree, l) && l.index == p.checkpoints - 1 && |l.path| == s.finalLen
  {
    ShownVerifies(H, s.tree, p.checkpoints - 1, s.finalLen, s.final);
  }

  /** Every leaf of a script's proof is a tip of its tree: the closing one or an end of a required part. */
  lemma {:induction false} ScriptLeaf(H: Hash, p: LaneParams, w: nat, s: Script, required: seq<nat>, l: Leaf)
    requires ScriptOk(H, p, w, s) && forall i :: 0 <= i < |required| ==> required[i] < p.checkpoints
    requires l in LeavesOf(p.checkpoints, ScriptProof(H, p.checkpoints, w, s, required))
    ensures Planned(H, s.tree, l)
    ensures (l.index == p.checkpoints - 1 && |l.path| == s.finalLen) || FromPart(s, required, l)
  {
    ScriptFinal(H, p, w, s, required);
    if l != FinalLeaf(p.checkpoints, ScriptProof(H, p.checkpoints, w, s, required)) {
      ScriptEnd(H, p, w, s, required, l);
    }
  }

  /** Tips of one tree are quiet together. */
  lemma {:induction false} PlannedQuiet(H: Hash, t: Plan, leaves: seq<Leaf>)
    requires forall k :: 0 <= k < |leaves| ==> Planned(H, t, leaves[k])
    ensures FindClash(H, leaves, 0).None?
  {
    forall a, b | 0 <= a < |leaves| && 0 <= b < |leaves| ensures Compare(H, leaves[a], leaves[b]).None? {
      var x, y := leaves[a], leaves[b];
      ShownQuiet(H, t, x.index, |x.path|, x.value, y.index, |y.path|, y.value);
    }
    NoClashAtAll(H, leaves, 0);
  }

  /** No two paths of the worker proof hand over a collision. */
  predicate Quiet(H: Hash, C: nat, wp: WorkerProof)
    requires C > 0
  {
    FindClash(H, LeavesOf(C, wp), 0).None?
  }

  lemma {:induction false} ScriptQuiet(H: Hash, p: LaneParams, w: nat, s: Script, required: seq<nat>)
    requires ScriptOk(H, p, w, s) && forall i :: 0 <= i < |required| ==> required[i] < p.checkpoints
    ensures Quiet(H, p.checkpoints, ScriptProof(H, p.checkpoints, w, s, required))
  {
    var leaves := LeavesOf(p.checkpoints, ScriptProof(H, p.checkpoints, w, s, required));
    forall k | 0 <= k < |leaves| ensures Planned(H, s.tree, leaves[k]) {
      ScriptLeaf(H, p, w, s, required, leaves[k]);
    }
    PlannedQuiet(H, s.tree, leaves);
  }

  /** All paths of the worker proof have one of these lengths. */
  predicate Within(C: nat, lengths: set<nat>, wp: WorkerProof)
    requires C > 0
  {
    forall k :: 0 <= k < |LeavesOf(C, wp)| ==> |LeavesOf(C, wp)[k].path| in lengths
  }

  predicate ScriptWithin(s: Script, lengths: set<nat>) {
    && s.finalLen in lengths
    && forall j :: 0 <= j < |s.parts| ==> s.parts[j].nextLen in lengths && (j > 0 ==> s.parts[j].prevLen in lengths)
  }

  lemma {:induction false} ScriptStaysWithin(H: Hash, p: LaneParams, w: nat, s: Script, required: seq<nat>,
                                             lengths: set<nat>)
    requires ScriptOk(H, p, w, s) && forall i :: 0 <= i < |required| ==> required[i] < p.checkpoints
    requires ScriptWithin(s, lengths)
    ensures Within(p.checkpoints, lengths, ScriptProof(H, p.checkpoints, w, s, required))
  {
    var leaves := LeavesOf(p.checkpoints, ScriptProof(H, p.checkpoints, w, s, required));
    forall k | 0 <= k < |leaves| ensures |leaves[k].path| in lengths {
      ScriptLeaf(H, p, w, s, required, leaves[k]);
    }
  }

  // ------------------------------------------------------------ a checkpoint replaced on the way

  /** States of a chain that goes on from z instead of c_{g+1}. */
  function Onward(H: Hash, p: LaneParams, z: Digest, k: nat): Digest
    requires p.checkpoints > 0
  {
    Steps(H, z, k * SegLen(p))
  }

  function StartAt(H: Hash, p: LaneParams, w: nat, g: nat, z: Digest, j: nat): Digest
    requires p.checkpoints > 0
  {
    if j <= g then State(H, p, w, j) else Onward(H, p, z, j - 1 - g)
  }

  function EndAt(H: Hash, p: LaneParams, w: nat, g: nat, z: Digest, j: nat): Digest
    requires p.checkpoints > 0
  {
    if j <= g then State(H, p, w, j + 1) else Onward(H, p, z, j - g)
  }

  /** The segments' ends at the lowest level, and z at node g of a level above. */
  function GraftTips(H: Hash, p: LaneParams, w: nat, g: nat, z: Digest, gap: nat): Tips
    requires p.checkpoints > 0
  {
    (s: nat, x: nat) =>
      if s == gap && x == g then Some(z)
      else if s == 0 && x < p.checkpoints then Some(EndAt(H, p, w, g, z, x)) else None
  }

  /** The honest segments up to g and, from z on, the later ones; z is shown at length n, all ends at length m. */
  function GraftScript(H: Hash, p: LaneParams, w: nat, g: nat, z: Digest, m: nat, n: nat): Script
    requires g < p.checkpoints && n < m
  {
    Script(Grow(GraftTips(H, p, w, g, z, m - n), m, 0),
           Onward(H, p, z, p.checkpoints - 1 - g), if g == p.checkpoints - 1 then n else m,
           seq(p.checkpoints, j requires 0 <= j < p.checkpoints =>
             Part(StartAt(H, p, w, g, z, j), if j == g + 1 then n else m, EndAt(H, p, w, g, z, j), m)))
  }

  /** Node g, m - n levels up, has none of the C leaves below it; index g reaches it. */
  predicate Vacant(C: nat, g: nat, m: nat, n: nat) {
    0 < g < C && n < m && Height(C) <= m && Shift(g, n) == 0 && g * Power(2, m - n) >= C
  }

  lemma {:induction false} NotUnder(C: nat, g: nat, m: nat, n: nat, j: nat)
    requires Vacant(C, g, m, n) && j < C
    ensures Shift(j, m - n) != g
  {
    ShiftIsFloor(j, m - n);
    QuotientBelow(j, Power(2, m - n), g);
  }

  lemma {:induction false} GraftEnds(H: Hash, p: LaneParams, w: nat, g: nat, z: Digest, m: nat, n: nat, j: nat)
    requires j < p.checkpoints && Vacant(p.checkpoints, g, m, n)
    ensures Shows(Grow(GraftTips(H, p, w, g, z, m - n), m, 0), j, m, EndAt(H, p, w, g, z, j))
  {
    HighReaches(p.checkpoints, j, m);
    NotUnder(p.checkpoints, g, m, n, j);
    GrowShows(GraftTips(H, p, w, g, z, m - n), m, j, 0, EndAt(H, p, w, g, z, j));
  }

  lemma {:induction false} GraftShown(H: Hash, p: LaneParams, w: nat, g: nat, z: Digest, m: nat, n: nat)
    requires p.checkpoints > 0 && Vacant(p.checkpoints, g, m, n)
    ensures Shows(Grow(GraftTips(H, p, w, g, z, m - n), m, 0), g, n, z)
  {
    GrowShows(GraftTips(H, p, w, g, z, m - n), m, g, m - n, z);
  }

  lemma {:induction false} OnwardSteps(H: Hash, p: LaneParams, z: Digest, k: nat)
    requires p.checkpoints > 0
    ensures Steps(H, Onward(H, p, z, k), SegLen(p)) == Onward(H, p, z, k + 1)
    ensures Onward(H, p, z, 0) == z
  {
    StepsCompose(H, z, k * SegLen(p), SegLen(p));
    assert k * SegLen(p) + SegLen(p) == (k + 1) * SegLen(p);
  }

  lemma {:induction false} GraftPartOk(H: Hash, p: LaneParams, w: nat, g: nat, z: Digest, m: nat, n: nat, j: nat)
    requires j < p.checkpoints && Vacant(p.checkpoints, g, m, n)
    ensures var s := GraftScript(H, p, w, g, z, m, n); PartOk(H, S0(H, p, w), SegLen(p), s.tree, j, s.parts[j])
  {
    GraftEnds(H, p, w, g, z, m, n, j);
    if j <= g {
      SegmentSteps(H, p, w, j);
    } else {
      OnwardSteps(H, p, z, j - 1 - g);
    }
    if j == 0 {
      assert State(H, p, w, 0) == S0(H, p, w);
    } else if j == g + 1 {
      OnwardSteps(H, p, z, 0);
      GraftShown(H, p, w, g, z, m, n);
    } else {
      GraftEnds(H, p, w, g, z, m, n, j - 1);
    }
  }

  lemma {:induction false} GraftScriptOk(H: Hash, p: LaneParams, w: nat, g: nat, z: Digest, m: nat, n: nat)
    requires p.checkpoints > 0 && Vacant(p.checkpoints, g, m, n)
    ensures ScriptOk(H, p, w, GraftScript(H, p, w, g, z, m, n))
  {
    var last := p.checkpoints - 1;
    if g == last {
      OnwardSteps(H, p, z, 0);
      GraftShown(H, p, w, g, z, m, n);
    } else {
      GraftEnds(H, p, w, g, z, m, n, last);
    }
    var s := GraftScript(H, p, w, g, z, m, n);
    forall j | 0 <= j < p.checkpoints ensures PartOk(H, S0(H, p, w), SegLen(p), s.tree, j, s.parts[j]) {
      GraftPartOk(H, p, w, g, z, m, n, j);
    }
  }

  /** Beyond the tree's height there is always room for the last leaf. */
  lemma {:induction false} LastVacant(C: nat, m: nat, n: nat)
    requires C > 1 && Height(C) <= n < m
    ensures Vacant(C, C - 1, m, n)
  {
    HighReaches(C, C - 1, n);
    var half := Power(2, m - n - 1);
    assert (C - 1) * (2 * half) >= C by {
      MulLe(C - 1, C - 1, 2, 2 * half);
    }
  }

  // ------------------------------------------------------------ a final state bound to nothing

  function GraftKit(H: Hash, p: LaneParams, w: nat, g: nat, z: Digest, m: nat, n: nat): (kit: Kit)
    requires g < p.checkpoints && n < m
    ensures |kit.openings| == p.checkpoints
  {
    ScriptKit(H, p.checkpoints, GraftScript(H, p, w, g, z, m, n))
  }

  function GraftKits(H: Hash, p: LaneParams, workers: nat, g: nat, z: nat -> Digest, m: nat, n: nat): (kits: seq<Kit>)
    requires g < p.checkpoints && n < m
    ensures |kits| == workers && forall w :: 0 <= w < workers ==> kits[w] == GraftKit(H, p, w, g, z(w), m, n)
  {
    seq(workers, w requires 0 <= w < workers => GraftKit(H, p, w, g, z(w), m, n))
  }

  /** Its proofs stay on the two lengths, and none of their paths collide. */
  lemma {:induction false} GraftStays(H: Hash, p: LaneParams, w: nat, g: nat, z: Digest, m: nat, n: nat,
                                      required: seq<nat>, lengths: set<nat>)
    requires p.checkpoints > 0 && Vacant(p.checkpoints, g, m, n) && m in lengths && n in lengths
    requires forall i :: 0 <= i < |required| ==> required[i] < p.checkpoints
    ensures var wp := KitProof(w, GraftKit(H, p, w, g, z, m, n), required);
      && Within(p.checkpoints, lengths, wp) && Quiet(H, p.checkpoints, wp)
      && wp.final == Onward(H, p, z, p.checkpoints - 1 - g)
  {
    GraftScriptOk(H, p, w, g, z, m, n);
    ScriptQuiet(H, p, w, GraftScript(H, p, w, g, z, m, n), required);
    ScriptStaysWithin(H, p, w, GraftScript(H, p, w, g, z, m, n), required, lengths);
  }

  lemma {:induction false} GraftLaneAccepted(H: Hash, p: LaneParams, workers: nat, challengeId: Digest, g: nat,
                                             z: nat -> Digest, m: nat, n: nat)
    requires p.checkpoints > 0 && Vacant(p.checkpoints, g, m, n)
    requires KitsDrawable(H, p, challengeId, GraftKits(H, p, workers, g, z, m, n))
    ensures var kits := GraftKits(H, p, workers, g, z, m, n);
      LaneAccepts(H, p, workers, challengeId, KitLane(H, p, challengeId, kits))
  {
    var kits := GraftKits(H, p, workers, g, z, m, n);
    forall w | 0 <= w < workers ensures KitOk(H, p, w, kits[w]) {
      GraftScriptOk(H, p, w, g, z(w), m, n);
      ScriptKitOk(H, p, w, GraftScript(H, p, w, g, z(w), m, n));
    }
    KitLaneAccepted(H, p, challengeId, kits);
  }

  /**
   For every hash, worker count, K and C >= 2 and any 32 bytes per worker, the verifier accepts a lane whose
   workers submit these as their final states: the closing path does not bind them to the opened chain.
   */
  lemma {:induction false} FinalStateUnbound(H: Hash, p: LaneParams, workers: nat, challengeId: Digest,
                                             z: nat -> Digest, m: nat, n: nat)
    requires p.checkpoints > 1 && Height(p.checkpoints) <= n < m
    requires KitsDrawable(H, p, challengeId, GraftKits(H, p, workers, p.checkpoints - 1, z, m, n))
    ensures var proofs := KitLane(H, p, challengeId, GraftKits(H, p, workers, p.checkpoints - 1, z, m, n));
      && LaneAccepts(H, p, workers, challengeId, proofs)
      && forall w :: 0 <= w < workers ==> proofs[w].final == z(w)
  {
    LastVacant(p.checkpoints, m, n);
    GraftLaneAccepted(H, p, workers, challengeId, p.checkpoints - 1, z, m, n);
    forall w | 0 <= w < workers ensures GraftKit(H, p, w, p.checkpoints - 1, z(w), m, n).final == z(w) {
      OnwardSteps(H, p, z(w), 0);
    }
  }

  // ------------------------------------------------------------ paths of any length

  /** The honest segments, all shown at length m: the tree above is without a replaced checkpoint. */
  function LongScript(H: Hash, p: LaneParams, w: nat, m: nat): Script
    requires p.checkpoints > 0
  {
    Script(Grow(GraftTips(H, p, w, p.checkpoints, S0(H, p, w), m + 1), m, 0), State(H, p, w, p.checkpoints), m,
           seq(p.checkpoints, j requires j >= 0 => Part(State(H, p, w, j), m, State(H, p, w, j + 1), m)))
  }

  lemma {:induction false} LongShows(H: Hash, p: LaneParams, w: nat, m: nat, j: nat)
    requires j < p.checkpoints && Height(p.checkpoints) <= m
    ensures Shows(LongScript(H, p, w, m).tree, j, m, State(H, p, w, j + 1))
  {
    HighReaches(p.checkpoints, j, m);
    assert EndAt(H, p, w, p.checkpoints, S0(H, p, w), j) == State(H, p, w, j + 1);
    GrowShows(GraftTips(H, p, w, p.checkpoints, S0(H, p, w), m + 1), m, j, 0, State(H, p, w, j + 1));
  }

  lemma {:induction false} LongScriptOk(H: Hash, p: LaneParams, w: nat, m: nat)
    requires p.checkpoints > 0 && Height(p.checkpoints) <= m
    ensures ScriptOk(H, p, w, LongScript(H, p, w, m))
  {
    var s := LongScript(H, p, w, m);
    forall j | 0 <= j < p.checkpoints ensures PartOk(H, S0(H, p, w), SegLen(p), s.tree, j, s.parts[j]) {
      LongShows(H, p, w, m, j);
      SegmentSteps(H, p, w, j);
      if j == 0 {
        assert State(H, p, w, 0) == S0(H, p, w);
      } else {
        LongShows(H, p, w, m, j - 1);
      }
    }
    LongShows(H, p, w, m, p.checkpoints - 1);
  }

  function LongKits(H: Hash, p: LaneParams, workers: nat, m: nat): (kits: seq<Kit>)
    requires p.checkpoints > 0
    ensures |kits| == workers
  {
    seq(workers, w requires w >= 0 => ScriptKit(H, p.checkpoints, LongScript(H, p, w, m)))
  }

  /** For every length m from the tree's height on the verifier accepts honest lanes with closing paths that long. */
  lemma {:induction false} LongPathsAccepted(H: Hash, p: LaneParams, workers: nat, challengeId: Digest, m: nat)
    requires p.checkpoints > 0 && Height(p.checkpoints) <= m
    requires KitsDrawable(H, p, challengeId, LongKits(H, p, workers, m))
    ensures var proofs := KitLane(H, p, challengeId, LongKits(H, p, workers, m));
      && LaneAccepts(H, p, workers, challengeId, proofs)
      && forall w :: 0 <= w < workers ==>
           proofs[w].final == State(H, p, w, p.checkpoints) && |proofs[w].finalPath| == m
  {
    var kits := LongKits(H, p, workers, m);
    forall w | 0 <= w < workers ensures KitOk(H, p, w, kits[w]) && |kits[w].finalPath| == m {
      var s := LongScript(H, p, w, m);
      LongScriptOk(H, p, w, m);
      ScriptKitOk(H, p, w, s);
      ShownVerifies(H, s.tree, p.checkpoints - 1, m, s.final);
    }
    KitLaneAccepted(H, p, challengeId, kits);
  }
}
