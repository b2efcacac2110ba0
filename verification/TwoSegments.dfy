/**
 Lanes of which two segments were computed. Every segment after the first shows c_1 and c_2, so each
 checkpoint has to be c_2 where one segment ends and c_1 where the next one starts: it is shown at two
 lengths, and the segments use the two lengths in turn.
 */
module TwoSegments {
  import opened Arith
  import opened Hashing
  import opened Merkle
  import opened PathBinding
  import opened Plans
  import opened Chain
  import opened Sampling
  import opened Lane
  import opened ProofBinding
  import opened PathLengths
  import opened Detection
  import opened Strategies

  /** The segments that use the shorter length: the last one and every second one before it. */
  predicate Short(C: nat, j: nat) { (C + j) % 2 == 1 }

  lemma {:induction false} TakeTurns(C: nat, j: nat)
    ensures Short(C, j + 1) <==> !Short(C, j)
  {
  }

  function LengthOf(C: nat, j: nat): nat
    requires C > 0
  {
    if Short(C, j) then Height(C) else 2 * Height(C)
  }

  /** c_1 or c_2 for each checkpoint at half height, and for each one at the lowest level. */
  function TurnTips(H: Hash, p: LaneParams, w: nat): Tips
    requires p.checkpoints > 0
  {
    var first, second := State(H, p, w, 1), State(H, p, w, 2);
    (s: nat, x: nat) =>
      if s == Height(p.checkpoints) && x > 0 then Some(if Short(p.checkpoints, x) then second else first)
      else if s == 0 then Some(if x == 0 || Short(p.checkpoints, x) then first else second)
      else None
  }

  function TurnPart(H: Hash, p: LaneParams, w: nat, j: nat): Part
    requires p.checkpoints > 1
  {
    var first, second, high := State(H, p, w, 1), State(H, p, w, 2), 2 * Height(p.checkpoints);
    if j == 0 then Part(S0(H, p, w), high, first, high)
    else Part(first, if j == 1 then high else LengthOf(p.checkpoints, j), second, LengthOf(p.checkpoints, j))
  }

  function TurnScript(H: Hash, p: LaneParams, w: nat): (s: Script)
    requires p.checkpoints > 1
    ensures |s.parts| == p.checkpoints
  {
    Script(Grow(TurnTips(H, p, w), 2 * Height(p.checkpoints), 0), State(H, p, w, 2), Height(p.checkpoints),
           seq(p.checkpoints, j requires j >= 0 => TurnPart(H, p, w, j)))
  }

  /** At the shorter length. */
  lemma {:induction false} ShowsShort(H: Hash, p: LaneParams, w: nat, i: nat)
    requires 0 < i < p.checkpoints
    ensures Shows(TurnScript(H, p, w).tree, i, Height(p.checkpoints),
                  if Short(p.checkpoints, i) then State(H, p, w, 2) else State(H, p, w, 1))
  {
    var h := Height(p.checkpoints);
    HighReaches(p.checkpoints, i, h);
    GrowShows(TurnTips(H, p, w), 2 * h, i, h, if Short(p.checkpoints, i) then State(H, p, w, 2) else State(H, p, w, 1));
  }

  /** At the longer length. */
  lemma {:induction false} ShowsLong(H: Hash, p: LaneParams, w: nat, i: nat)
    requires i < p.checkpoints && p.checkpoints > 1
    ensures Shows(TurnScript(H, p, w).tree, i, 2 * Height(p.checkpoints),
                  if i == 0 || Short(p.checkpoints, i) then State(H, p, w, 1) else State(H, p, w, 2))
  {
    var h := Height(p.checkpoints);
    HighReaches(p.checkpoints, i, h);
    HighReaches(p.checkpoints, i, 2 * h);
    GrowShows(TurnTips(H, p, w), 2 * h, i, 0,
              if i == 0 || Short(p.checkpoints, i) then State(H, p, w, 1) else State(H, p, w, 2));
  }

  /** Where segment j + 1 starts, c_1 is shown. */
  lemma {:induction false} ShowsStart(H: Hash, p: LaneParams, w: nat, j: nat)
    requires j + 1 < p.checkpoints
    ensures Shows(TurnScript(H, p, w).tree, j,
                  if j == 0 then 2 * Height(p.checkpoints) else LengthOf(p.checkpoints, j + 1), State(H, p, w, 1))
  {
    TakeTurns(p.checkpoints, j);
    if j > 0 && !Short(p.checkpoints, j) {
      ShowsShort(H, p, w, j);
    } else {
      ShowsLong(H, p, w, j);
    }
  }

  /** Where it ends, c_2. */
  lemma {:induction false} ShowsEnd(H: Hash, p: LaneParams, w: nat, j: nat)
    requires 0 < j < p.checkpoints
    ensures Shows(TurnScript(H, p, w).tree, j, LengthOf(p.checkpoints, j), State(H, p, w, 2))
  {
    if Short(p.checkpoints, j) {
      ShowsShort(H, p, w, j);
    } else {
      ShowsLong(H, p, w, j);
    }
  }

  lemma {:induction false} TurnPartOk(H: Hash, p: LaneParams, w: nat, j: nat)
    requires j < p.checkpoints && p.checkpoints > 1
    ensures PartOk(H, S0(H, p, w), SegLen(p), TurnScript(H, p, w).tree, j, TurnPart(H, p, w, j))
  {
    if j == 0 {
      SegmentSteps(H, p, w, 0);
      assert State(H, p, w, 0) == S0(H, p, w);
      ShowsLong(H, p, w, 0);
    } else {
      SegmentSteps(H, p, w, 1);
      ShowsStart(H, p, w, j - 1);
      ShowsEnd(H, p, w, j);
    }
  }

  lemma {:induction false} TurnScriptOk(H: Hash, p: LaneParams, w: nat)
    requires p.checkpoints > 1
    ensures ScriptOk(H, p, w, TurnScript(H, p, w))
  {
    ShowsShort(H, p, w, p.checkpoints - 1);
    var s := TurnScript(H, p, w);
    forall j | 0 <= j < p.checkpoints ensures PartOk(H, S0(H, p, w), SegLen(p), s.tree, j, s.parts[j]) {
      TurnPartOk(H, p, w, j);
    }
  }

  /** The proof shows no states but s_0, c_1 and c_2, ends in c_2, and no two of its paths hand over a collision. */
  ghost predicate OnlyTwo(H: Hash, p: LaneParams, w: nat, wp: WorkerProof)
    requires p.checkpoints > 0
  {
    && wp.final == State(H, p, w, 2)
    && (forall i :: 0 <= i < |wp.openings| && wp.openings[i].seg > 0 ==>
          wp.openings[i].prev == State(H, p, w, 1) && wp.openings[i].next == State(H, p, w, 2))
    && Quiet(H, p.checkpoints, wp)
  }

  function TurnKit(H: Hash, p: LaneParams, w: nat): (kit: Kit)
    requires p.checkpoints > 1
    ensures |kit.openings| == p.checkpoints
  {
    ScriptKit(H, p.checkpoints, TurnScript(H, p, w))
  }

  lemma {:induction false} TurnProofOk(H: Hash, p: LaneParams, w: nat, required: seq<nat>)
    requires p.checkpoints > 1 && forall i :: 0 <= i < |required| ==> required[i] < p.checkpoints
    ensures KitOk(H, p, w, TurnKit(H, p, w))
    ensures WorkerOk(H, p, w, required, KitProof(w, TurnKit(H, p, w), required))
    ensures OnlyTwo(H, p, w, KitProof(w, TurnKit(H, p, w), required))
  {
    TurnScriptOk(H, p, w);
    ScriptKitOk(H, p, w, TurnScript(H, p, w));
    KitProofOk(H, p, w, TurnKit(H, p, w), required);
    ScriptQuiet(H, p, w, TurnScript(H, p, w), required);
  }

  function TurnKits(H: Hash, p: LaneParams, workers: nat): (kits: seq<Kit>)
    requires p.checkpoints > 1
    ensures |kits| == workers && forall w :: 0 <= w < workers ==> kits[w] == TurnKit(H, p, w)
  {
    seq(workers, w requires w >= 0 => TurnKit(H, p, w))
  }

  /**
   For every hash, worker count, K and C >= 2 the verifier accepts a lane that holds no states but s_0,
   c_1 and c_2: every segment after the second shows the second again, and the final state is c_2.
   */
  lemma {:induction false} TwoSegmentsPass(H: Hash, p: LaneParams, workers: nat, challengeId: Digest)
    requires p.checkpoints > 1 && KitsDrawable(H, p, challengeId, TurnKits(H, p, workers))
    ensures var proofs := KitLane(H, p, challengeId, TurnKits(H, p, workers));
      && LaneAccepts(H, p, workers, challengeId, proofs)
      && forall w :: 0 <= w < workers ==> OnlyTwo(H, p, w, proofs[w])
  {
    var kits := TurnKits(H, p, workers);
    forall w | 0 <= w < workers
      ensures KitOk(H, p, w, kits[w]) && OnlyTwo(H, p, w, KitProof(w, kits[w], KitRequired(H, p, challengeId, kits)))
    {
      TurnProofOk(H, p, w, KitRequired(H, p, challengeId, kits));
    }
    KitLaneAccepted(H, p, challengeId, kits);
  }

  // ------------------------------------------------------------ one length to a leaf is not enough

  /** No two segments next to each other, but for 0 and 1. */
  ghost predicate Spread(required: seq<nat>) {
    forall j :: j in required && j > 0 ==> j + 1 !in required
  }

  lemma {:induction false} TurnLeaf(H: Hash, p: LaneParams, w: nat, required: seq<nat>, l: Leaf)
    requires p.checkpoints > 1 && forall i :: 0 <= i < |required| ==> required[i] < p.checkpoints
    requires l in LeavesOf(p.checkpoints, KitProof(w, TurnKit(H, p, w), required))
    ensures (l.index == p.checkpoints - 1 && |l.path| == Height(p.checkpoints))
      || FromPart(TurnScript(H, p, w), required, l)
  {
    TurnScriptOk(H, p, w);
    ScriptLeaf(H, p, w, TurnScript(H, p, w), required, l);
  }

  /** The length of each path to a leaf other than 0 is that of the segment it belongs to. */
  lemma {:induction false} TurnLength(H: Hash, p: LaneParams, w: nat, required: seq<nat>, l: Leaf)
    requires p.checkpoints > 1 && forall i :: 0 <= i < |required| ==> required[i] < p.checkpoints
    requires l in LeavesOf(p.checkpoints, KitProof(w, TurnKit(H, p, w), required)) && l.index > 0
    ensures
      || (|l.path| == LengthOf(p.checkpoints, l.index) && (l.index in required || l.index == p.checkpoints - 1))
      || (|l.path| == LengthOf(p.checkpoints, l.index + 1) && l.index + 1 in required && l.index < p.checkpoints - 1)
  {
    var s := TurnScript(H, p, w);
    TurnLeaf(H, p, w, required, l);
    if FromPart(s, required, l) {
      var i :| 0 <= i < |required| && required[i] < |s.parts| && IsEnd(s, required[i], l);
      assert required[i] in required;
      TurnEnd(H, p, w, required[i], l);
    }
  }

  lemma {:induction false} TurnEnd(H: Hash, p: LaneParams, w: nat, j: nat, l: Leaf)
    requires p.checkpoints > 1 && j < p.checkpoints && IsEnd(TurnScript(H, p, w), j, l) && l.index > 0
    ensures |l.path| == LengthOf(p.checkpoints, j) && (l.index == j || l.index + 1 == j)
  {
    assert TurnScript(H, p, w).parts[j] == TurnPart(H, p, w, j);
  }

  /** Whenever no two neighbouring segments are drawn, each such proof has paths of one length to each leaf. */
  lemma {:induction false} TurnOneLength(H: Hash, p: LaneParams, w: nat, required: seq<nat>)
    requires p.checkpoints > 1 && forall i :: 0 <= i < |required| ==> required[i] < p.checkpoints
    requires Spread(required)
    ensures OneLength(LeavesOf(p.checkpoints, KitProof(w, TurnKit(H, p, w), required)))
  {
    var leaves := LeavesOf(p.checkpoints, KitProof(w, TurnKit(H, p, w), required));
    forall a, b | 0 <= a < |leaves| && 0 <= b < |leaves| && leaves[a].index == leaves[b].index > 0
      ensures |leaves[a].path| == |leaves[b].path|
    {
      TurnLength(H, p, w, required, leaves[a]);
      TurnLength(H, p, w, required, leaves[b]);
    }
  }

  /**
   One root per worker answers every draw of segments with two segments computed, and wherever no two
   neighbouring segments are drawn each answer has paths of one length to each leaf: that condition on one
   proof does not do. What does is one length for all of its paths.
   */
  lemma {:induction false} EveryDrawAnswered(H: Hash, p: LaneParams, workers: nat, k: nat, drawn: seq<nat>)
    returns (a: Answer)
    requires p.checkpoints > 1 && drawn in DrawsFrom(Below(p.checkpoints), k)
    ensures a.drawn == drawn && Answers(H, p, KitRoots(TurnKits(H, p, workers)), k, a)
    ensures forall w :: 0 <= w < workers ==> OnlyTwo(H, p, w, a.proofs[w])
    ensures Spread(RequiredSegments(drawn)) ==> LengthsAgree(p.checkpoints, a.proofs)
  {
    DrawnInRange(p.checkpoints, k, drawn);
    var required := RequiredSegments(drawn);
    a := Answer(drawn, seq(workers, w requires 0 <= w < workers => KitProof(w, TurnKit(H, p, w), required)));
    forall w | 0 <= w < workers
      ensures a.proofs[w].root == KitRoots(TurnKits(H, p, workers))[w] && WorkerOk(H, p, w, required, a.proofs[w])
      ensures OnlyTwo(H, p, w, a.proofs[w])
      ensures Spread(required) ==> OneLength(LeavesOf(p.checkpoints, a.proofs[w]))
    {
      TurnProofOk(H, p, w, required);
      if Spread(required) {
        TurnOneLength(H, p, w, required);
      }
    }
  }

  /** With one segment to draw nothing is next to another: every lane of two segments passes with that condition. */
  lemma {:induction false} OneLengthFallsShort(H: Hash, p: LaneParams, workers: nat, challengeId: Digest)
    requires p.checkpoints > 1 && p.samples == 1 && KitsDrawable(H, p, challengeId, TurnKits(H, p, workers))
    ensures var proofs := KitLane(H, p, challengeId, TurnKits(H, p, workers));
      && LaneAccepts(H, p, workers, challengeId, proofs)
      && LengthsAgree(p.checkpoints, proofs)
      && forall w :: 0 <= w < workers ==> OnlyTwo(H, p, w, proofs[w])
  {
    TwoSegmentsPass(H, p, workers, challengeId);
    var kits := TurnKits(H, p, workers);
    var required := KitRequired(H, p, challengeId, kits);
    var h := Transcript(H, challengeId, p.laneId, KitRoots(kits));
    SampleShape(H, h, 1, p.checkpoints);
    OneDrawIsSpread(Sample(H, h, 1, p.checkpoints));
    forall w | 0 <= w < workers ensures OneLength(LeavesOf(p.checkpoints, KitProof(w, kits[w], required))) {
      TurnOneLength(H, p, w, required);
    }
  }

  lemma {:induction false} OneDrawIsSpread(drawn: seq<nat>)
    requires |drawn| == 1
    ensures Spread(RequiredSegments(drawn))
  {
    RequiredMeans(drawn);
    forall j | j in RequiredSegments(drawn) && j > 0 ensures j + 1 !in RequiredSegments(drawn) {
      assert j == drawn[0];
    }
  }
}
