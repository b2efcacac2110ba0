/**
 Exactly which path lengths a verifier may admit. The source admits all of them. What an accepted proof
 shows belongs to one list of checkpoints if and only if the admitted lengths keep apart: no shorter
 length may lead to a node with none of the C leaves below it at a longer one.
 */
module LengthPolicy {
  import opened Arith
  import opened Hashing
  import opened Merkle
  import opened PathBinding
  import opened Chain
  import opened Sampling
  import opened Lane
  import opened LaneSoundness
  import opened ProofBinding
  import opened PathLengths
  import opened Detection
  import opened Strategies

  /** All paths of all answers have admitted lengths, and none of a worker's collide. */
  ghost predicate Admitted(H: Hash, p: LaneParams, roots: seq<Bytes>, k: nat, lengths: set<nat>, answers: seq<Answer>) {
    && AllAnswer(H, p, roots, k, answers)
    && (forall a :: 0 <= a < |answers| ==> |answers[a].proofs| == |roots|)
    && forall w :: 0 <= w < |roots| ==>
         PoolClash(H, p.checkpoints, answers, w).None? && AnswersWithin(p.checkpoints, lengths, answers, w)
  }

  ghost predicate AnswersWithin(C: nat, lengths: set<nat>, answers: seq<Answer>, w: nat)
    requires C > 0 && forall a :: 0 <= a < |answers| ==> w < |answers[a].proofs|
  {
    forall a :: 0 <= a < |answers| ==> Within(C, lengths, answers[a].proofs[w])
  }

  /** One list of C checkpoints per worker fits all answers. */
  ghost predicate FitLists(H: Hash, p: LaneParams, answers: seq<Answer>, lists: seq<seq<Bytes>>)
    requires p.checkpoints > 0
  {
    && (forall w :: 0 <= w < |lists| ==> |lists[w]| == p.checkpoints)
    && forall a, w :: 0 <= a < |answers| && 0 <= w < |lists| ==>
         w < |answers[a].proofs| && Honours(H, p, w, lists[w], RequiredSegments(answers[a].drawn), answers[a].proofs[w])
  }

  /** Whatever passes for draws of k segments under given roots, on admitted lengths and without a collision, fits. */
  ghost predicate OneList(H: Hash, p: LaneParams, k: nat, lengths: set<nat>)
    requires p.checkpoints > 0
  {
    forall roots: seq<Bytes>, answers: seq<Answer> | Admitted(H, p, roots, k, lengths, answers) ::
      exists lists: seq<seq<Bytes>> :: |lists| == |roots| && FitLists(H, p, answers, lists)
  }

  /** The highest node index a path of n siblings reaches that is the index of a checkpoint. */
  function Highest(C: nat, n: nat): nat
    requires C > 0
  {
    Min(C, Power(2, n)) - 1
  }

  /** Below the node that the highest index leads to at length n there is one of the C leaves at length m. */
  predicate Covered(C: nat, n: nat, m: nat)
    requires C > 0 && n <= m
  {
    Highest(C, n) * Power(2, m - n) < C
  }

  /** Every admitted length lies above leaves at each longer one that reaches all of them. */
  ghost predicate Apart(C: nat, lengths: set<nat>)
    requires C > 0
  {
    forall n, m :: n in lengths && m in lengths && n < m && Height(C) <= m ==> Covered(C, n, m)
  }

  // ------------------------------------------------------------ lengths that keep apart fit one list

  /** Every checkpoint is opened somewhere. */
  ghost predicate OpensEvery(C: nat, leaves: seq<Leaf>) {
    forall i :: 0 <= i < C ==> HasLeaf(leaves, i)
  }

  ghost predicate HasLeaf(leaves: seq<Leaf>, i: nat) {
    exists k :: 0 <= k < |leaves| && leaves[k].index == i
  }

  /** The leaves are checkpoints, opened on admitted lengths. */
  ghost predicate StayWithin(C: nat, lengths: set<nat>, leaves: seq<Leaf>) {
    forall k :: 0 <= k < |leaves| ==> leaves[k].index < C && |leaves[k].path| in lengths
  }

  lemma {:induction false} ReachesBound(i: nat, n: nat)
    requires Shift(i, n) == 0
    ensures i < Power(2, n)
  {
    ShiftIsFloor(i, n);
    assert i == Power(2, n) * (i / Power(2, n)) + i % Power(2, n);
  }

  /** The leaf below node i that is furthest left, m - n levels down. */
  lemma {:induction false} LeftmostBelow(C: nat, i: nat, n: nat, m: nat) returns (x: nat)
    requires 0 < i < C && n < m && Shift(i, n) == 0 && Covered(C, n, m)
    ensures i < x < C && Shift(x, m - n) == i
  {
    var b := Power(2, m - n);
    assert b >= 2 by { assert Power(2, m - n) == 2 * Power(2, m - n - 1); }
    x := i * b;
    ReachesBound(i, n);
    MulLe(i, Highest(C, n), b, b);
    ShiftIsFloor(x, m - n);
    QuotientUnique(x, b, i, 0);
    MulLe(i, i, 2, b);
  }

  /** Of two lengths that reach all leaves, the longer one has room beside them. */
  lemma {:induction false} HighUncovered(C: nat, n: nat, m: nat)
    requires C > 1 && Height(C) <= n < m
    ensures Highest(C, n) == C - 1 && !Covered(C, n, m)
  {
    HighReaches(C, C - 1, n);
    ReachesBound(C - 1, n);
    LastVacant(C, m, n);
  }

  lemma {:induction false} NoneNested(H: Hash, leaves: seq<Leaf>, k: nat, j: nat)
    requires FindClash(H, leaves, 0).None? && k < |leaves| && j < |leaves| && |leaves[k].path| < |leaves[j].path|
    ensures leaves[k].index != Shift(leaves[j].index, |leaves[j].path| - |leaves[k].path|)
  {
    NoClashBetween(H, leaves, 0, k, j);
    if leaves[k].index == Shift(leaves[j].index, |leaves[j].path| - |leaves[k].path|) {
      NestedClash(H, leaves[k], leaves[j]);
    }
  }

  /** A leaf at a length other than m lies on the way to a leaf further right. */
  lemma {:induction false} AtLongest(H: Hash, C: nat, root: Bytes, leaves: seq<Leaf>, lengths: set<nat>, m: nat, k: nat)
    requires C > 0 && LeavesOk(H, root, leaves) && FindClash(H, leaves, 0).None? && OpensEvery(C, leaves)
    requires Apart(C, lengths) && m in lengths && Height(C) <= m
    requires StayWithin(C, lengths, leaves)
    requires k < |leaves| && leaves[k].index > 0
    ensures |leaves[k].path| == m
    decreases C - leaves[k].index
  {
    var i, n := leaves[k].index, |leaves[k].path|;
    if n > m {
      HighUncovered(C, m, n);
    } else if n < m {
      var x := LeftmostBelow(C, i, n, m);
      assert HasLeaf(leaves, x);
      var j :| 0 <= j < |leaves| && leaves[j].index == x;
      AtLongest(H, C, root, leaves, lengths, m, j);
      NoneNested(H, leaves, k, j);
    }
  }

  lemma {:induction false} ApartOneLength(H: Hash, C: nat, root: Bytes, leaves: seq<Leaf>, lengths: set<nat>)
    requires C > 0 && LeavesOk(H, root, leaves) && FindClash(H, leaves, 0).None? && OpensEvery(C, leaves)
    requires Apart(C, lengths)
    requires StayWithin(C, lengths, leaves)
    ensures OneLength(leaves)
  {
    assert HasLeaf(leaves, C - 1);
    var k :| 0 <= k < |leaves| && leaves[k].index == C - 1;
    var m := |leaves[k].path|;
    assert LeafOk(H, root, leaves[k]);
    ShiftReaches(C - 1, m);
    HeightIsBits(C);
    forall a | 0 <= a < |leaves| && leaves[a].index > 0 ensures |leaves[a].path| == m {
      AtLongest(H, C, root, leaves, lengths, m, a);
    }
  }

  lemma {:induction false} HighOneLength(C: nat, k: nat, leaves: seq<Leaf>, lengths: set<nat>)
    requires C > 0 && Apart(C, lengths) && Sweeping(C, k, lengths) && (k == C ==> leaves == [])
    requires StayWithin(C, lengths, leaves)
    ensures OneLength(leaves)
  {
    forall a, b | 0 <= a < |leaves| && 0 <= b < |leaves| && leaves[a].index == leaves[b].index > 0
      ensures |leaves[a].path| == |leaves[b].path|
    {
      var n, m := |leaves[a].path|, |leaves[b].path|;
      if n < m {
        HighUncovered(C, n, m);
      } else if m < n {
        HighUncovered(C, m, n);
      }
    }
  }

  // ------------------------------------------------------------ the pool of admitted answers

  lemma {:induction false} LeafInRange(H: Hash, p: LaneParams, w: nat, required: seq<nat>, wp: WorkerProof, l: Leaf)
    requires p.checkpoints > 0 && WorkerOk(H, p, w, required, wp) && l in LeavesOf(p.checkpoints, wp)
    requires forall i :: 0 <= i < |required| ==> required[i] < p.checkpoints
    ensures l.index < p.checkpoints
  {
    if l != FinalLeaf(p.checkpoints, wp) {
      var i := LeafHasOpening(wp.openings, |wp.openings|, l);
      OpeningLeavesOk(H, S0(H, p, w), SegLen(p), wp.root, required[i], wp.openings[i], l);
    }
  }

  lemma {:induction false} PoolInRange(H: Hash, p: LaneParams, roots: seq<Bytes>, k: nat, lengths: set<nat>,
                                       answers: seq<Answer>, w: nat, l: Leaf)
    requires AllAnswer(H, p, roots, k, answers) && w < |roots|
    requires (forall b :: 0 <= b < |answers| ==> w < |answers[b].proofs|)
      && AnswersWithin(p.checkpoints, lengths, answers, w)
    requires l in Pool(p.checkpoints, answers, w, |answers|)
    ensures l.index < p.checkpoints && |l.path| in lengths
  {
    var a := PoolOrigin(p.checkpoints, answers, w, |answers|, l);
    DrawnInRange(p.checkpoints, k, answers[a].drawn);
    LeafInRange(H, p, w, RequiredSegments(answers[a].drawn), answers[a].proofs[w], l);
    assert Within(p.checkpoints, lengths, answers[a].proofs[w]);
  }

  /** Drawing all C segments opens every checkpoint. */
  lemma {:induction false} FullDrawHas(C: nat, drawn: seq<nat>, j: nat)
    requires j < C && drawn in DrawsFrom(Below(C), C)
    ensures j in RequiredSegments(drawn)
  {
    DrawnInRange(C, C, drawn);
    RequiredMeans(drawn);
    ElementsCount(drawn);
    var those := set d | d in drawn;
    forall d | d in those ensures d in Below(C) {
      var i :| 0 <= i < |drawn| && drawn[i] == d;
    }
    SubsetCount(those, Below(C));
    assert j in those;
  }

  lemma {:induction false} PoolOpensEvery(H: Hash, p: LaneParams, roots: seq<Bytes>, answers: seq<Answer>, w: nat)
    requires AllAnswer(H, p, roots, p.checkpoints, answers) && answers != [] && w < |roots|
    requires forall b :: 0 <= b < |answers| ==> w < |answers[b].proofs|
    ensures OpensEvery(p.checkpoints, Pool(p.checkpoints, answers, w, |answers|))
  {
    var C, pool := p.checkpoints, Pool(p.checkpoints, answers, w, |answers|);
    var required := RequiredSegments(answers[0].drawn);
    forall j | 0 <= j < C ensures HasLeaf(pool, j) {
      FullDrawHas(C, answers[0].drawn, j);
      var i :| 0 <= i < |required| && required[i] == j;
      EndOpened(H, p, w, required, answers[0].proofs[w], i);
      PoolHas(C, answers, w, |answers|, 0, EndLeaf(answers[0].proofs[w].openings[i]));
    }
  }

  lemma {:induction false} EndOpened(H: Hash, p: LaneParams, w: nat, required: seq<nat>, wp: WorkerProof, i: nat)
    requires p.checkpoints > 0 && WorkerOk(H, p, w, required, wp) && i < |required|
    ensures wp.openings[i].seg == required[i]
    ensures EndLeaf(wp.openings[i]) in LeavesOf(p.checkpoints, wp)
  {
    assert OpeningOk(H, S0(H, p, w), SegLen(p), wp.root, required[i], wp.openings[i]);
    EndsAreLeaves(p.checkpoints, wp, i);
  }

  /** The draws are of all segments, or every admitted length reaches all leaves. */
  ghost predicate Sweeping(C: nat, k: nat, lengths: set<nat>)
    requires C > 0
  {
    1 <= k <= C && (k == C || forall n :: n in lengths ==> Height(C) <= n)
  }

  lemma {:induction false} PoolWithin(H: Hash, p: LaneParams, roots: seq<Bytes>, k: nat, lengths: set<nat>,
                                      answers: seq<Answer>, w: nat)
    requires AllAnswer(H, p, roots, k, answers) && w < |roots|
    requires (forall b :: 0 <= b < |answers| ==> w < |answers[b].proofs|)
      && AnswersWithin(p.checkpoints, lengths, answers, w)
    ensures StayWithin(p.checkpoints, lengths, Pool(p.checkpoints, answers, w, |answers|))
  {
    var pool := Pool(p.checkpoints, answers, w, |answers|);
    forall j | 0 <= j < |pool| ensures pool[j].index < p.checkpoints && |pool[j].path| in lengths {
      PoolInRange(H, p, roots, k, lengths, answers, w, pool[j]);
    }
  }

  lemma {:induction false} PoolOneLength(H: Hash, p: LaneParams, roots: seq<Bytes>, k: nat, lengths: set<nat>,
                                         answers: seq<Answer>, w: nat)
    requires AllAnswer(H, p, roots, k, answers) && w < |roots|
    requires (forall b :: 0 <= b < |answers| ==> w < |answers[b].proofs|)
      && AnswersWithin(p.checkpoints, lengths, answers, w)
    requires PoolClash(H, p.checkpoints, answers, w).None?
    requires Sweeping(p.checkpoints, k, lengths) && Apart(p.checkpoints, lengths)
    ensures OneLength(Pool(p.checkpoints, answers, w, |answers|))
  {
    var pool := Pool(p.checkpoints, answers, w, |answers|);
    PoolWithin(H, p, roots, k, lengths, answers, w);
    if k == p.checkpoints && answers != [] {
      PoolOk(H, p, roots, k, answers, w, |answers|);
      PoolOpensEvery(H, p, roots, answers, w);
      ApartOneLength(H, p.checkpoints, roots[w], pool, lengths);
    } else {
      assert k == p.checkpoints ==> pool == [];
      HighOneLength(p.checkpoints, k, pool, lengths);
    }
  }

  lemma {:induction false} AdmittedConsistent(H: Hash, p: LaneParams, roots: seq<Bytes>, k: nat, lengths: set<nat>,
                                              answers: seq<Answer>)
    requires Admitted(H, p, roots, k, lengths, answers)
    requires Sweeping(p.checkpoints, k, lengths) && Apart(p.checkpoints, lengths)
    ensures Consistent(H, p, roots, k, answers)
  {
    forall w | 0 <= w < |roots|
      ensures OneLength(Pool(p.checkpoints, answers, w, |answers|)) && PoolClash(H, p.checkpoints, answers, w).None?
    {
      PoolOneLength(H, p, roots, k, lengths, answers, w);
    }
  }

  lemma {:induction false} ConsistentFit(H: Hash, p: LaneParams, roots: seq<Bytes>, k: nat, answers: seq<Answer>)
    requires AllAnswer(H, p, roots, k, answers) && Consistent(H, p, roots, k, answers)
    ensures FitLists(H, p, answers, Lists(H, p, roots, k, answers))
  {
    var lists := Lists(H, p, roots, k, answers);
    forall a, w | 0 <= a < |answers| && 0 <= w < |lists|
      ensures w < |answers[a].proofs|
        && Honours(H, p, w, lists[w], RequiredSegments(answers[a].drawn), answers[a].proofs[w])
    {
      WorkersThere(H, p, roots, k, answers, w);
      AnswerFits(H, p, roots, k, answers, w, a);
    }
  }

  // ------------------------------------------------------------ lengths that do not

  /** The last k segments. */
  function LastDraw(C: nat, k: nat): (drawn: seq<nat>)
    requires k <= C
    ensures |drawn| == k && forall i :: 0 <= i < k ==> drawn[i] == C - 1 - i
  {
    seq(k, i requires 0 <= i < k => C - 1 - i)
  }

  lemma {:induction false} LastIsDraw(C: nat, k: nat)
    requires k <= C
    ensures LastDraw(C, k) in DrawsFrom(Below(C), k)
  {
    DrawsFromMeans(Below(C), k, LastDraw(C, k));
  }

  function Other(d: Digest): (z: Digest)
    ensures z != d
  {
    d[0 := if d[0] == 0 then 1 else 0]
  }

  /** The proof that replaces checkpoint g on the way, as the one answer for one worker. */
  function GraftAnswer(H: Hash, p: LaneParams, k: nat, g: nat, z: Digest, m: nat, n: nat): Answer
    requires g < p.checkpoints && n < m && 1 <= k <= p.checkpoints
  {
    LastIsDraw(p.checkpoints, k);
    DrawnInRange(p.checkpoints, k, LastDraw(p.checkpoints, k));
    var required := RequiredSegments(LastDraw(p.checkpoints, k));
    Answer(LastDraw(p.checkpoints, k), [KitProof(0, GraftKit(H, p, 0, g, z, m, n), required)])
  }

  lemma {:induction false} GraftAnswers(H: Hash, p: LaneParams, k: nat, g: nat, z: Digest, m: nat, n: nat)
    requires 1 <= k <= p.checkpoints && Vacant(p.checkpoints, g, m, n)
    ensures var a := GraftAnswer(H, p, k, g, z, m, n); Answers(H, p, [a.proofs[0].root], k, a)
  {
    LastIsDraw(p.checkpoints, k);
    DrawnInRange(p.checkpoints, k, LastDraw(p.checkpoints, k));
    GraftScriptOk(H, p, 0, g, z, m, n);
    ScriptKitOk(H, p, 0, GraftScript(H, p, 0, g, z, m, n));
    KitProofOk(H, p, 0, GraftKit(H, p, 0, g, z, m, n), RequiredSegments(LastDraw(p.checkpoints, k)));
  }

  lemma {:induction false} GraftAdmitted(H: Hash, p: LaneParams, k: nat, g: nat, z: Digest, m: nat, n: nat,
                                         lengths: set<nat>)
    requires 1 <= k <= p.checkpoints && Vacant(p.checkpoints, g, m, n) && m in lengths && n in lengths
    ensures var a := GraftAnswer(H, p, k, g, z, m, n);
      Admitted(H, p, [a.proofs[0].root], k, lengths, [a])
  {
    var a := GraftAnswer(H, p, k, g, z, m, n);
    GraftAnswers(H, p, k, g, z, m, n);
    DrawnInRange(p.checkpoints, k, a.drawn);
    GraftStays(H, p, 0, g, z, m, n, RequiredSegments(a.drawn), lengths);
    assert Pool(p.checkpoints, [a], 0, 1) == LeavesOf(p.checkpoints, a.proofs[0]);
  }

  lemma {:induction false} OpensWhere(H: Hash, p: LaneParams, w: nat, cps: seq<Bytes>, required: seq<nat>,
                                      wp: WorkerProof, j: nat)
    returns (i: nat)
    requires |cps| == p.checkpoints > 0 && Honours(H, p, w, cps, required, wp) && j in required
    ensures i < |required| == |wp.openings| && required[i] == j < |cps|
    ensures Opens(H, S0(H, p, w), SegLen(p), cps, j, wp.openings[i])
  {
    i :| 0 <= i < |required| && required[i] == j;
  }

  /** A list the proof honours would have to hold both the checkpoint and the one that replaces it. */
  lemma {:induction false} GraftClaims(H: Hash, p: LaneParams, g: nat, z: Digest, m: nat, n: nat, required: seq<nat>,
                                       cps: seq<Bytes>)
    requires g < p.checkpoints && n < m && forall i :: 0 <= i < |required| ==> required[i] < p.checkpoints
    requires g in required && (g + 1 in required || g == p.checkpoints - 1) && |cps| == p.checkpoints
    requires Honours(H, p, 0, cps, required, KitProof(0, GraftKit(H, p, 0, g, z, m, n), required))
    ensures cps[g] == State(H, p, 0, g + 1) && cps[g] == z
  {
    var wp := KitProof(0, GraftKit(H, p, 0, g, z, m, n), required);
    OnwardSteps(H, p, z, 0);
    var i := OpensWhere(H, p, 0, cps, required, wp, g);
    assert wp.openings[i].next == State(H, p, 0, g + 1);
    if g < p.checkpoints - 1 {
      var j := OpensWhere(H, p, 0, cps, required, wp, g + 1);
      assert wp.openings[j].prev == z;
    }
  }

  lemma {:induction false} LastDrawHas(C: nat, k: nat, j: nat)
    requires 1 <= k <= C && j < C && (k == C || j == C - 1)
    ensures j in RequiredSegments(LastDraw(C, k))
  {
    LastIsDraw(C, k);
    DrawnInRange(C, k, LastDraw(C, k));
    RequiredMeans(LastDraw(C, k));
    assert LastDraw(C, k)[C - 1 - j] == j;
  }

  lemma {:induction false} UncoveredVacant(C: nat, n: nat, m: nat)
    requires C > 0 && n < m && Height(C) <= m && !Covered(C, n, m)
    ensures Vacant(C, Highest(C, n), m, n)
    ensures Height(C) <= n ==> Highest(C, n) == C - 1
  {
    var g := Highest(C, n);
    ShiftIsFloor(g, n);
    QuotientUnique(g, Power(2, n), 0, g);
    if Height(C) <= n {
      HighUncovered(C, n, m);
    }
  }

  lemma {:induction false} UncoveredUnfit(H: Hash, p: LaneParams, k: nat, lengths: set<nat>, n: nat, m: nat)
    requires p.checkpoints > 0 && Sweeping(p.checkpoints, k, lengths) && n in lengths && m in lengths
    requires n < m && Height(p.checkpoints) <= m && !Covered(p.checkpoints, n, m)
    ensures !OneList(H, p, k, lengths)
  {
    var g := Highest(p.checkpoints, n);
    var z := Other(State(H, p, 0, g + 1));
    UncoveredVacant(p.checkpoints, n, m);
    GraftAdmitted(H, p, k, g, z, m, n, lengths);
    var a := GraftAnswer(H, p, k, g, z, m, n);
    LastDrawHas(p.checkpoints, k, g);
    if g + 1 < p.checkpoints {
      LastDrawHas(p.checkpoints, k, g + 1);
    }
    forall lists: seq<seq<Bytes>> | |lists| == 1 && FitLists(H, p, [a], lists) ensures false {
      assert Honours(H, p, 0, lists[0], RequiredSegments([a][0].drawn), [a][0].proofs[0]);
      GraftClaims(H, p, g, z, m, n, RequiredSegments(a.drawn), lists[0]);
    }
  }

  // ------------------------------------------------------------ exactly when

  /**
   For every hash and every number of draws: proofs on admitted lengths always fit one list per worker, or
   two of their paths collide, if and only if the lengths keep apart. With fewer draws than segments this is
   said of lengths that reach all leaves, with all segments drawn of any set of lengths whatever.
   */
  lemma {:induction false} OneListIff(H: Hash, p: LaneParams, k: nat, lengths: set<nat>)
    requires p.checkpoints > 0 && Sweeping(p.checkpoints, k, lengths)
    ensures OneList(H, p, k, lengths) <==> Apart(p.checkpoints, lengths)
  {
    if Apart(p.checkpoints, lengths) {
      forall roots: seq<Bytes>, answers: seq<Answer> | Admitted(H, p, roots, k, lengths, answers)
        ensures exists lists: seq<seq<Bytes>> :: |lists| == |roots| && FitLists(H, p, answers, lists)
      {
        AdmittedConsistent(H, p, roots, k, lengths, answers);
        ConsistentFit(H, p, roots, k, answers);
        assert |Lists(H, p, roots, k, answers)| == |roots|;
      }
    } else {
      var n, m :| n in lengths && m in lengths && n < m && Height(p.checkpoints) <= m && !Covered(p.checkpoints, n, m);
      UncoveredUnfit(H, p, k, lengths, n, m);
    }
  }

  /** Lengths that reach all leaves keep apart exactly if there is one, or only one checkpoint. */
  lemma {:induction false} HighApartIff(C: nat, lengths: set<nat>)
    requires C > 0 && forall n :: n in lengths ==> Height(C) <= n
    ensures Apart(C, lengths) <==> C == 1 || forall n, m :: n in lengths && m in lengths ==> n == m
  {
    if C > 1 {
      forall n, m | n in lengths && m in lengths && n < m ensures !Covered(C, n, m) {
        HighUncovered(C, n, m);
      }
    }
  }

  /** So for every number of draws, one length is what proofs on lengths that reach all leaves need to fit one list. */
  lemma {:induction false} HighOneListIff(H: Hash, p: LaneParams, k: nat, lengths: set<nat>)
    requires 1 <= k <= p.checkpoints && forall n :: n in lengths ==> Height(p.checkpoints) <= n
    ensures OneList(H, p, k, lengths) <==>
      p.checkpoints == 1 || forall n, m :: n in lengths && m in lengths ==> n == m
  {
    OneListIff(H, p, k, lengths);
    HighApartIff(p.checkpoints, lengths);
  }

  lemma {:induction false} PowerSplits(a: nat, b: nat)
    ensures Power(2, a + b) == Power(2, a) * Power(2, b)
  {
    if b > 0 {
      PowerSplits(a, b - 1);
      assert Power(2, a) * (2 * Power(2, b - 1)) == 2 * (Power(2, a) * Power(2, b - 1));
    }
  }

  /** The room a length n below the height leaves: the last of 2^n nodes has 2^(h - n) of the 2^h places below it. */
  lemma {:induction false} CoveredBelow(C: nat, n: nat)
    requires C > 1 && n < Height(C)
    ensures Covered(C, n, Height(C)) <==> Power(2, Height(C)) - Power(2, Height(C) - n) < C
    ensures Power(2, Height(C) - n) >= 2
  {
    var h := Height(C);
    HeightIsCeilLog2(C);
    PowerSplits(n, h - n);
    PowerSplits(n, h - n - 1);
    PowerSplits(h - 1, 1);
    SpareRoom(Power(2, n), Power(2, h - n), Power(2, h - n - 1));
    SpareRoom(Power(2, h - 1), 2, 1);
  }

  lemma {:induction false} SpareRoom(a: nat, b: nat, half: nat)
    requires a > 0 && half > 0 && b == 2 * half
    ensures (a - 1) * b == a * b - b && 2 * a <= a * b
  {
    MulLe(a, a, 2, b);
  }

  /**
   Refusing only paths longer than ceil(log2 C) keeps lengths apart exactly if C is a power of two or one less
   than one.
   */
  lemma {:induction false} AtMostHeightIff(C: nat)
    requires C > 0
    ensures Apart(C, Below(Height(C) + 1)) <==> Power(2, Height(C)) <= C + 1
  {
    var h := Height(C);
    if C == 1 {
      assert Power(2, 0) == 1;
    } else {
      forall n | 0 <= n < h ensures Power(2, h) <= C + 1 ==> Covered(C, n, h) {
        CoveredBelow(C, n);
      }
      CoveredBelow(C, h - 1);
      assert Power(2, 1) == 2 by { assert Power(2, 0) == 1; }
      assert h - 1 in Below(h + 1) && h in Below(h + 1);
    }
  }

}
