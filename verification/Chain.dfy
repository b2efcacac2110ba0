/** The sequential work: a lane's starting states and iterated-hash chains. */
module Chain {
  import opened Arith
  import opened Hashing

  type Nonce = b: Bytes | |b| == 16 witness seq(16, _ => 0)

  type Address = b: Bytes | |b| == 20 witness seq(20, _ => 0)

  datatype LaneParams = LaneParams(
    seed: Digest,
    laneNonce: Nonce,
    providerId: Address,
    laneId: Bytes,
    chainLen: nat,
    checkpoints: nat,
    samples: nat)

  function S0Pre(p: LaneParams, worker: nat): Bytes {
    p.seed + p.laneNonce + p.providerId + p.laneId + U32be(worker)
  }

  function S0(H: Hash, p: LaneParams, worker: nat): Digest {
    H(S0Pre(p, worker))
  }

  /** k hash steps from s. */
  function Steps(H: Hash, s: Bytes, k: nat): (r: Bytes)
    ensures k > 0 || |s| == 32 ==> |r| == 32
  {
    if k == 0 then s else H(Steps(H, s, k - 1))
  }

  /** How often `k < chainLen / checkpoints` holds from k = 0 on: the quotient rounded up. */
  function SegLen(p: LaneParams): nat
    requires p.checkpoints > 0
  {
    (p.chainLen + p.checkpoints - 1) / p.checkpoints
  }

  /** c_j: the state after j segments; c_0 is s_0. */
  function State(H: Hash, p: LaneParams, worker: nat, j: nat): Digest
    requires p.checkpoints > 0
  {
    Steps(H, S0(H, p, worker), j * SegLen(p))
  }

  /** The checkpoints c_1 .. c_C. */
  function Checkpoints(H: Hash, p: LaneParams, worker: nat): (cps: seq<Digest>)
    requires p.checkpoints > 0
    ensures |cps| == p.checkpoints
  {
    seq<Digest>(p.checkpoints, j requires j >= 0 => State(H, p, worker, j + 1))
  }

  // ------------------------------------------------------------ facts

  /** A start state's input names its seed, nonce, provider, lane and worker unambiguously. */
  lemma {:induction false} S0PreInjective(p: LaneParams, q: LaneParams, v: nat, w: nat)
    requires v < U32 && w < U32
    requires S0Pre(p, v) == S0Pre(q, w)
    ensures p.seed == q.seed && p.laneNonce == q.laneNonce && p.providerId == q.providerId
    ensures p.laneId == q.laneId && v == w
  {
    var a, b := S0Pre(p, v), S0Pre(q, w);
    var n := |a|;
    assert a[..32] == p.seed && b[..32] == q.seed;
    assert a[32..48] == p.laneNonce && b[32..48] == q.laneNonce;
    assert a[48..68] == p.providerId && b[48..68] == q.providerId;
    assert a[68..n - 4] == p.laneId && b[68..n - 4] == q.laneId;
    assert a[n - 4..] == U32be(v) && b[n - 4..] == U32be(w);
    U32Injective(v, w);
  }

  /** What a start state is the hash of, place by place. */
  lemma {:induction false} S0Holds(H: Hash, p: LaneParams, worker: nat) returns (pre: Bytes)
    ensures S0(H, p, worker) == H(pre) && |pre| == 72 + |p.laneId|
    ensures pre[..32] == p.seed && pre[32..48] == p.laneNonce && pre[48..68] == p.providerId
    ensures pre[68..68 + |p.laneId|] == p.laneId && pre[68 + |p.laneId|..] == U32be(worker)
  {
    pre := S0Pre(p, worker);
  }

  /** k hash steps are a trace of k + 1 states, each the hash of the one before. */
  lemma {:induction false} StepsTrace(H: Hash, s: Bytes, k: nat) returns (t: seq<Bytes>)
    ensures |t| == k + 1 && t[0] == s && t[k] == Steps(H, s, k)
    ensures forall i :: 0 <= i < k ==> t[i + 1] == H(t[i])
  {
    if k == 0 {
      t := [s];
    } else {
      var before := StepsTrace(H, s, k - 1);
      t := before + [H(before[k - 1])];
    }
  }

  /** The number of k >= 0 below L / C. */
  lemma {:induction false} SegLenIs(p: LaneParams, k: nat)
    requires p.checkpoints > 0
    ensures k < SegLen(p) <==> k * p.checkpoints < p.chainLen
  {
    var c, s := p.checkpoints, SegLen(p);
    var r := (p.chainLen + c - 1) % c;
    assert p.chainLen + c - 1 == s * c + r;
    if k < s {
      assert k * c <= (s - 1) * c by { MulLe(k, s - 1, c, c); }
    } else {
      assert k * c >= s * c by { MulLe(s, k, c, c); }
    }
  }

  lemma {:induction false} StepsCompose(H: Hash, s: Bytes, a: nat, b: nat)
    ensures Steps(H, Steps(H, s, a), b) == Steps(H, s, a + b)
  {
    if b > 0 {
      StepsCompose(H, s, a, b - 1);
    }
  }

  /** Segment j leads from c_j to c_{j+1}. */
  lemma {:induction false} SegmentSteps(H: Hash, p: LaneParams, worker: nat, j: nat)
    requires p.checkpoints > 0
    ensures Steps(H, State(H, p, worker, j), SegLen(p)) == State(H, p, worker, j + 1)
  {
    StepsCompose(H, S0(H, p, worker), j * SegLen(p), SegLen(p));
    assert j * SegLen(p) + SegLen(p) == (j + 1) * SegLen(p);
  }

  /** With a divisible chain length the last checkpoint is exactly L steps from s_0. */
  lemma {:induction false} FullChain(H: Hash, p: LaneParams, worker: nat)
    requires p.checkpoints > 0 && p.chainLen % p.checkpoints == 0
    ensures SegLen(p) == p.chainLen / p.checkpoints
    ensures State(H, p, worker, p.checkpoints) == Steps(H, S0(H, p, worker), p.chainLen)
  {
    var q := p.chainLen / p.checkpoints;
    var c := p.checkpoints;
    assert p.chainLen == q * c;
    assert SegLen(p) == q by {
      QuotientUnique(p.chainLen + c - 1, c, q, c - 1);
    }
  }

  /** Where segment j of a list of checkpoints starts: at the list's start, or at the checkpoint before it. */
  function SegStart(start: Bytes, cps: seq<Bytes>, j: nat): Bytes
    requires j < |cps|
  {
    if j == 0 then start else cps[j - 1]
  }

  /** Every segment of the list was computed. */
  ghost predicate Linked(H: Hash, start: Bytes, segLen: nat, cps: seq<Bytes>) {
    forall j :: 0 <= j < |cps| ==> Steps(H, SegStart(start, cps, j), segLen) == cps[j]
  }

  /** A list that starts at s_0 and whose every segment was computed is the chain. */
  lemma {:induction false} ChainFromLinks(H: Hash, p: LaneParams, worker: nat, cps: seq<Bytes>, j: nat)
    requires p.checkpoints > 0 && |cps| == p.checkpoints && j < |cps|
    requires Linked(H, S0(H, p, worker), SegLen(p), cps)
    ensures cps[j] == State(H, p, worker, j + 1)
  {
    if j > 0 {
      ChainFromLinks(H, p, worker, cps, j - 1);
    } else {
      assert State(H, p, worker, 0) == S0(H, p, worker);
    }
    assert SegStart(S0(H, p, worker), cps, j) == State(H, p, worker, j);
    SegmentSteps(H, p, worker, j);
  }

  // ------------------------------------------------------------ the loop

  /** `computeChain`, with its cost in hash steps; None where it throws because C does not divide L. */
  method ComputeChain(H: Hash, p: LaneParams, worker: nat) returns (r: Option<seq<Digest>>, ghost cost: nat)
    ensures r.Some? <==> p.checkpoints > 0 && p.chainLen % p.checkpoints == 0
    ensures r.Some? ==> r.value == Checkpoints(H, p, worker)
    ensures r.Some? ==> Steps(H, S0(H, p, worker), p.chainLen) == r.value[p.checkpoints - 1]
    ensures cost == if r.Some? then p.chainLen else 0
  {
    if p.checkpoints == 0 || p.chainLen % p.checkpoints != 0 {
      return None, 0;
    }
    var segLen := p.chainLen / p.checkpoints;
    FullChain(H, p, worker);
    var state: Digest := S0(H, p, worker);
    var cps: seq<Digest> := [];
    cost := 0;
    for j := 0 to p.checkpoints
      invariant state == State(H, p, worker, j)
      invariant cost == j * segLen
      invariant cps == Checkpoints(H, p, worker)[..j]
    {
      SegmentSteps(H, p, worker, j);
      ghost var start := state;
      for k := 0 to segLen
        invariant state == Steps(H, start, k) && cost == j * segLen + k
      {
        state := H(state);
        cost := cost + 1;
      }
      cps := cps + [state];
      assert (j + 1) * segLen == j * segLen + segLen;
    }
    return Some(cps), cost;
  }
}
