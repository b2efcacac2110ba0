/** Fiat-Shamir drawing of the segments to open. */
module Sampling {
  import opened Arith
  import opened Hashing

  function Concat(parts: seq<Bytes>): Bytes {
    if parts == [] then [] else parts[0] + Concat(parts[1..])
  }

  /** What the draws of a lane depend on: the challenge, the lane and every worker's root. */
  function TranscriptPre(challengeId: Digest, laneId: Bytes, roots: seq<Bytes>): Bytes {
    challengeId + laneId + Concat(roots)
  }

  /** The transcript digest every draw is expanded from. */
  function Transcript(H: Hash, challengeId: Digest, laneId: Bytes, roots: seq<Bytes>): Digest {
    H(TranscriptPre(challengeId, laneId, roots))
  }

  ghost predicate RootSized(roots: seq<Bytes>) { forall w :: 0 <= w < |roots| ==> |roots[w]| == 32 }

  lemma {:induction false} ConcatHolds(roots: seq<Bytes>, w: nat)
    requires RootSized(roots)
    ensures |Concat(roots)| == 32 * |roots|
    ensures w < |roots| ==> Concat(roots)[32 * w..32 * (w + 1)] == roots[w]
  {
    if roots != [] {
      ConcatHolds(roots[1..], if w > 0 then w - 1 else 0);
      var rest := Concat(roots[1..]);
      if 0 < w < |roots| {
        assert Concat(roots)[32 * w..32 * (w + 1)] == rest[32 * (w - 1)..32 * w];
        assert roots[1..][w - 1] == roots[w];
      }
    }
  }

  lemma {:induction false} TranscriptPlaces(challengeId: Digest, laneId: Bytes, roots: seq<Bytes>)
    requires RootSized(roots)
    ensures var pre, front := TranscriptPre(challengeId, laneId, roots), 32 + |laneId|;
      && |pre| == front + 32 * |roots|
      && pre[..32] == challengeId && pre[32..front] == laneId
      && forall w :: 0 <= w < |roots| ==> pre[front + 32 * w..front + 32 * (w + 1)] == roots[w]
  {
    var pre, front := TranscriptPre(challengeId, laneId, roots), 32 + |laneId|;
    ConcatHolds(roots, 0);
    forall w | 0 <= w < |roots| ensures pre[front + 32 * w..front + 32 * (w + 1)] == roots[w] {
      ConcatHolds(roots, w);
      assert pre[front + 32 * w..front + 32 * (w + 1)] == Concat(roots)[32 * w..32 * (w + 1)];
    }
  }

  /** The transcript is the hash of the challenge id, the lane id and the roots in worker order, place by place. */
  lemma {:induction false} TranscriptHolds(H: Hash, challengeId: Digest, laneId: Bytes, roots: seq<Bytes>)
    returns (pre: Bytes)
    requires RootSized(roots)
    ensures Transcript(H, challengeId, laneId, roots) == H(pre)
    ensures |pre| == 32 + |laneId| + 32 * |roots|
    ensures pre[..32] == challengeId && pre[32..32 + |laneId|] == laneId
    ensures forall w :: 0 <= w < |roots| ==> pre[32 + |laneId| + 32 * w..32 + |laneId| + 32 * (w + 1)] == roots[w]
  {
    pre := TranscriptPre(challengeId, laneId, roots);
    TranscriptPlaces(challengeId, laneId, roots);
  }

  /** So different challenges, lanes or roots of as many workers are drawn for from different inputs. */
  lemma {:induction false} TranscriptInjective(c: Digest, l: Bytes, r: seq<Bytes>, d: Digest, m: Bytes, s: seq<Bytes>)
    requires RootSized(r) && RootSized(s) && |r| == |s|
    requires TranscriptPre(c, l, r) == TranscriptPre(d, m, s)
    ensures c == d && l == m && r == s
  {
    TranscriptPlaces(c, l, r);
    TranscriptPlaces(d, m, s);
    var pre, front := TranscriptPre(c, l, r), 32 + |l|;
    assert |l| == |m|;
    forall w | 0 <= w < |r| ensures r[w] == s[w] {
      assert pre[front + 32 * w..front + 32 * (w + 1)] == r[w];
    }
  }

  /** The residue counter ctr yields. */
  function Draw(H: Hash, h: Digest, C: nat, ctr: nat): (r: nat)
    requires C > 0
    ensures r < C
  {
    FirstU32(H(h + U32be(ctr))) % C
  }

  /** The counter is hashed behind the transcript digest, and the first four bytes of the result taken modulo C. */
  lemma {:induction false} DrawHolds(H: Hash, h: Digest, C: nat, ctr: nat) returns (pre: Bytes)
    requires C > 0
    ensures |pre| == 36 && pre[..32] == h
    ensures ctr % U32 ==
      pre[32] as int * 0x100_0000 + pre[33] as int * 0x1_0000 + pre[34] as int * 0x100 + pre[35]
    ensures var b := H(pre);
      Draw(H, h, C, ctr) == (b[0] as int * 0x100_0000 + b[1] as int * 0x1_0000 + b[2] as int * 0x100 + b[3]) % C
  {
    pre := h + U32be(ctr);
    U32Wraps(ctr);
    U32BigEndian(ctr % U32);
    FirstU32BigEndian(H(pre));
  }

  /** The distinct residues among the first n counters, in order of first appearance. */
  function Draws(H: Hash, h: Digest, C: nat, n: nat): (s: seq<nat>)
    requires C > 0
    ensures Distinct(s)
    ensures forall j :: j in s ==> j < C
  {
    if n == 0 then []
    else
      var before := Draws(H, h, C, n - 1);
      var j := Draw(H, h, C, n - 1);
      if j in before then before else before + [j]
  }

  /** Drawing comes to an end: some number of counters yields enough different residues. */
  ghost predicate Samplable(H: Hash, h: Digest, K: nat, C: nat)
    requires C > 0
  {
    exists n: nat :: |Draws(H, h, C, n)| >= Min(K, C)
  }

  ghost function Sample(H: Hash, h: Digest, K: nat, C: nat): (s: seq<nat>)
    requires C > 0 && Samplable(H, h, K, C)
  {
    var n: nat :| |Draws(H, h, C, n)| >= Min(K, C);
    Draws(H, h, C, n)[..Min(K, C)]
  }

  // ------------------------------------------------------------ what is drawn

  lemma {:induction false} DrawsGrow(H: Hash, h: Digest, C: nat, m: nat, n: nat)
    requires C > 0 && m <= n
    ensures Draws(H, h, C, m) <= Draws(H, h, C, n)
  {
    if m < n {
      DrawsGrow(H, h, C, m, n - 1);
    }
  }

  /** However far one counts, once enough residues are there the sample is the same. */
  lemma {:induction false} SampleIs(H: Hash, h: Digest, K: nat, C: nat, n: nat)
    requires C > 0 && |Draws(H, h, C, n)| >= Min(K, C)
    ensures Samplable(H, h, K, C) && Sample(H, h, K, C) == Draws(H, h, C, n)[..Min(K, C)]
  {
    var m: nat :| |Draws(H, h, C, m)| >= Min(K, C) && Sample(H, h, K, C) == Draws(H, h, C, m)[..Min(K, C)];
    DrawsGrow(H, h, C, if m < n then m else n, if m < n then n else m);
  }

  /** Exactly min(K, C) different segments, all in range. */
  lemma {:induction false} SampleShape(H: Hash, h: Digest, K: nat, C: nat)
    requires C > 0 && Samplable(H, h, K, C)
    ensures var s := Sample(H, h, K, C);
      |s| == Min(K, C) && Distinct(s) && forall j :: j in s ==> j < C
  {
    var n: nat :| |Draws(H, h, C, n)| >= Min(K, C);
    SampleIs(H, h, K, C, n);
    var s := Sample(H, h, K, C);
    forall j | j in s ensures j < C {
      assert j in Draws(H, h, C, n);
    }
  }

  lemma {:induction false} DrawsInOrder(H: Hash, h: Digest, C: nat, n: nat, a: nat) returns (t: nat)
    requires C > 0 && a < |Draws(H, h, C, n)|
    ensures t < n && Draw(H, h, C, t) == Draws(H, h, C, n)[a]
    ensures forall u :: 0 <= u < t ==> Draw(H, h, C, u) in Draws(H, h, C, n)[..a]
  {
    var before := Draws(H, h, C, n - 1);
    if a < |before| {
      t := DrawsInOrder(H, h, C, n - 1, a);
      assert Draws(H, h, C, n)[..a] == before[..a];
    } else {
      t := n - 1;
      assert Draws(H, h, C, n)[..a] == before;
      forall u | 0 <= u < t ensures Draw(H, h, C, u) in before {
        DrawsHit(H, h, C, n - 1, u);
      }
    }
  }

  lemma {:induction false} DrawsHit(H: Hash, h: Digest, C: nat, n: nat, t: nat)
    requires C > 0 && t < n
    ensures Draw(H, h, C, t) in Draws(H, h, C, n)
  {
    if t < n - 1 {
      DrawsHit(H, h, C, n - 1, t);
    }
  }

  /** Each drawn segment is the first counter's residue not drawn before it. */
  lemma {:induction false} SampleInOrder(H: Hash, h: Digest, K: nat, C: nat, a: nat) returns (t: nat)
    requires C > 0 && Samplable(H, h, K, C) && a < |Sample(H, h, K, C)|
    ensures Draw(H, h, C, t) == Sample(H, h, K, C)[a]
    ensures forall u :: 0 <= u < t ==> Draw(H, h, C, u) in Sample(H, h, K, C)[..a]
  {
    var n: nat :| |Draws(H, h, C, n)| >= Min(K, C);
    SampleIs(H, h, K, C, n);
    t := DrawsInOrder(H, h, C, n, a);
    assert Draws(H, h, C, n)[..Min(K, C)][..a] == Draws(H, h, C, n)[..a];
  }

  // ------------------------------------------------------------ when drawing ends

  ghost function Hits(H: Hash, h: Digest, C: nat, n: nat): set<nat>
    requires C > 0
  {
    set t | 0 <= t < n :: Draw(H, h, C, t)
  }

  lemma {:induction false} HitsGrow(H: Hash, h: Digest, C: nat, n: nat)
    requires C > 0
    ensures Hits(H, h, C, n + 1) == Hits(H, h, C, n) + {Draw(H, h, C, n)}
  {
  }

  ghost function Elements(s: seq<nat>): set<nat> { set j | j in s }

  lemma {:induction false} ElementsGrow(s: seq<nat>, j: nat)
    ensures Elements(s + [j]) == Elements(s) + {j}
  {
  }

  lemma {:induction false} DrawsAreHits(H: Hash, h: Digest, C: nat, n: nat)
    requires C > 0
    ensures Elements(Draws(H, h, C, n)) == Hits(H, h, C, n)
    ensures |Draws(H, h, C, n)| == |Hits(H, h, C, n)|
  {
    if n > 0 {
      DrawsAreHits(H, h, C, n - 1);
      HitsGrow(H, h, C, n - 1);
      ElementsGrow(Draws(H, h, C, n - 1), Draw(H, h, C, n - 1));
    }
    ElementsCount(Draws(H, h, C, n));
  }

  /**
   Drawing ends exactly when the 2^32 different counters hit min(K, C) residues: the encoded
   counter wraps, so later counters only repeat.
   */
  lemma {:induction false} SamplableIff(H: Hash, h: Digest, K: nat, C: nat)
    requires C > 0
    ensures Samplable(H, h, K, C) <==> |Hits(H, h, C, U32)| >= Min(K, C)
  {
    if Samplable(H, h, K, C) {
      var n: nat :| |Draws(H, h, C, n)| >= Min(K, C);
      DrawsAreHits(H, h, C, n);
      forall j | j in Hits(H, h, C, n) ensures j in Hits(H, h, C, U32) {
        var t :| 0 <= t < n && j == Draw(H, h, C, t);
        U32Wraps(t);
        assert j == Draw(H, h, C, t % U32);
      }
      SubsetCount(Hits(H, h, C, n), Hits(H, h, C, U32));
    }
    if |Hits(H, h, C, U32)| >= Min(K, C) {
      DrawsAreHits(H, h, C, U32);
    }
  }

  // ------------------------------------------------------------ the required segments

  function NonZero(s: seq<nat>): (r: seq<nat>) {
    if s == [] then [] else (if s[0] != 0 then [s[0]] else []) + NonZero(s[1..])
  }

  /** `requiredSegments`: segment 0, then the sampled ones other than 0. */
  function RequiredSegments(sampled: seq<nat>): seq<nat> {
    [0] + NonZero(sampled)
  }

  lemma {:induction false} NonZeroMeans(s: seq<nat>)
    ensures forall j :: j in NonZero(s) <==> j in s && j != 0
    ensures |NonZero(s)| <= |s|
    ensures Distinct(s) ==> Distinct(NonZero(s))
    ensures Distinct(s) && 0 in s ==> |NonZero(s)| == |s| - 1
    ensures 0 !in s ==> NonZero(s) == s
  {
    if s != [] {
      NonZeroMeans(s[1..]);
      assert s == [s[0]] + s[1..];
      var head := if s[0] != 0 then [s[0]] else [];
      if Distinct(s) {
        assert Distinct(s[1..]);
        assert s[0] !in s[1..];
        assert Distinct(head + NonZero(s[1..]));
      }
    }
  }

  /** No segment twice, 0 first, every sampled one included and nothing else. */
  lemma {:induction false} RequiredMeans(sampled: seq<nat>)
    requires Distinct(sampled)
    ensures var r := RequiredSegments(sampled);
      && r[0] == 0 && Distinct(r)
      && (forall j :: j in r <==> j == 0 || j in sampled)
      && |r| == if 0 in sampled then |sampled| else |sampled| + 1
  {
    NonZeroMeans(sampled);
  }

  lemma {:induction false} NonZeroSkips(a: seq<nat>, b: seq<nat>)
    ensures NonZero(a + b) == NonZero(a) + NonZero(b)
  {
    if a == [] {
      assert a + b == b;
    } else {
      var head := if a[0] != 0 then [a[0]] else [];
      NonZeroSkips(a[1..], b);
      assert (a + b)[0] == a[0] && (a + b)[1..] == a[1..] + b;
      assert NonZero(a + b) == head + (NonZero(a[1..]) + NonZero(b));
      assert NonZero(a) == head + NonZero(a[1..]);
    }
  }

  lemma {:induction false} NoneSkipped(s: seq<nat>)
    requires 0 !in s
    ensures NonZero(s) == s
  {
    NonZeroMeans(s);
  }

  lemma {:induction false} ZeroSkipped(s: seq<nat>)
    ensures NonZero([0] + s) == NonZero(s)
  {
    assert ([0] + s)[1..] == s;
  }

  lemma {:induction false} NonZeroAround(front: seq<nat>, back: seq<nat>)
    requires 0 !in front && 0 !in back
    ensures NonZero(front + ([0] + back)) == front + back
  {
    NonZeroSkips(front, [0] + back);
    ZeroSkipped(back);
    NoneSkipped(front);
    NoneSkipped(back);
  }

  lemma {:induction false} ZeroOnce(s: seq<nat>, z: nat)
    requires Distinct(s) && z < |s| && s[z] == 0
    ensures 0 !in s[..z] && 0 !in s[z + 1..]
  {
  }

  /** The sampled segments follow segment 0 in the order they were drawn in; 0 itself is not repeated. */
  lemma {:induction false} RequiredInOrder(sampled: seq<nat>)
    requires Distinct(sampled)
    ensures 0 !in sampled ==> RequiredSegments(sampled) == [0] + sampled
    ensures forall z :: 0 <= z < |sampled| && sampled[z] == 0 ==>
      RequiredSegments(sampled) == [0] + (sampled[..z] + sampled[z + 1..])
  {
    if 0 !in sampled {
      NoneSkipped(sampled);
    }
    forall z | 0 <= z < |sampled| && sampled[z] == 0
      ensures RequiredSegments(sampled) == [0] + (sampled[..z] + sampled[z + 1..])
    {
      ZeroOnce(sampled, z);
      NonZeroAround(sampled[..z], sampled[z + 1..]);
      assert sampled == sampled[..z] + ([0] + sampled[z + 1..]);
    }
  }

  /** The required segments of a lane: at most min(K, C) + 1 of them, all in range. */
  lemma {:induction false} RequiredInRange(H: Hash, h: Digest, K: nat, C: nat)
    requires C > 0 && Samplable(H, h, K, C)
    ensures var r := RequiredSegments(Sample(H, h, K, C));
      |r| <= Min(K, C) + 1 && forall i :: 0 <= i < |r| ==> r[i] < C
  {
    var s := Sample(H, h, K, C);
    SampleShape(H, h, K, C);
    RequiredMeans(s);
    var r := RequiredSegments(s);
    forall i | 0 <= i < |r| ensures r[i] < C {
      assert r[i] in r;
    }
  }

  /** With K at least C, every segment is required. */
  lemma {:induction false} AllRequired(H: Hash, h: Digest, K: nat, C: nat, j: nat)
    requires C > 0 && K >= C && j < C && Samplable(H, h, K, C)
    ensures j in RequiredSegments(Sample(H, h, K, C))
  {
    var s := Sample(H, h, K, C);
    SampleShape(H, h, K, C);
    ElementsCount(s);
    SubsetCount((set x | x in s), Below(C));
    assert j in Below(C);
    RequiredMeans(s);
  }

  // ------------------------------------------------------------ the loop

  /** `sampleIndices`. The requires is what makes its unbounded loop end (see SamplableIff). */
  method SampleIndices(H: Hash, challengeId: Digest, laneId: Bytes, roots: seq<Bytes>, K: nat, C: nat)
    returns (out: seq<nat>)
    requires C > 0 && Samplable(H, Transcript(H, challengeId, laneId, roots), K, C)
    ensures out == Sample(H, Transcript(H, challengeId, laneId, roots), K, C)
    ensures |out| == Min(K, C) && Distinct(out) && forall j :: j in out ==> j < C
  {
    var h := Transcript(H, challengeId, laneId, roots);
    ghost var enough: nat :| |Draws(H, h, C, enough)| >= Min(K, C);
    out := [];
    var seen: set<nat> := {};
    var ctr: nat := 0;
    while |out| < Min(K, C)
      invariant out == Draws(H, h, C, ctr) && |out| <= Min(K, C)
      invariant forall j :: j in seen <==> j in out
      decreases enough - ctr
    {
      assert ctr < enough by {
        if ctr >= enough { DrawsGrow(H, h, C, enough, ctr); }
      }
      var idx := Draw(H, h, C, ctr);
      if idx !in seen {
        seen := seen + {idx};
        out := out + [idx];
      }
      ctr := ctr + 1;
    }
    SampleIs(H, h, K, C, ctr);
    SampleShape(H, h, K, C);
  }
}
