/** How likely a lane with broken segments is to escape: a count of draws. */
module Detection {
  import opened Arith
  import opened Hashing
  import opened Chain
  import opened Sampling
  import opened Lane
  import opened LaneSoundness

  /** Every way to draw k different elements of s, in order. */
  ghost function DrawsFrom(s: set<nat>, k: nat): set<seq<nat>> {
    if k == 0 then {[]}
    else set x, rest | x in s && rest in DrawsFrom(s - {x}, k - 1) :: [x] + rest
  }

  /** n * (n-1) * ... with k factors. */
  function Falling(n: nat, k: nat): nat {
    if k == 0 then 1 else if n == 0 then 0 else n * Falling(n - 1, k - 1)
  }

  // ------------------------------------------------------------ counting the draws

  lemma {:induction false} DrawsFromMeans(s: set<nat>, k: nat, d: seq<nat>)
    ensures d in DrawsFrom(s, k) <==> |d| == k && Distinct(d) && forall i :: 0 <= i < k ==> d[i] in s
    decreases k
  {
    if k > 0 {
      if d != [] {
        DrawsFromMeans(s - {d[0]}, k - 1, d[1..]);
        assert d == [d[0]] + d[1..];
      }
      if d in DrawsFrom(s, k) {
        var x, rest :| x in s && rest in DrawsFrom(s - {x}, k - 1) && d == [x] + rest;
        assert d[1..] == rest;
      }
    }
  }

  /** The draws whose first element is in f. */
  ghost function StartingIn(s: set<nat>, f: set<nat>, k: nat): set<seq<nat>>
    requires k > 0
  {
    set x, rest | x in f && rest in DrawsFrom(s - {x}, k - 1) :: [x] + rest
  }

  ghost function Prefixed(x: nat, rests: set<seq<nat>>): set<seq<nat>> {
    set rest | rest in rests :: [x] + rest
  }

  lemma {:induction false} CountPrefixed(x: nat, rests: set<seq<nat>>)
    ensures |Prefixed(x, rests)| == |rests|
  {
    var all := Prefixed(x, rests);
    if rests == {} {
      assert all == {};
    } else {
      var r :| r in rests;
      CountPrefixed(x, rests - {r});
      var fewer := Prefixed(x, rests - {r});
      assert all == fewer + {[x] + r};
      forall rest | rest in rests - {r} ensures [x] + rest != [x] + r {
        assert ([x] + r)[1..] == r && ([x] + rest)[1..] == rest;
      }
    }
  }

  lemma {:induction false} SplitStarting(s: set<nat>, f: set<nat>, k: nat, x: nat)
    requires k > 0 && x in f && f <= s
    ensures var those := Prefixed(x, DrawsFrom(s - {x}, k - 1));
      && StartingIn(s, f, k) == StartingIn(s, f - {x}, k) + those
      && StartingIn(s, f - {x}, k) !! those
  {
    var those := Prefixed(x, DrawsFrom(s - {x}, k - 1));
    forall d | d in StartingIn(s, f - {x}, k) ensures d !in those {
      assert d[0] != x;
    }
  }

  lemma {:induction false} CountStarting(s: set<nat>, f: set<nat>, k: nat)
    requires k > 0 && f <= s
    ensures |StartingIn(s, f, k)| == |f| * (if |s| == 0 then 0 else Falling(|s| - 1, k - 1))
    decreases k, |f|
  {
    if f == {} {
      assert StartingIn(s, f, k) == {};
    } else {
      var x :| x in f;
      CountStarting(s, f - {x}, k);
      CountRest(s, f, k, x);
      assert |f| * Falling(|s| - 1, k - 1) == |f - {x}| * Falling(|s| - 1, k - 1) + Falling(|s| - 1, k - 1) by {
        assert |f| == |f - {x}| + 1;
      }
    }
  }

  lemma {:induction false} CountRest(s: set<nat>, f: set<nat>, k: nat, x: nat)
    requires k > 0 && x in f && f <= s
    ensures |StartingIn(s, f, k)| == |StartingIn(s, f - {x}, k)| + Falling(|s| - 1, k - 1)
    decreases k, 0
  {
    var those := Prefixed(x, DrawsFrom(s - {x}, k - 1));
    assert |those| == Falling(|s| - 1, k - 1) by {
      CountDraws(s - {x}, k - 1);
      CountPrefixed(x, DrawsFrom(s - {x}, k - 1));
    }
    SplitStarting(s, f, k, x);
    UnionCount(StartingIn(s, f - {x}, k), those);
  }

  lemma {:induction false} UnionCount<T>(a: set<T>, b: set<T>)
    requires a !! b
    ensures |a + b| == |a| + |b|
  {
  }

  /** There are exactly n (n-1) ... (n-k+1) draws of k different elements out of n. */
  lemma {:induction false} CountDraws(s: set<nat>, k: nat)
    ensures |DrawsFrom(s, k)| == Falling(|s|, k)
    decreases k, |s| + 1
  {
    if k > 0 {
      CountStarting(s, s, k);
      assert DrawsFrom(s, k) == StartingIn(s, s, k);
    }
  }

  /** The share of draws that miss b of C segments is at most ((C - b) / C)^k. */
  lemma {:induction false} MissBound(C: nat, b: nat, k: nat, off: nat)
    requires b <= C && off <= C
    ensures Falling(if b + off <= C then C - b - off else 0, k) * Power(C, k) <= Falling(C - off, k) * Power(C - b, k)
    decreases k
  {
    if k > 0 && b + off < C {
      MissBound(C, b, k - 1, off + 1);
      MissStep(C - b - off, C, C - off, C - b, off * b, Falling(C - b - off - 1, k - 1), Power(C, k - 1),
               Falling(C - off - 1, k - 1), Power(C - b, k - 1));
    }
  }

  lemma {:induction false} MissStep(a: nat, c: nat, d: nat, e: nat, slack: nat, m: nat, p: nat, n: nat, q: nat)
    requires d * e == a * c + slack && m * p <= n * q
    ensures (a * m) * (c * p) <= (d * n) * (e * q)
  {
    MulLe(a * c, d * e, m * p, n * q);
    Regroup(a, m, c, p);
    Regroup(d, n, e, q);
  }

  lemma {:induction false} Regroup(a: nat, m: nat, c: nat, p: nat)
    ensures (a * m) * (c * p) == (a * c) * (m * p)
  {
    assert (a * m) * (c * p) == a * (m * (c * p));
    assert m * (c * p) == c * (m * p);
    assert a * (c * (m * p)) == (a * c) * (m * p);
  }

  // ------------------------------------------------------------ detection

  /** The segments broken in at least one worker's committed list. */
  ghost function BrokenInLane(H: Hash, p: LaneParams, committed: seq<seq<Bytes>>): set<nat>
    requires p.checkpoints > 0
  {
    set w, j | 0 <= w < |committed| && j in Broken(H, p, w, committed[w]) :: j
  }

  /** Of the T draws of k out of C segments, those that miss all broken ones number N with N C^k <= T (C - b)^k. */
  ghost predicate FewMiss(C: nat, k: nat, broken: set<nat>) {
    && broken <= Below(C) && |broken| <= C
    && |DrawsFrom(Below(C) - broken, k)| * Power(C, k) <= |DrawsFrom(Below(C), k)| * Power(C - |broken|, k)
  }

  /**
   Detection. Let b segments be broken in some worker's committed list. If the proof is accepted
   without a collision, then segment 0 is not one of them, and the k = min(K, C) segments drawn are
   one of N draws out of T where N * C^k <= T * (C - b)^k.
   */
  lemma {:induction false} Detected(H: Hash, p: LaneParams, workers: nat, challengeId: Digest, proofs: seq<WorkerProof>,
                 committed: seq<seq<Bytes>>)
    requires Clean(H, p, workers, challengeId, proofs, committed)
    ensures var broken := BrokenInLane(H, p, committed);
      && 0 !in broken
      && Sample(H, LaneTranscript(H, p, challengeId, proofs), p.samples, p.checkpoints)
         in DrawsFrom(Below(p.checkpoints) - broken, Min(p.samples, p.checkpoints))
      && FewMiss(p.checkpoints, Min(p.samples, p.checkpoints), broken)
  {
    BrokenUnopened(H, p, workers, challengeId, proofs, committed);
    DrawnMisses(H, LaneTranscript(H, p, challengeId, proofs), p.samples, p.checkpoints, BrokenInLane(H, p, committed));
    CountedMiss(p.checkpoints, Min(p.samples, p.checkpoints), BrokenInLane(H, p, committed));
  }

  lemma {:induction false} BrokenUnopened(H: Hash, p: LaneParams, workers: nat, challengeId: Digest,
                                          proofs: seq<WorkerProof>, committed: seq<seq<Bytes>>)
    requires Clean(H, p, workers, challengeId, proofs, committed)
    ensures BrokenInLane(H, p, committed) <= Below(p.checkpoints)
    ensures forall j :: j in BrokenInLane(H, p, committed) ==> j !in Required(H, p, challengeId, proofs)
  {
    forall j | j in BrokenInLane(H, p, committed)
      ensures j in Below(p.checkpoints) && j !in Required(H, p, challengeId, proofs)
    {
      var w :| 0 <= w < |committed| && j in Broken(H, p, w, committed[w]);
      BrokenNotRequired(H, p, workers, challengeId, proofs, committed, w, j);
    }
  }

  lemma {:induction false} DrawnMisses(H: Hash, h: Digest, K: nat, C: nat, broken: set<nat>)
    requires C > 0 && Samplable(H, h, K, C)
    requires forall j :: j in broken ==> j !in RequiredSegments(Sample(H, h, K, C))
    ensures 0 !in broken && Sample(H, h, K, C) in DrawsFrom(Below(C) - broken, Min(K, C))
  {
    var drawn := Sample(H, h, K, C);
    SampleShape(H, h, K, C);
    RequiredMeans(drawn);
    forall i | 0 <= i < |drawn| ensures drawn[i] in Below(C) - broken {
      assert drawn[i] in drawn && drawn[i] in RequiredSegments(drawn);
    }
    DrawsFromMeans(Below(C) - broken, Min(K, C), drawn);
  }

  /** The same bound for any set of segments and any number of draws. */
  lemma {:induction false} CountedMiss(C: nat, k: nat, broken: set<nat>)
    requires broken <= Below(C)
    ensures DrawsFrom(Below(C) - broken, k) <= DrawsFrom(Below(C), k)
    ensures FewMiss(C, k, broken)
  {
    forall d | d in DrawsFrom(Below(C) - broken, k) ensures d in DrawsFrom(Below(C), k) {
      DrawsFromMeans(Below(C) - broken, k, d);
      DrawsFromMeans(Below(C), k, d);
    }
    SubsetCount(broken, Below(C));
    assert |Below(C) - broken| == C - |broken|;
    CountDraws(Below(C) - broken, k);
    CountDraws(Below(C), k);
    MissBound(C, |broken|, k, 0);
  }
}
