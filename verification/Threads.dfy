/** The threaded prover: one thread per worker's chain, stepped in any order and then joined. */
module Threads {
  import opened Arith
  import opened Hashing
  import opened Merkle
  import opened Chain
  import opened Lane

  /** Where a thread stands in the two loops of compute_chain: checkpoint j, hash k of its segment. */
  datatype Thread = Thread(state: Digest, j: nat, k: nat, cps: seq<Digest>)

  function Spawn(H: Hash, p: LaneParams, w: nat): Thread {
    Thread(S0(H, p, w), 0, 0, [])
  }

  predicate Finished(p: LaneParams, t: Thread) { t.j >= p.checkpoints }

  /** One hash, or the push that ends a segment; a finished thread stays as it is. */
  function Step(H: Hash, p: LaneParams, t: Thread): Thread
    requires p.checkpoints > 0
  {
    if Finished(p, t) then t
    else if t.k < SegLen(p) then t.(state := H(t.state), k := t.k + 1)
    else t.(cps := t.cps + [t.state], j := t.j + 1, k := 0)
  }

  /** The scheduler picks a worker at every tick; names of no worker are idle ticks. */
  function Run(H: Hash, p: LaneParams, threads: seq<Thread>, schedule: seq<nat>): (r: seq<Thread>)
    requires p.checkpoints > 0
    ensures |r| == |threads|
    decreases |schedule|
  {
    if schedule == [] then threads
    else
      var before := Run(H, p, threads, schedule[..|schedule| - 1]);
      var w := schedule[|schedule| - 1];
      if w < |before| then before[w := Step(H, p, before[w])] else before
  }

  function SpawnAll(H: Hash, p: LaneParams, workers: nat): (r: seq<Thread>)
    ensures |r| == workers
  {
    seq(workers, w requires w >= 0 => Spawn(H, p, w))
  }

  /** How often a worker is scheduled. */
  function Turns(schedule: seq<nat>, w: nat): nat {
    if schedule == [] then 0
    else Turns(schedule[..|schedule| - 1], w) + if schedule[|schedule| - 1] == w then 1 else 0
  }

  /** What a thread has done when it stands at (j, k), whoever else ran in between. */
  ghost predicate OnTrack(H: Hash, p: LaneParams, w: nat, t: Thread, turns: nat)
    requires p.checkpoints > 0
  {
    && t.j <= p.checkpoints && t.k <= SegLen(p)
    && (t.j == p.checkpoints ==> t.k == 0)
    && t.state == Steps(H, S0(H, p, w), t.j * SegLen(p) + t.k)
    && t.cps == Checkpoints(H, p, w)[..t.j]
    && t.j * (SegLen(p) + 1) + t.k == Min(turns, p.checkpoints * (SegLen(p) + 1))
  }

  lemma {:induction false} StepOnTrack(H: Hash, p: LaneParams, w: nat, t: Thread, turns: nat)
    requires p.checkpoints > 0 && OnTrack(H, p, w, t, turns)
    ensures OnTrack(H, p, w, Step(H, p, t), turns + 1)
  {
    var s, c := SegLen(p), p.checkpoints;
    if !Finished(p, t) {
      assert (t.j + 1) * s == t.j * s + s;
      assert (t.j + 1) * (s + 1) == t.j * (s + 1) + s + 1;
      MulMono(t.j + 1, c, s + 1);
    }
  }

  lemma {:induction false} RunOnTrack(H: Hash, p: LaneParams, workers: nat, schedule: seq<nat>, w: nat)
    requires p.checkpoints > 0 && w < workers
    ensures OnTrack(H, p, w, Run(H, p, SpawnAll(H, p, workers), schedule)[w], Turns(schedule, w))
    decreases |schedule|
  {
    if schedule != [] {
      var earlier := schedule[..|schedule| - 1];
      RunOnTrack(H, p, workers, earlier, w);
      if schedule[|schedule| - 1] == w {
        StepOnTrack(H, p, w, Run(H, p, SpawnAll(H, p, workers), earlier)[w], Turns(earlier, w));
      }
    }
  }

  /** A thread is done exactly when it had its C * (L/C + 1) turns, however the others interleaved. */
  lemma {:induction false} FinishedIff(H: Hash, p: LaneParams, workers: nat, schedule: seq<nat>, w: nat)
    requires p.checkpoints > 0 && w < workers
    ensures Finished(p, Run(H, p, SpawnAll(H, p, workers), schedule)[w]) <==>
      Turns(schedule, w) >= p.checkpoints * (SegLen(p) + 1)
  {
    RunOnTrack(H, p, workers, schedule, w);
    var t := Run(H, p, SpawnAll(H, p, workers), schedule)[w];
    var s, c := SegLen(p), p.checkpoints;
    if t.j < c {
      MulMono(t.j + 1, c, s + 1);
      assert (t.j + 1) * (s + 1) == t.j * (s + 1) + s + 1;
    }
  }

  /** Joining: every interleaving that finishes a worker leaves it with its computed chain. */
  lemma {:induction false} JoinedChain(H: Hash, p: LaneParams, workers: nat, schedule: seq<nat>, w: nat)
    requires p.checkpoints > 0 && w < workers
    requires Finished(p, Run(H, p, SpawnAll(H, p, workers), schedule)[w])
    ensures Run(H, p, SpawnAll(H, p, workers), schedule)[w].cps == Checkpoints(H, p, w)
  {
    RunOnTrack(H, p, workers, schedule, w);
  }

  // ------------------------------------------------------------ after the join

  function JoinedRoots(H: Hash, joined: seq<Thread>): (roots: seq<Bytes>)
    requires forall w :: 0 <= w < |joined| ==> |joined[w].cps| > 0
  {
    seq(|joined|, w requires 0 <= w < |joined| => Root(H, Leaves(H, joined[w].cps)))
  }

  function JoinedOpening(H: Hash, p: LaneParams, w: nat, cps: seq<Digest>, j: nat): Opening
    requires j < |cps|
  {
    var leaves := Leaves(H, cps);
    Opening(j, if j == 0 then S0(H, p, w) else cps[j - 1], if j == 0 then None else Some(Path(H, leaves, j - 1)),
            cps[j], Path(H, leaves, j))
  }

  function JoinedWorker(H: Hash, p: LaneParams, w: nat, cps: seq<Digest>, indices: seq<nat>): WorkerProof
    requires |cps| > 0 && forall i :: 0 <= i < |indices| ==> indices[i] < |cps|
  {
    var leaves := Leaves(H, cps);
    WorkerProof(w, Root(H, leaves), cps[|cps| - 1], Path(H, leaves, |cps| - 1),
                seq(|indices|, i requires 0 <= i < |indices| => JoinedOpening(H, p, w, cps, indices[i])))
  }

  lemma {:induction false} JoinedIsHonest(H: Hash, p: LaneParams, w: nat, indices: seq<nat>)
    requires p.checkpoints > 0 && forall i :: 0 <= i < |indices| ==> indices[i] < p.checkpoints
    ensures JoinedWorker(H, p, w, Checkpoints(H, p, w), indices) == HonestWorker(H, p, w, indices)
  {
    var cps := Checkpoints(H, p, w);
    forall i | 0 <= i < |indices|
      ensures JoinedOpening(H, p, w, cps, indices[i]) == HonestOpening(H, p, w, indices[i])
    {
      assert State(H, p, w, 0) == S0(H, p, w);
    }
  }

  /**
   The threaded prover builds the reference prover's proof: for every schedule that runs all
   threads to the end, the joined chains give the same roots, segments and worker proofs.
   */
  lemma {:induction false} SameProof(H: Hash, p: LaneParams, workers: nat, challengeId: Digest, schedule: seq<nat>)
    requires p.checkpoints > 0 && HonestDrawable(H, p, workers, challengeId)
    requires forall w :: 0 <= w < workers ==> Turns(schedule, w) >= p.checkpoints * (SegLen(p) + 1)
    ensures var joined := Run(H, p, SpawnAll(H, p, workers), schedule);
      var indices := HonestRequired(H, p, workers, challengeId);
      && (forall w :: 0 <= w < workers ==> joined[w].cps == Checkpoints(H, p, w))
      && JoinedRoots(H, joined) == HonestRoots(H, p, workers)
      && forall w :: 0 <= w < workers ==>
           JoinedWorker(H, p, w, joined[w].cps, indices) == HonestLane(H, p, workers, challengeId)[w]
  {
    var joined := Run(H, p, SpawnAll(H, p, workers), schedule);
    forall w | 0 <= w < workers ensures joined[w].cps == Checkpoints(H, p, w) {
      FinishedIff(H, p, workers, schedule, w);
      JoinedChain(H, p, workers, schedule, w);
    }
    forall w | 0 <= w < workers
      ensures JoinedWorker(H, p, w, joined[w].cps, HonestRequired(H, p, workers, challengeId)) ==
        HonestLane(H, p, workers, challengeId)[w]
    {
      JoinedIsHonest(H, p, w, HonestRequired(H, p, workers, challengeId));
    }
  }
}
