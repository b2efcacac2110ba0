/**
 The benchmark handlers with their awaits: a load, the computation on the loaded state and the
 store are separate steps, and any number of requests is in flight at once. What is proved of an
 attestation holds whatever the interleaving.
 */
module AttestInterleaved {
  import opened Hashing
  import opened Chain
  import opened Lane
  import opened KeyLifetime
  import opened AttestState

  /** A request between two of its awaits. */
  datatype Flight =
    | StartLoaded(lane: nat, loaded: BenchState)
    | Received(submitLane: nat, sub: Submission, receivedAt: int, known: set<Nonce>)
    | SubmitLoaded(submitLane: nat, sub: Submission, receivedAt: int, known: set<Nonce>, loaded: BenchState)
    | Storing(next: BenchState, px: int)
    | Dropping
    | Closing(final: BenchState, attestation: Attestation)

  /** An accepted verification. */
  datatype Verified = Verified(challengeId: Digest, lane: nat, nonce: Nonce, issuedAt: int, receivedAt: int,
                               proofs: seq<WorkerProof>)

  /** An issued attestation and the state it was closed from. */
  datatype Issued = Issued(attestation: Attestation, final: BenchState)

  /** What happened so far: the clock, nonces and challenges with the instant of their creation, verifications. */
  datatype History = History(clock: int, nonces: map<Nonce, int>, openedAt: map<Digest, int>, log: set<Verified>)

  datatype System = System(
    h: History,
    store: map<Digest, Entry>,
    flights: map<nat, (Digest, Flight)>,
    issued: seq<Issued>)

  datatype Event =
    | Tick(to: int)
    | Open(id: nat, challengeId: Digest, providerId: Address, seed: Digest, coreCount: nat)
    | LoadStart(id: nat, challengeId: Digest, lane: nat)
    | ComputeStart(id: nat, nonce: Nonce)
    | Receive(id: nat, challengeId: Digest, lane: nat, sub: Submission)
    | LoadSubmit(id: nat)
    | ComputeSubmit(id: nat)
    | Store(id: nat)
    | Drop(id: nat)
    | Issue(id: nat)

  function Attestations(issued: seq<Issued>): (r: seq<Attestation>)
    ensures |r| == |issued| && forall k :: 0 <= k < |issued| ==> r[k] == issued[k].attestation
  {
    seq(|issued|, k requires 0 <= k < |issued| => issued[k].attestation)
  }

  /** The attestations table keeps one row of an attestation: its key is a hash of all of it. */
  function RecordIssued(issued: seq<Issued>, i: Issued): seq<Issued> {
    if i.attestation in Attestations(issued) then issued else issued + [i]
  }

  lemma {:induction false} RecordsAlike(issued: seq<Issued>, i: Issued)
    ensures Attestations(RecordIssued(issued, i)) == Record(Attestations(issued), i.attestation)
  {
  }

  predicate Live(s: System, challengeId: Digest) {
    challengeId in s.store && Unexpired(s.store[challengeId].expiresAt, s.h.clock)
  }

  function With(s: System, id: nat, challengeId: Digest, f: Flight): System {
    s.(flights := s.flights[id := (challengeId, f)])
  }

  function Without(s: System, id: nat): System {
    s.(flights := s.flights - {id})
  }

  /**
   When an event can happen. Request numbers, challenge ids and nonces are fresh when they are made
   up (random 32 and 16 bytes in the source), the clock does not run backwards, and a proof that
   verifies under a nonce was received after that nonce was drawn.
   */
  ghost predicate Enabled(H: Hash, c: Config, s: System, e: Event) {
    match e
    case Tick(to) => s.h.clock <= to
    case Open(id, challengeId, _, _, _) => id !in s.flights && challengeId !in s.h.openedAt
    case LoadStart(id, challengeId, _) => id !in s.flights
    case ComputeStart(id, nonce) => id in s.flights && s.flights[id].1.StartLoaded? && nonce !in s.h.nonces
    case Receive(id, _, _, _) => id !in s.flights
    case LoadSubmit(id) => id in s.flights && s.flights[id].1.Received?
    case ComputeSubmit(id) =>
      id in s.flights && s.flights[id].1.SubmitLoaded? && Causal(H, s.flights[id].0, s.flights[id].1)
    case Store(id) => id in s.flights && s.flights[id].1.Storing?
    case Drop(id) => id in s.flights && s.flights[id].1.Dropping?
    case Issue(id) => id in s.flights && s.flights[id].1.Closing?
  }

  /** The verdict of `verifyLane` on a loaded submission. */
  ghost predicate FlightAccepted(H: Hash, challengeId: Digest, f: Flight)
    requires f.SubmitLoaded?
  {
    && f.submitLane < |f.loaded.lanes| && f.loaded.checkpoints > 0
    && ProofAccepted(H, f.loaded, challengeId, f.submitLane, f.sub)
  }

  ghost predicate NonceKnown(f: Flight)
    requires f.SubmitLoaded?
  {
    f.submitLane < |f.loaded.lanes| && f.loaded.lanes[f.submitLane].nonce.Some? ==>
      f.loaded.lanes[f.submitLane].nonce.value in f.known
  }

  ghost predicate Causal(H: Hash, challengeId: Digest, f: Flight)
    requires f.SubmitLoaded?
  {
    FlightAccepted(H, challengeId, f) ==> NonceKnown(f)
  }

  ghost function Next(H: Hash, c: Config, s: System, e: Event): System
    requires Enabled(H, c, s, e)
  {
    match e
    case Tick(to) => s.(h := s.h.(clock := to))
    case Open(id, challengeId, providerId, seed, coreCount) =>
      var begun := s.(h := s.h.(openedAt := s.h.openedAt[challengeId := s.h.clock]));
      With(begun, id, challengeId, Storing(NewState(c, providerId, seed, coreCount, s.h.clock), c.challengeTtlMs))
    case LoadStart(id, challengeId, lane) =>
      if Live(s, challengeId) then With(s, id, challengeId, StartLoaded(lane, s.store[challengeId].state)) else s
    case ComputeStart(id, nonce) => Land(s, id, StartEffect(s.h, s.flights[id].1, nonce))
    case Receive(id, challengeId, lane, sub) =>
      With(s, id, challengeId, Received(lane, sub, s.h.clock, s.h.nonces.Keys))
    case LoadSubmit(id) =>
      var (challengeId, f) := s.flights[id];
      if Live(s, challengeId) then
        With(s, id, challengeId, SubmitLoaded(f.submitLane, f.sub, f.receivedAt, f.known, s.store[challengeId].state))
      else Without(s, id)
    case ComputeSubmit(id) =>
      var (challengeId, f) := s.flights[id];
      Land(s, id, SubmitEffect(c, s.h, challengeId, f, FlightAccepted(H, challengeId, f)))
    case Store(id) =>
      var (challengeId, f) := s.flights[id];
      Without(s.(store := s.store[challengeId := Entry(f.next, s.h.clock + AtLeast1(f.px))]), id)
    case Drop(id) =>
      Without(s.(store := s.store - {s.flights[id].0}), id)
    case Issue(id) =>
      var (challengeId, f) := s.flights[id];
      With(s.(issued := RecordIssued(s.issued, Issued(f.attestation, f.final))), id, challengeId, Dropping)
  }

  /** A computation's effect: the history with what was drawn or verified, and what the request does next. */
  datatype Effect = Effect(h: History, follow: Option<Flight>)

  function Land(s: System, id: nat, e: Effect): System
    requires id in s.flights
  {
    if e.follow.None? then Without(s.(h := e.h), id) else With(s.(h := e.h), id, s.flights[id].0, e.follow.value)
  }

  function StartEffect(h: History, f: Flight, nonce: Nonce): Effect
    requires f.StartLoaded?
  {
    if |f.loaded.lanes| != LANES then Effect(h, None)
    else
      var r := StartOn(f.loaded, f.lane, h.clock, nonce);
      if r.0.None? then Effect(h, None)
      else Effect(h.(nonces := h.nonces[nonce := h.clock]), Some(Storing(r.0.value, f.loaded.deadlineMs - h.clock)))
  }

  function SubmitEffect(c: Config, h: History, challengeId: Digest, f: Flight, accepted: bool): Effect
    requires f.SubmitLoaded?
  {
    if |f.loaded.lanes| != LANES then Effect(h, None)
    else OutcomeEffect(h, challengeId, f, Decide(c, f.loaded, challengeId, f.submitLane, f.sub, f.receivedAt, accepted))
  }

  function OutcomeEffect(h: History, challengeId: Digest, f: Flight, outcome: Outcome): Effect
    requires f.SubmitLoaded?
  {
    match outcome
    case Refused(_) => Effect(h, None)
    case Dropped => Effect(h, Some(Dropping))
    case Progress(next) =>
      Effect(Logged(h, challengeId, f), Some(Storing(next, f.loaded.deadlineMs - f.receivedAt)))
    case Closed(final, attestation) =>
      Effect(Logged(h, challengeId, f), Some(Closing(final, attestation)))
  }

  function Verification(challengeId: Digest, f: Flight): Verified
    requires f.SubmitLoaded? && f.submitLane < |f.loaded.lanes|
  {
    var lane := f.loaded.lanes[f.submitLane];
    Verified(challengeId, f.submitLane, Or(lane.nonce, seq(16, _ => 0)), Or(lane.issuedAt, 0), f.receivedAt,
      f.sub.proofs)
  }

  function Logged(h: History, challengeId: Digest, f: Flight): History
    requires f.SubmitLoaded?
  {
    if f.submitLane < |f.loaded.lanes| then h.(log := h.log + {Verification(challengeId, f)}) else h
  }

  function Start(clock: int): System {
    System(History(clock, map[], map[], {}), map[], map[], [])
  }

  /** A run: events enabled one after the other from the empty service. */
  ghost predicate IsRun(H: Hash, c: Config, clock: int, events: seq<Event>)
    decreases |events|, 0
  {
    events == [] ||
    var n := |events| - 1;
    IsRun(H, c, clock, events[..n]) && Enabled(H, c, After(H, c, clock, events[..n]), events[n])
  }

  ghost function After(H: Hash, c: Config, clock: int, events: seq<Event>): System
    requires IsRun(H, c, clock, events)
    decreases |events|, 1
  {
    if events == [] then Start(clock)
    else
      var n := |events| - 1;
      Next(H, c, After(H, c, clock, events[..n]), events[n])
  }

  // ------------------------------------------------------------ what every copy of a state satisfies

  /** A lane's instants and nonce agree with the history; a done lane has its accepted verification. */
  ghost predicate LaneBacked(H: Hash, h: History, challengeId: Digest, s: BenchState, l: nat)
    requires l < |s.lanes| && s.checkpoints > 0
  {
    var lane := s.lanes[l];
    lane.status != Pending ==>
      && lane.nonce.Some? && lane.issuedAt.Some?
      && lane.nonce.value in h.nonces && h.nonces[lane.nonce.value] == lane.issuedAt.value <= h.clock
      && (lane.status == Done ==> lane.elapsedMs.Some? && DoneBacked(H, h, challengeId, s, l))
  }

  ghost predicate DoneBacked(H: Hash, h: History, challengeId: Digest, s: BenchState, l: nat)
    requires l < |s.lanes| && s.checkpoints > 0
    requires s.lanes[l].nonce.Some? && s.lanes[l].issuedAt.Some? && s.lanes[l].elapsedMs.Some?
  {
    var lane := s.lanes[l];
    exists v :: v in h.log
      && v.challengeId == challengeId && v.lane == l && v.nonce == lane.nonce.value
      && v.issuedAt == lane.issuedAt.value && v.receivedAt == lane.issuedAt.value + lane.elapsedMs.value
      && v.issuedAt <= v.receivedAt <= s.deadlineMs && v.receivedAt <= h.clock
      && LaneAccepts(H, ParamsOf(s, l), lane.workers, challengeId, v.proofs)
  }

  /** Lanes follow each other in time, the first after the challenge was opened, each under its own nonce. */
  ghost predicate Ordered(h: History, challengeId: Digest, s: BenchState) {
    && (forall l :: 0 <= l < |s.lanes| && s.lanes[l].status != Pending ==>
          s.lanes[l].nonce.Some? && s.lanes[l].issuedAt.Some?
            && (s.lanes[l].status == Done ==> s.lanes[l].elapsedMs.Some?))
    && challengeId in h.openedAt && h.openedAt[challengeId] <= h.clock
    && (|s.lanes| > 0 && s.lanes[0].status != Pending ==> h.openedAt[challengeId] <= s.lanes[0].issuedAt.value)
    && (forall l :: 0 < l < |s.lanes| && s.lanes[l].status != Pending && s.lanes[l - 1].status == Done ==>
          s.lanes[l - 1].issuedAt.value + s.lanes[l - 1].elapsedMs.value <= s.lanes[l].issuedAt.value)
    && (forall k, l :: 0 <= k < l < |s.lanes| && s.lanes[k].status != Pending && s.lanes[l].status != Pending ==>
          s.lanes[k].nonce != s.lanes[l].nonce)
  }

  ghost predicate Good(H: Hash, c: Config, h: History, challengeId: Digest, s: BenchState) {
    && Shape(c, s) && s.checkpoints > 0
    && Ordered(h, challengeId, s)
    && s.deadlineMs == h.openedAt[challengeId] + c.challengeTtlMs
    && forall l :: 0 <= l < LANES ==> LaneBacked(H, h, challengeId, s, l)
  }

  /** A submission knows only nonces drawn before it was received. */
  ghost predicate KnowsPast(h: History, receivedAt: int, known: set<Nonce>) {
    receivedAt <= h.clock && forall n :: n in known ==> n in h.nonces && h.nonces[n] <= receivedAt
  }

  ghost predicate FlightGood(H: Hash, c: Config, h: History, challengeId: Digest, f: Flight) {
    match f
    case StartLoaded(_, loaded) => Good(H, c, h, challengeId, loaded)
    case Received(_, _, receivedAt, known) => KnowsPast(h, receivedAt, known)
    case SubmitLoaded(_, _, receivedAt, known, loaded) =>
      Good(H, c, h, challengeId, loaded) && KnowsPast(h, receivedAt, known)
    case Storing(next, _) => Good(H, c, h, challengeId, next)
    case Dropping => true
    case Closing(final, attestation) =>
      IssuedGood(H, c, h, Issued(attestation, final)) && attestation.challengeId == challengeId
  }

  ghost predicate IssuedGood(H: Hash, c: Config, h: History, i: Issued) {
    && Good(H, c, h, i.attestation.challengeId, i.final)
    && AllDone(i.final)
    && i.attestation == Attest(c, i.final, i.attestation.challengeId, i.attestation.measuredAt)
    && i.attestation.measuredAt == i.final.lanes[LANES - 1].issuedAt.value + i.final.lanes[LANES - 1].elapsedMs.value
  }

  ghost predicate PastNonces(h: History) {
    forall n :: n in h.nonces ==> h.nonces[n] <= h.clock
  }

  ghost predicate Invariant(H: Hash, c: Config, s: System) {
    && PastNonces(s.h)
    && (forall id :: id in s.store ==> Good(H, c, s.h, id, s.store[id].state))
    && (forall id :: id in s.flights ==> FlightGood(H, c, s.h, s.flights[id].0, s.flights[id].1))
    && (forall k :: 0 <= k < |s.issued| ==> IssuedGood(H, c, s.h, s.issued[k]))
  }

  // ------------------------------------------------------------ history only grows

  ghost predicate Grows(h: History, g: History) {
    && h.clock <= g.clock
    && h.log <= g.log
    && (forall n :: n in h.nonces ==> n in g.nonces && g.nonces[n] == h.nonces[n])
    && (forall id :: id in h.openedAt ==> id in g.openedAt && g.openedAt[id] == h.openedAt[id])
  }

  lemma {:induction false} LaneBackedGrows(H: Hash, h: History, g: History, challengeId: Digest, s: BenchState, l: nat)
    requires Grows(h, g) && l < |s.lanes| && s.checkpoints > 0 && LaneBacked(H, h, challengeId, s, l)
    ensures LaneBacked(H, g, challengeId, s, l)
  {
  }

  lemma {:induction false} GoodGrows(H: Hash, c: Config, h: History, g: History, challengeId: Digest, s: BenchState)
    requires Grows(h, g) && Good(H, c, h, challengeId, s)
    ensures Good(H, c, g, challengeId, s)
  {
    forall l | 0 <= l < LANES ensures LaneBacked(H, g, challengeId, s, l) {
      LaneBackedGrows(H, h, g, challengeId, s, l);
    }
  }

  lemma {:induction false} FlightGrows(H: Hash, c: Config, h: History, g: History, challengeId: Digest, f: Flight)
    requires Grows(h, g) && FlightGood(H, c, h, challengeId, f)
    ensures FlightGood(H, c, g, challengeId, f)
  {
    match f
    case StartLoaded(_, loaded) => GoodGrows(H, c, h, g, challengeId, loaded);
    case Received(_, _, _, _) =>
    case SubmitLoaded(_, _, _, _, loaded) => GoodGrows(H, c, h, g, challengeId, loaded);
    case Storing(next, _) => GoodGrows(H, c, h, g, challengeId, next);
    case Dropping =>
    case Closing(final, _) => GoodGrows(H, c, h, g, challengeId, final);
  }

  lemma {:induction false} InvariantGrows(H: Hash, c: Config, s: System, g: History)
    requires Invariant(H, c, s) && Grows(s.h, g) && PastNonces(g)
    ensures Invariant(H, c, s.(h := g))
  {
    forall id | id in s.store ensures Good(H, c, g, id, s.store[id].state) {
      GoodGrows(H, c, s.h, g, id, s.store[id].state);
    }
    forall id | id in s.flights ensures FlightGood(H, c, g, s.flights[id].0, s.flights[id].1) {
      FlightGrows(H, c, s.h, g, s.flights[id].0, s.flights[id].1);
    }
    forall k | 0 <= k < |s.issued| ensures IssuedGood(H, c, g, s.issued[k]) {
      GoodGrows(H, c, s.h, g, s.issued[k].attestation.challengeId, s.issued[k].final);
    }
  }

  lemma {:induction false} WithoutKeeps(H: Hash, c: Config, s: System, id: nat)
    requires Invariant(H, c, s)
    ensures Invariant(H, c, Without(s, id))
  {
  }

  lemma {:induction false} WithKeeps(H: Hash, c: Config, s: System, id: nat, challengeId: Digest, f: Flight)
    requires Invariant(H, c, s) && FlightGood(H, c, s.h, challengeId, f)
    ensures Invariant(H, c, With(s, id, challengeId, f))
  {
  }

  // ------------------------------------------------------------ the two computations keep states good

  lemma {:induction false} NewGood(H: Hash, c: Config, h: History, challengeId: Digest, providerId: Address,
                                   seed: Digest, coreCount: nat)
    requires c.checkpoints > 0 && challengeId in h.openedAt && h.openedAt[challengeId] == h.clock
    ensures Good(H, c, h, challengeId, NewState(c, providerId, seed, coreCount, h.clock))
  {
    NewShape(c, providerId, seed, coreCount, h.clock);
  }

  lemma {:induction false} StartGood(H: Hash, c: Config, h: History, challengeId: Digest, s: BenchState, lane: nat,
                                     nonce: Nonce)
    requires Good(H, c, h, challengeId, s) && nonce !in h.nonces
    requires StartOn(s, lane, h.clock, nonce).0.Some?
    ensures Good(H, c, h.(nonces := h.nonces[nonce := h.clock]), challengeId, StartOn(s, lane, h.clock, nonce).0.value)
  {
    var g := h.(nonces := h.nonces[nonce := h.clock]);
    var next := StartOn(s, lane, h.clock, nonce).0.value;
    StartKeepsShape(c, s, lane, h.clock, nonce);
    GoodGrows(H, c, h, g, challengeId, s);
    forall l | 0 <= l < LANES ensures LaneBacked(H, g, challengeId, next, l) {
      assert LaneBacked(H, g, challengeId, s, l);
      if l != lane && s.lanes[l].status == Done {
        DoneTransfers(H, g, g, challengeId, s, next, l);
      }
    }
    StartOrdered(H, c, h, challengeId, s, lane, nonce);
  }

  lemma {:induction false} StartOrdered(H: Hash, c: Config, h: History, challengeId: Digest, s: BenchState, lane: nat,
                                        nonce: Nonce)
    requires Good(H, c, h, challengeId, s) && nonce !in h.nonces
    requires StartOn(s, lane, h.clock, nonce).0.Some?
    ensures Ordered(h.(nonces := h.nonces[nonce := h.clock]), challengeId, StartOn(s, lane, h.clock, nonce).0.value)
  {
    var next := StartOn(s, lane, h.clock, nonce).0.value;
    forall l | 0 <= l < LANES && s.lanes[l].status != Pending
      ensures s.lanes[l].nonce.Some? && s.lanes[l].nonce != Some(nonce)
      ensures s.lanes[l].status == Done ==> s.lanes[l].issuedAt.value + s.lanes[l].elapsedMs.value <= h.clock
    {
      assert LaneBacked(H, h, challengeId, s, l);
    }
  }

  /** A done lane's backing speaks only of that lane and of what identifies the challenge. */
  lemma {:induction false} DoneTransfers(H: Hash, h: History, g: History, challengeId: Digest, s: BenchState,
                                         t: BenchState, l: nat)
    requires Grows(h, g) && l < |s.lanes| == |t.lanes| && s.checkpoints > 0
    requires t == s.(lanes := t.lanes) && t.lanes[l] == s.lanes[l]
    requires s.lanes[l].nonce.Some? && s.lanes[l].issuedAt.Some? && s.lanes[l].elapsedMs.Some?
    requires DoneBacked(H, h, challengeId, s, l)
    ensures DoneBacked(H, g, challengeId, t, l)
  {
    assert ParamsOf(s, l) == ParamsOf(t, l);
  }

  lemma {:induction false} FinishGood(H: Hash, c: Config, h: History, challengeId: Digest, f: Flight)
    requires f.SubmitLoaded? && FlightGood(H, c, h, challengeId, f)
    requires Refusal(f.loaded, challengeId, f.submitLane, f.sub, f.receivedAt).None?
    requires FlightAccepted(H, challengeId, f) && NonceKnown(f)
    requires Elapsed(f.loaded, f.submitLane, f.receivedAt) <= c.maxLaneMs
    ensures Good(H, c, h.(log := h.log + {Verification(challengeId, f)}), challengeId,
                 Finish(f.loaded, f.submitLane, Elapsed(f.loaded, f.submitLane, f.receivedAt)))
  {
    var s, lane := f.loaded, f.submitLane;
    var v := Verification(challengeId, f);
    var g := h.(log := h.log + {v});
    var elapsedMs := Elapsed(s, lane, f.receivedAt);
    var next := Finish(s, lane, elapsedMs);
    FinishKeepsShape(c, s, lane, elapsedMs);
    GoodGrows(H, c, h, g, challengeId, s);
    FinishBacked(H, c, h, challengeId, f);
    assert forall l :: lane < l < LANES && s.lanes[l].status != Pending ==> s.lanes[lane].status == Done;
  }

  lemma {:induction false} FinishBacked(H: Hash, c: Config, h: History, challengeId: Digest, f: Flight)
    requires f.SubmitLoaded? && FlightGood(H, c, h, challengeId, f)
    requires Refusal(f.loaded, challengeId, f.submitLane, f.sub, f.receivedAt).None?
    requires FlightAccepted(H, challengeId, f) && NonceKnown(f)
    ensures forall l :: 0 <= l < LANES ==>
      LaneBacked(H, h.(log := h.log + {Verification(challengeId, f)}), challengeId,
                 Finish(f.loaded, f.submitLane, Elapsed(f.loaded, f.submitLane, f.receivedAt)), l)
  {
    var s, lane := f.loaded, f.submitLane;
    var v := Verification(challengeId, f);
    var g := h.(log := h.log + {v});
    var next := Finish(s, lane, Elapsed(s, lane, f.receivedAt));
    forall l | 0 <= l < LANES ensures LaneBacked(H, g, challengeId, next, l) {
      assert LaneBacked(H, h, challengeId, s, l);
      if l == lane {
        assert ParamsOf(s, l) == ParamsOf(next, l);
        assert v in g.log;
      } else if s.lanes[l].status == Done {
        DoneTransfers(H, h, g, challengeId, s, next, l);
      }
    }
  }

  // ------------------------------------------------------------ every step keeps the invariant

  ghost predicate EffectGood(H: Hash, c: Config, h: History, challengeId: Digest, e: Effect) {
    && Grows(h, e.h) && PastNonces(e.h)
    && (e.follow.Some? ==> FlightGood(H, c, e.h, challengeId, e.follow.value))
  }

  lemma {:induction false} LandKeeps(H: Hash, c: Config, s: System, id: nat, e: Effect)
    requires Invariant(H, c, s) && id in s.flights && EffectGood(H, c, s.h, s.flights[id].0, e)
    ensures Invariant(H, c, Land(s, id, e))
  {
    InvariantGrows(H, c, s, e.h);
    if e.follow.Some? {
      WithKeeps(H, c, s.(h := e.h), id, s.flights[id].0, e.follow.value);
    } else {
      WithoutKeeps(H, c, s.(h := e.h), id);
    }
  }

  lemma {:induction false} StartEffectGood(H: Hash, c: Config, h: History, challengeId: Digest, f: Flight, nonce: Nonce)
    requires PastNonces(h) && f.StartLoaded? && FlightGood(H, c, h, challengeId, f) && nonce !in h.nonces
    ensures EffectGood(H, c, h, challengeId, StartEffect(h, f, nonce))
  {
    if StartOn(f.loaded, f.lane, h.clock, nonce).0.Some? {
      StartGood(H, c, h, challengeId, f.loaded, f.lane, nonce);
    }
  }

  lemma {:induction false} CloseGood(H: Hash, c: Config, h: History, challengeId: Digest, s: BenchState, lane: nat,
                                     receivedAt: int)
    requires lane < |s.lanes| && |s.lanes| == LANES && s.lanes[lane].status == Started && s.lanes[lane].issuedAt.Some?
    requires Shape(c, s)
    requires var next := Finish(s, lane, Elapsed(s, lane, receivedAt));
      Good(H, c, h, challengeId, next) && AllDone(next)
    ensures var next := Finish(s, lane, Elapsed(s, lane, receivedAt));
      IssuedGood(H, c, h, Issued(Attest(c, next, challengeId, receivedAt), next))
  {
    assert Finish(s, lane, Elapsed(s, lane, receivedAt)).lanes[LANES - 1].status == Done;
    assert lane == LANES - 1;
  }

  /** An accepted submission yields a good state to store, or a good state to attest from. */
  lemma {:induction false} SubmitGood(H: Hash, c: Config, h: History, challengeId: Digest, f: Flight)
    requires f.SubmitLoaded? && FlightGood(H, c, h, challengeId, f)
    requires FlightAccepted(H, challengeId, f) && NonceKnown(f)
    ensures var outcome := Decide(c, f.loaded, challengeId, f.submitLane, f.sub, f.receivedAt, true);
      outcome.Progress? || outcome.Closed? ==>
        var g := h.(log := h.log + {Verification(challengeId, f)});
        && (outcome.Progress? ==> Good(H, c, g, challengeId, outcome.state))
        && (outcome.Closed? ==> FlightGood(H, c, g, challengeId, Closing(outcome.final, outcome.attestation)))
  {
    var outcome := Decide(c, f.loaded, challengeId, f.submitLane, f.sub, f.receivedAt, true);
    if outcome.Progress? || outcome.Closed? {
      FinishGood(H, c, h, challengeId, f);
      if outcome.Closed? {
        var g := h.(log := h.log + {Verification(challengeId, f)});
        CloseGood(H, c, g, challengeId, f.loaded, f.submitLane, f.receivedAt);
      }
    }
  }

  lemma {:induction false} OutcomeEffectGood(H: Hash, c: Config, h: History, challengeId: Digest, f: Flight,
                                             outcome: Outcome)
    requires PastNonces(h) && f.SubmitLoaded?
    requires outcome.Progress? ==> Good(H, c, Logged(h, challengeId, f), challengeId, outcome.state)
    requires outcome.Closed? ==>
      FlightGood(H, c, Logged(h, challengeId, f), challengeId, Closing(outcome.final, outcome.attestation))
    ensures EffectGood(H, c, h, challengeId, OutcomeEffect(h, challengeId, f, outcome))
  {
  }

  lemma {:induction false} SubmitEffectGood(H: Hash, c: Config, h: History, challengeId: Digest, f: Flight,
                                            accepted: bool)
    requires PastNonces(h) && f.SubmitLoaded? && FlightGood(H, c, h, challengeId, f)
    requires accepted ==> FlightAccepted(H, challengeId, f) && NonceKnown(f)
    ensures EffectGood(H, c, h, challengeId, SubmitEffect(c, h, challengeId, f, accepted))
  {
    if accepted {
      SubmitGood(H, c, h, challengeId, f);
    }
    OutcomeEffectGood(H, c, h, challengeId, f,
                      Decide(c, f.loaded, challengeId, f.submitLane, f.sub, f.receivedAt, accepted));
  }

  lemma {:induction false} OpenKeeps(H: Hash, c: Config, s: System, e: Event)
    requires c.checkpoints > 0 && Invariant(H, c, s) && e.Open? && Enabled(H, c, s, e)
    ensures Invariant(H, c, Next(H, c, s, e))
  {
    var g := s.h.(openedAt := s.h.openedAt[e.challengeId := s.h.clock]);
    InvariantGrows(H, c, s, g);
    NewGood(H, c, g, e.challengeId, e.providerId, e.seed, e.coreCount);
    WithKeeps(H, c, s.(h := g), e.id, e.challengeId,
              Storing(NewState(c, e.providerId, e.seed, e.coreCount, s.h.clock), c.challengeTtlMs));
  }

  lemma {:induction false} StoreKeeps(H: Hash, c: Config, s: System, id: nat)
    requires Invariant(H, c, s) && id in s.flights && s.flights[id].1.Storing?
    ensures Invariant(H, c, Next(H, c, s, Store(id)))
  {
    assert FlightGood(H, c, s.h, s.flights[id].0, s.flights[id].1);
  }

  lemma {:induction false} LoadSubmitKeeps(H: Hash, c: Config, s: System, id: nat)
    requires Invariant(H, c, s) && id in s.flights && s.flights[id].1.Received?
    ensures Invariant(H, c, Next(H, c, s, LoadSubmit(id)))
  {
    var (challengeId, f) := s.flights[id];
    assert FlightGood(H, c, s.h, challengeId, f);
    if Live(s, challengeId) {
      WithKeeps(H, c, s, id, challengeId,
                SubmitLoaded(f.submitLane, f.sub, f.receivedAt, f.known, s.store[challengeId].state));
    }
  }

  lemma {:induction false} ReceiveKeeps(H: Hash, c: Config, s: System, e: Event)
    requires Invariant(H, c, s) && e.Receive? && Enabled(H, c, s, e)
    ensures Invariant(H, c, Next(H, c, s, e))
  {
    WithKeeps(H, c, s, e.id, e.challengeId, Received(e.lane, e.sub, s.h.clock, s.h.nonces.Keys));
  }

  lemma {:induction false} IssueKeeps(H: Hash, c: Config, s: System, id: nat)
    requires Invariant(H, c, s) && id in s.flights && s.flights[id].1.Closing?
    ensures Invariant(H, c, Next(H, c, s, Issue(id)))
  {
    assert FlightGood(H, c, s.h, s.flights[id].0, s.flights[id].1);
  }

  /** Every event keeps every stored, loaded and issued state good. */
  lemma {:induction false} StepKeeps(H: Hash, c: Config, s: System, e: Event)
    requires c.checkpoints > 0 && Invariant(H, c, s) && Enabled(H, c, s, e)
    ensures Invariant(H, c, Next(H, c, s, e))
  {
    match e
    case Tick(to) => InvariantGrows(H, c, s, s.h.(clock := to));
    case Open(_, _, _, _, _) => OpenKeeps(H, c, s, e);
    case LoadStart(id, challengeId, lane) =>
      if Live(s, challengeId) {
        WithKeeps(H, c, s, id, challengeId, StartLoaded(lane, s.store[challengeId].state));
      }
    case ComputeStart(id, nonce) =>
      StartEffectGood(H, c, s.h, s.flights[id].0, s.flights[id].1, nonce);
      LandKeeps(H, c, s, id, StartEffect(s.h, s.flights[id].1, nonce));
    case Receive(_, _, _, _) => ReceiveKeeps(H, c, s, e);
    case LoadSubmit(id) => LoadSubmitKeeps(H, c, s, id);
    case ComputeSubmit(id) =>
      var accepted := FlightAccepted(H, s.flights[id].0, s.flights[id].1);
      SubmitEffectGood(H, c, s.h, s.flights[id].0, s.flights[id].1, accepted);
      LandKeeps(H, c, s, id, SubmitEffect(c, s.h, s.flights[id].0, s.flights[id].1, accepted));
    case Store(id) => StoreKeeps(H, c, s, id);
    case Drop(id) =>
    case Issue(id) => IssueKeeps(H, c, s, id);
  }

  lemma {:induction false} RunKeeps(H: Hash, c: Config, clock: int, events: seq<Event>)
    requires c.checkpoints > 0 && IsRun(H, c, clock, events)
    ensures Invariant(H, c, After(H, c, clock, events))
    decreases |events|
  {
    if events != [] {
      var n := |events| - 1;
      RunKeeps(H, c, clock, events[..n]);
      StepKeeps(H, c, After(H, c, clock, events[..n]), events[n]);
    }
  }

  // ------------------------------------------------------------ the theorems

  /** Every state stored in any run is well formed. */
  lemma {:induction false} StoredStatesWellFormed(H: Hash, c: Config, clock: int, events: seq<Event>,
                                                  challengeId: Digest)
    requires c.checkpoints > 0 && IsRun(H, c, clock, events)
    requires challengeId in After(H, c, clock, events).store
    ensures Shape(c, After(H, c, clock, events).store[challengeId].state)
  {
    RunKeeps(H, c, clock, events);
    assert Good(H, c, After(H, c, clock, events).h, challengeId, After(H, c, clock, events).store[challengeId].state);
  }

  /** The challenge states a request in flight holds. */
  function StatesOf(f: Flight): set<BenchState> {
    match f
    case StartLoaded(_, loaded) => {loaded}
    case SubmitLoaded(_, _, _, _, loaded) => {loaded}
    case Storing(next, _) => {next}
    case Closing(final, _) => {final}
    case _ => {}
  }

  /** So is every state a request in flight has loaded or is about to store. */
  lemma {:induction false} FlyingStatesWellFormed(H: Hash, c: Config, clock: int, events: seq<Event>, id: nat,
                                                  st: BenchState)
    requires c.checkpoints > 0 && IsRun(H, c, clock, events)
    requires id in After(H, c, clock, events).flights && st in StatesOf(After(H, c, clock, events).flights[id].1)
    ensures Shape(c, st)
  {
    RunKeeps(H, c, clock, events);
    var s := After(H, c, clock, events);
    assert FlightGood(H, c, s.h, s.flights[id].0, s.flights[id].1);
  }

  /** When a lane of a closed state was started and when its proof was received. */
  function IssuedAt(s: BenchState, l: nat): int
    requires l < |s.lanes|
  {
    Or(s.lanes[l].issuedAt, 0)
  }

  function ReceivedAt(s: BenchState, l: nat): int
    requires l < |s.lanes|
  {
    IssuedAt(s, l) + Or(s.lanes[l].elapsedMs, 0)
  }

  /** Lane l of the attestation's final state has an accepted verification under the nonce issued for it. */
  ghost predicate LaneProved(H: Hash, h: History, i: Issued, l: nat)
    requires l < |i.final.lanes| && i.final.checkpoints > 0
  {
    exists v :: v in h.log
      && v.challengeId == i.attestation.challengeId && v.lane == l && Some(v.nonce) == i.final.lanes[l].nonce
      && v.issuedAt == IssuedAt(i.final, l) && v.receivedAt == ReceivedAt(i.final, l)
      && v.nonce in h.nonces && h.nonces[v.nonce] == v.issuedAt
      && LaneAccepts(H, ParamsOf(i.final, l), LaneWorkers(i.attestation.coreCount, l), v.challengeId, v.proofs)
  }

  /**
   Every attestation issued, under any interleaving, rests on four accepted verifications, each under
   its own lane's nonce; the lanes' [issued, received] intervals lie one after the other between the
   opening of the challenge and its deadline, so the elapsed times add up to at most its lifetime.
   */
  lemma {:induction false} AttestationBacked(H: Hash, c: Config, clock: int, events: seq<Event>, k: nat)
    requires c.checkpoints > 0 && IsRun(H, c, clock, events)
    requires k < |After(H, c, clock, events).issued|
    ensures var s := After(H, c, clock, events);
      var i := s.issued[k];
      var f := i.final;
      && |f.lanes| == LANES && f.checkpoints > 0
      && i.attestation.challengeId in s.h.openedAt
      && var openedAt := s.h.openedAt[i.attestation.challengeId];
         && (forall l :: 0 <= l < LANES ==> LaneProved(H, s.h, i, l))
         && openedAt <= IssuedAt(f, 0) <= ReceivedAt(f, 0) <= IssuedAt(f, 1) <= ReceivedAt(f, 1)
         && ReceivedAt(f, 1) <= IssuedAt(f, 2) <= ReceivedAt(f, 2) <= IssuedAt(f, 3)
         && IssuedAt(f, 3) <= ReceivedAt(f, 3) == i.attestation.measuredAt <= openedAt + c.challengeTtlMs
         && (forall a, b :: 0 <= a < b < LANES ==> f.lanes[a].nonce != f.lanes[b].nonce)
         && i.attestation.scores == Scores(f)
  {
    RunKeeps(H, c, clock, events);
    var s := After(H, c, clock, events);
    var i := s.issued[k];
    assert IssuedGood(H, c, s.h, i);
    forall l | 0 <= l < LANES
      ensures LaneProved(H, s.h, i, l)
      ensures IssuedAt(i.final, l) <= ReceivedAt(i.final, l) <= i.final.deadlineMs
    {
      assert LaneBacked(H, s.h, i.attestation.challengeId, i.final, l);
    }
  }

  /** The elapsed times of an attestation's four lanes sum to at most the challenge's lifetime. */
  lemma {:induction false} ElapsedWithinLifetime(H: Hash, c: Config, clock: int, events: seq<Event>, k: nat)
    requires c.checkpoints > 0 && IsRun(H, c, clock, events)
    requires k < |After(H, c, clock, events).issued|
    ensures var f := After(H, c, clock, events).issued[k].final;
      && |f.lanes| == LANES
      && (forall l :: 0 <= l < LANES ==> f.lanes[l].elapsedMs.Some? && 0 <= f.lanes[l].elapsedMs.value <= c.maxLaneMs)
      && f.lanes[0].elapsedMs.value + f.lanes[1].elapsedMs.value
         + f.lanes[2].elapsedMs.value + f.lanes[3].elapsedMs.value
         <= c.challengeTtlMs
  {
    AttestationBacked(H, c, clock, events, k);
    RunKeeps(H, c, clock, events);
    assert IssuedGood(H, c, After(H, c, clock, events).h, After(H, c, clock, events).issued[k]);
  }

  // ------------------------------------------------------------ what interleaving does not give

  ghost predicate Leads(H: Hash, c: Config, s: System, events: seq<Event>, t: System)
    decreases |events|
  {
    if events == [] then t == s
    else Enabled(H, c, s, events[0]) && Leads(H, c, Next(H, c, s, events[0]), events[1..], t)
  }

  /** The stored challenge has only its last lane to submit, and the submission would be accepted now. */
  ghost predicate LastAccepted(H: Hash, c: Config, s: System, challengeId: Digest, sub: Submission) {
    && Live(s, challengeId)
    && var st := s.store[challengeId].state;
       && Shape(c, st) && st.checkpoints > 0
       && st.lanes[LANES - 1].status == Started
       && st.lanes[LANES - 1].nonce.value in s.h.nonces
       && Refusal(st, challengeId, LANES - 1, sub, s.h.clock).None?
       && Elapsed(st, LANES - 1, s.h.clock) <= c.maxLaneMs
       && ProofAccepted(H, st, challengeId, LANES - 1, sub)
  }

  /** The attestation a submission of the last lane received at an instant closes with. */
  function LastAttestation(c: Config, st: BenchState, challengeId: Digest, receivedAt: int): Attestation
    requires |st.lanes| == LANES
  {
    Attest(c, Finish(st, LANES - 1, Elapsed(st, LANES - 1, receivedAt)), challengeId, receivedAt)
  }

  lemma {:induction false} LastCloses(H: Hash, c: Config, s: System, challengeId: Digest, sub: Submission)
    requires LastAccepted(H, c, s, challengeId, sub)
    ensures var outcome := Decide(c, s.store[challengeId].state, challengeId, LANES - 1, sub, s.h.clock, true);
      outcome.Closed? && outcome.attestation == LastAttestation(c, s.store[challengeId].state, challengeId, s.h.clock)
  {
  }

  /** One submission of the last lane, from its arrival to the moment its attestation is ready. */
  lemma {:induction false} ReadyToClose(H: Hash, c: Config, s: System, challengeId: Digest, sub: Submission, id: nat)
    returns (t: System)
    requires LastAccepted(H, c, s, challengeId, sub) && id !in s.flights
    ensures Leads(H, c, s, [Receive(id, challengeId, LANES - 1, sub), LoadSubmit(id), ComputeSubmit(id)], t)
    ensures t.flights.Keys == s.flights.Keys + {id} && t.flights[id].0 == challengeId && t.flights[id].1.Closing?
    ensures t.flights[id].1.attestation == LastAttestation(c, s.store[challengeId].state, challengeId, s.h.clock)
    ensures forall k :: k in s.flights ==> t.flights[k] == s.flights[k]
    ensures t.store == s.store && t.issued == s.issued && t.h == s.h.(log := t.h.log)
  {
    var last := LANES - 1;
    var s1 := Next(H, c, s, Receive(id, challengeId, last, sub));
    var s2 := Next(H, c, s1, LoadSubmit(id));
    LastCloses(H, c, s, challengeId, sub);
    t := Next(H, c, s2, ComputeSubmit(id));
    assert Leads(H, c, t, [], t);
    assert Leads(H, c, s2, [ComputeSubmit(id)], t);
    assert [LoadSubmit(id), ComputeSubmit(id)][1..] == [ComputeSubmit(id)];
    assert Leads(H, c, s1, [LoadSubmit(id), ComputeSubmit(id)], t);
    assert [Receive(id, challengeId, last, sub), LoadSubmit(id), ComputeSubmit(id)][1..] ==
      [LoadSubmit(id), ComputeSubmit(id)];
  }

  lemma {:induction false} LeadsOn(H: Hash, c: Config, s: System, a: seq<Event>, t: System, b: seq<Event>, u: System)
    requires Leads(H, c, s, a, t) && Leads(H, c, t, b, u)
    ensures Leads(H, c, s, a + b, u)
    decreases |a|
  {
    if a == [] {
      assert a + b == b;
    } else {
      LeadsOn(H, c, Next(H, c, s, a[0]), a[1..], t, b, u);
      assert (a + b)[1..] == a[1..] + b;
    }
  }

  /** Two requests about to issue do so one after the other. */
  lemma {:induction false} IssueBoth(H: Hash, c: Config, s: System, a: nat, b: nat) returns (t: System)
    requires a in s.flights && b in s.flights && a != b && s.flights[a].1.Closing? && s.flights[b].1.Closing?
    ensures Leads(H, c, s, [Issue(a), Issue(b)], t)
    ensures Attestations(t.issued) ==
      Record(Record(Attestations(s.issued), s.flights[a].1.attestation), s.flights[b].1.attestation)
  {
    var s1 := Next(H, c, s, Issue(a));
    t := Next(H, c, s1, Issue(b));
    assert Leads(H, c, t, [], t);
    assert Leads(H, c, s1, [Issue(b)], t);
    assert [Issue(a), Issue(b)][1..] == [Issue(b)];
    RecordsAlike(s.issued, Issued(s.flights[a].1.attestation, s.flights[a].1.final));
    RecordsAlike(s1.issued, Issued(s.flights[b].1.attestation, s.flights[b].1.final));
  }

  /** The clock at a later instant. */
  function At(s: System, clock: int): System { s.(h := s.h.(clock := clock)) }

  /** Two copies of a last submission, the second received at a later instant or the same one, both ready to close. */
  lemma {:induction false} BothReady(H: Hash, c: Config, s: System, challengeId: Digest, sub: Submission, a: nat,
                                     b: nat, later: int)
    returns (events: seq<Event>, t: System)
    requires LastAccepted(H, c, s, challengeId, sub) && s.h.clock <= later
    requires LastAccepted(H, c, At(s, later), challengeId, sub)
    requires a != b && a !in s.flights && b !in s.flights
    ensures Leads(H, c, s, events, t) && t.issued == s.issued
    ensures a in t.flights && t.flights[a].1.Closing? && b in t.flights && t.flights[b].1.Closing?
    ensures t.flights[a].1.attestation == LastAttestation(c, s.store[challengeId].state, challengeId, s.h.clock)
    ensures t.flights[b].1.attestation == LastAttestation(c, s.store[challengeId].state, challengeId, later)
  {
    var s1 := ReadyToClose(H, c, s, challengeId, sub, a);
    var s2 := Next(H, c, s1, Tick(later));
    assert Leads(H, c, s2, [], s2);
    assert [Tick(later)][1..] == [];
    assert Leads(H, c, s1, [Tick(later)], s2);
    assert LastAccepted(H, c, s2, challengeId, sub);
    t := ReadyToClose(H, c, s2, challengeId, sub, b);
    var first := [Receive(a, challengeId, LANES - 1, sub), LoadSubmit(a), ComputeSubmit(a)];
    var second := [Receive(b, challengeId, LANES - 1, sub), LoadSubmit(b), ComputeSubmit(b)];
    LeadsOn(H, c, s, first, s1, [Tick(later)], s2);
    LeadsOn(H, c, s, first + [Tick(later)], s2, second, t);
    events := first + [Tick(later)] + second;
  }

  /** Closing one state at two instants gives one attestation exactly if the instants are the same. */
  lemma {:induction false} SameAttestationIff(c: Config, st: BenchState, challengeId: Digest, x: int, y: int)
    requires |st.lanes| == LANES
    ensures LastAttestation(c, st, challengeId, x) == LastAttestation(c, st, challengeId, y) <==> x == y
    ensures LastAttestation(c, st, challengeId, x).challengeId == challengeId
  {
    assert LastAttestation(c, st, challengeId, x).measuredAt == x;
    assert LastAttestation(c, st, challengeId, y).measuredAt == y;
  }

  /** From two copies of a last submission to the table they leave. */
  lemma {:induction false} BothClose(H: Hash, c: Config, s: System, challengeId: Digest, sub: Submission, a: nat,
                                     b: nat, later: int)
    returns (events: seq<Event>, t: System)
    requires LastAccepted(H, c, s, challengeId, sub) && s.h.clock <= later
    requires LastAccepted(H, c, At(s, later), challengeId, sub)
    requires a != b && a !in s.flights && b !in s.flights
    ensures Leads(H, c, s, events, t)
    ensures Attestations(t.issued) ==
      Record(Record(Attestations(s.issued), LastAttestation(c, s.store[challengeId].state, challengeId, s.h.clock)),
             LastAttestation(c, s.store[challengeId].state, challengeId, later))
  {
    var s1: System;
    events, s1 := BothReady(H, c, s, challengeId, sub, a, b, later);
    t := IssueBoth(H, c, s1, a, b);
    LeadsOn(H, c, s, events, s1, [Issue(a), Issue(b)], t);
    events := events + [Issue(a), Issue(b)];
  }

  /**
   At most one attestation per challenge does not survive interleaving. Whenever the last lane's submission
   would be accepted now and at a later instant, two copies of it received then, both loaded before either
   drops the challenge, both close it; they leave two attestations exactly if the instants differ.
   */
  lemma {:induction false} TwoCloses(H: Hash, c: Config, s: System, challengeId: Digest, sub: Submission, a: nat,
                                     b: nat, later: int)
    returns (events: seq<Event>, t: System)
    requires LastAccepted(H, c, s, challengeId, sub) && s.h.clock <= later
    requires LastAccepted(H, c, At(s, later), challengeId, sub)
    requires a != b && a !in s.flights && b !in s.flights
    requires forall k :: 0 <= k < |s.issued| ==> s.issued[k].attestation.challengeId != challengeId
    ensures Leads(H, c, s, events, t)
    ensures |t.issued| == |s.issued| + if later == s.h.clock then 1 else 2
    ensures forall k :: |s.issued| <= k < |t.issued| ==> t.issued[k].attestation.challengeId == challengeId
    ensures forall j, k :: |s.issued| <= j < k < |t.issued| ==>
      t.issued[j].attestation.measuredAt < t.issued[k].attestation.measuredAt
  {
    var st := s.store[challengeId].state;
    events, t := BothClose(H, c, s, challengeId, sub, a, b, later);
    ClosedRecords(c, st, challengeId, Attestations(s.issued), s.h.clock, later);
    assert forall k :: 0 <= k < |t.issued| ==> t.issued[k].attestation == Attestations(t.issued)[k];
  }

  /** The table after a state was closed at two instants. */
  lemma {:induction false} ClosedRecords(c: Config, st: BenchState, challengeId: Digest, issued: seq<Attestation>,
                                         x: int, y: int)
    requires |st.lanes| == LANES && x <= y && forall k :: 0 <= k < |issued| ==> issued[k].challengeId != challengeId
    ensures var r := Record(Record(issued, LastAttestation(c, st, challengeId, x)),
      LastAttestation(c, st, challengeId, y));
      && |r| == |issued| + (if x == y then 1 else 2)
      && (forall k :: |issued| <= k < |r| ==> r[k].challengeId == challengeId)
      && forall j, k :: |issued| <= j < k < |r| ==> r[j].measuredAt < r[k].measuredAt
  {
    SameAttestationIff(c, st, challengeId, x, y);
    SameAttestationIff(c, st, challengeId, y, x);
    TwoRecords(issued, challengeId, LastAttestation(c, st, challengeId, x), LastAttestation(c, st, challengeId, y));
  }

  lemma {:induction false} TwoRecords(issued: seq<Attestation>, challengeId: Digest, first: Attestation,
                                      second: Attestation)
    requires forall k :: 0 <= k < |issued| ==> issued[k].challengeId != challengeId
    requires first.challengeId == challengeId == second.challengeId
    ensures Record(Record(issued, first), second) == if first == second then issued + [first]
      else issued + [first, second]
  {
    assert issued + [first] + [second] == issued + [first, second];
  }
}
