/** A failed challenge with the awaits: it can come back, and when it cannot. */
module AttestFailure {
  import opened Hashing
  import opened Chain
  import opened Lane
  import opened AttestState
  import opened AttestInterleaved
  import opened AttestSerial
  import opened AttestRefinement
  import opened AttestHonest
  import opened AttestRace
  import Service = AttestService

  /** A challenge nobody can store again: it is not in the store, and no request holds a copy of it. */
  ghost predicate Gone(s: System, challengeId: Digest) {
    && challengeId in s.h.openedAt && challengeId !in s.store
    && forall id :: id in s.flights && s.flights[id].0 == challengeId ==>
         s.flights[id].1.Received? || s.flights[id].1.Dropping?
  }

  lemma {:induction false} GoneStays(H: Hash, c: Config, s: System, e: Event, challengeId: Digest)
    requires Gone(s, challengeId) && Enabled(H, c, s, e)
    ensures Gone(Next(H, c, s, e), challengeId)
  {
  }

  /** With loads one at a time, a drop leaves no copy behind. */
  lemma {:induction false} DropIsGone(H: Hash, c: Config, s: System, id: nat)
    requires Serial(s) && Enabled(H, c, s, Drop(id))
    ensures Gone(Next(H, c, s, Drop(id)), s.flights[id].0)
  {
    var challengeId := s.flights[id].0;
    forall other | other in s.flights && other != id && s.flights[other].0 == challengeId
      ensures s.flights[other].1.Received?
    {
      assert s.flights[id].1.Received? || s.flights[other].1.Received?;
    }
  }

  /** A failed or closed challenge is never stored again, if requests load a challenge one at a time. */
  lemma {:induction false} SerialDropIsFinal(H: Hash, c: Config, clock: int, events: seq<Event>, k: nat, id: nat)
    requires IsRun(H, c, clock, events) && IsSerial(H, c, clock, events)
    requires k < |events| && events[k] == Drop(id)
    ensures IsRun(H, c, clock, events[..k]) && id in After(H, c, clock, events[..k]).flights
    ensures Gone(After(H, c, clock, events), After(H, c, clock, events[..k]).flights[id].0)
    decreases |events|
  {
    var n := |events| - 1;
    if k == n {
      RunSerial(H, c, clock, events[..n]);
      DropIsGone(H, c, After(H, c, clock, events[..n]), id);
    } else {
      SerialDropIsFinal(H, c, clock, events[..n], k, id);
      assert events[..n][..k] == events[..k];
      GoneStays(H, c, After(H, c, clock, events[..n]), events[n], After(H, c, clock, events[..k]).flights[id].0);
    }
  }

  // ------------------------------------------------------------ without that

  /** A stored challenge with a lane started, and what a submission on that lane would lead to now. */
  ghost predicate Awaits(s: System, challengeId: Digest, lane: nat, sub: Submission) {
    && Live(s, challengeId) && lane < LANES
    && var st := s.store[challengeId].state;
       && |st.lanes| == LANES && st.checkpoints > 0
       && Refusal(st, challengeId, lane, sub, s.h.clock).None?
       && (st.lanes[lane].nonce.Some? ==> st.lanes[lane].nonce.value in s.h.nonces)
  }

  ghost predicate Fails(H: Hash, s: System, challengeId: Digest, lane: nat, sub: Submission)
    requires Awaits(s, challengeId, lane, sub)
  {
    !ProofAccepted(H, s.store[challengeId].state, challengeId, lane, sub)
  }

  /** The submission is accepted and leaves lanes to do. */
  ghost predicate Proceeds(H: Hash, c: Config, s: System, challengeId: Digest, lane: nat, sub: Submission)
    requires Awaits(s, challengeId, lane, sub)
  {
    && ProofAccepted(H, s.store[challengeId].state, challengeId, lane, sub)
    && Decide(c, s.store[challengeId].state, challengeId, lane, sub, s.h.clock, true).Progress?
  }

  /** The stored challenge with the lane done at this instant. */
  function DoneNow(s: System, challengeId: Digest, lane: nat): BenchState
    requires challengeId in s.store && lane < |s.store[challengeId].state.lanes|
  {
    var st := s.store[challengeId].state;
    Finish(st, lane, Elapsed(st, lane, s.h.clock))
  }

  /** A submission that has arrived and loaded the challenge at one instant. */
  lemma {:induction false} Arrived(H: Hash, c: Config, s: System, challengeId: Digest, lane: nat, sub: Submission,
                                   id: nat)
    returns (t: System)
    requires Live(s, challengeId) && id !in s.flights
    ensures Leads(H, c, s, [Receive(id, challengeId, lane, sub), LoadSubmit(id)], t)
    ensures t == With(s, id, challengeId,
      SubmitLoaded(lane, sub, s.h.clock, s.h.nonces.Keys, s.store[challengeId].state))
  {
    var s1 := Next(H, c, s, Receive(id, challengeId, lane, sub));
    t := Next(H, c, s1, LoadSubmit(id));
    assert Leads(H, c, t, [], t);
    assert [LoadSubmit(id)][1..] == [];
    assert Leads(H, c, s1, [LoadSubmit(id)], t);
    assert [Receive(id, challengeId, lane, sub), LoadSubmit(id)][1..] == [LoadSubmit(id)];
    assert s1.flights[id := t.flights[id]] == s.flights[id := t.flights[id]];
  }

  /** A submission from its arrival to its decision, at one instant. */
  lemma {:induction false} Decided(H: Hash, c: Config, s: System, challengeId: Digest, lane: nat, sub: Submission,
                                   id: nat)
    returns (events: seq<Event>, t: System)
    requires Awaits(s, challengeId, lane, sub) && id !in s.flights
    ensures Leads(H, c, s, events, t)
    ensures t.store == s.store && t.h == s.h.(log := t.h.log) && t.flights.Keys <= s.flights.Keys + {id}
    ensures forall k :: k in s.flights ==> k in t.flights && t.flights[k] == s.flights[k]
    ensures Fails(H, s, challengeId, lane, sub) ==> id in t.flights && t.flights[id] == (challengeId, Dropping)
    ensures Proceeds(H, c, s, challengeId, lane, sub) ==>
      id in t.flights && t.flights[id].0 == challengeId && t.flights[id].1.Storing?
      && t.flights[id].1.next == DoneNow(s, challengeId, lane)
  {
    var s1 := Arrived(H, c, s, challengeId, lane, sub, id);
    t := Next(H, c, s1, ComputeSubmit(id));
    assert Leads(H, c, t, [], t);
    assert [ComputeSubmit(id)][1..] == [];
    assert Leads(H, c, s1, [ComputeSubmit(id)], t);
    LeadsOn(H, c, s, [Receive(id, challengeId, lane, sub), LoadSubmit(id)], s1, [ComputeSubmit(id)], t);
    events := [Receive(id, challengeId, lane, sub), LoadSubmit(id)] + [ComputeSubmit(id)];
  }

  /** A drop and then the store of a copy loaded before it. */
  lemma {:induction false} StaleStore(H: Hash, c: Config, s: System, challengeId: Digest, a: nat, b: nat)
    returns (dropped: System, t: System)
    requires a in s.flights && s.flights[a] == (challengeId, Dropping) && a != b
    requires b in s.flights && s.flights[b].0 == challengeId && s.flights[b].1.Storing?
    ensures Leads(H, c, s, [Drop(a)], dropped) && challengeId !in dropped.store
    ensures Leads(H, c, dropped, [Store(b)], t)
    ensures challengeId in t.store && t.store[challengeId].state == s.flights[b].1.next
  {
    dropped := Next(H, c, s, Drop(a));
    t := Next(H, c, dropped, Store(b));
    assert [Drop(a)][1..] == [] && [Store(b)][1..] == [];
  }

  /**
   Whenever two submissions are in for one started lane, one that fails and one that is accepted and
   leaves lanes to do, there is an interleaving in which the failure drops the challenge and the other
   one's store brings it back, with the lane done.
   */
  lemma {:induction false} FailedChallengeReturns(H: Hash, c: Config, s: System, challengeId: Digest, lane: nat,
                                                  bad: Submission, good: Submission, a: nat, b: nat)
    returns (before: seq<Event>, dropped: System, t: System)
    requires Awaits(s, challengeId, lane, bad) && Fails(H, s, challengeId, lane, bad)
    requires Awaits(s, challengeId, lane, good) && Proceeds(H, c, s, challengeId, lane, good)
    requires a != b && a !in s.flights && b !in s.flights
    ensures Leads(H, c, s, before + [Drop(a)], dropped) && challengeId !in dropped.store
    ensures Leads(H, c, dropped, [Store(b)], t)
    ensures challengeId in t.store && t.store[challengeId].state == DoneNow(s, challengeId, lane)
  {
    var first, second, s1, s2;
    first, s1 := Decided(H, c, s, challengeId, lane, bad, a);
    assert Awaits(s1, challengeId, lane, good) && Proceeds(H, c, s1, challengeId, lane, good);
    second, s2 := Decided(H, c, s1, challengeId, lane, good, b);
    dropped, t := StaleStore(H, c, s2, challengeId, a, b);
    LeadsOn(H, c, s, first, s1, second, s2);
    before := first + second;
    LeadsOn(H, c, s, before, s2, [Drop(a)], dropped);
  }

  // ------------------------------------------------------------ from the empty service

  /** The plan's lane l is started and everything happens at one instant. */
  ghost predicate LaneOpen(c: Config, p: Plan, s: System, l: nat) {
    && InTime(c, p) && AtOnce(p) && c.checkpoints > 0 && l < LANES - 1
    && Live(s, p.challengeId) && s.h.clock == p.openedAt
    && s.store[p.challengeId].state == StateAt(c, p, l, true)
    && p.lanes[l].nonce in s.h.nonces
  }

  lemma {:induction false} OpenAwaits(c: Config, p: Plan, s: System, l: nat, proofs: seq<WorkerProof>)
    requires LaneOpen(c, p, s, l)
    ensures Awaits(s, p.challengeId, l, Submission(p.providerId, p.challengeId, l, proofs))
    ensures DoneNow(s, p.challengeId, l) == StateAt(c, p, l + 1, false)
  {
    assert StateAt(c, p, l, true).lanes[l] == LaneAt(p, l, true, l);
    FinishIs(c, p, l);
  }

  /** The honest submission is accepted and leaves lanes to do; without its proofs it fails. */
  lemma {:induction false} OpenDecides(H: Hash, c: Config, p: Plan, s: System, w: Service.World, l: nat)
    requires LaneOpen(c, p, s, l) && Drawing(H, c, p) && WorldOf(s) == w && Stands(c, w, p, l, true)
    ensures var good := HonestSubmission(H, c, p, l);
      var bad := good.(proofs := []);
      && Awaits(s, p.challengeId, l, good) && Proceeds(H, c, s, p.challengeId, l, good)
      && Awaits(s, p.challengeId, l, bad) && Fails(H, s, p.challengeId, l, bad)
  {
    var good := HonestSubmission(H, c, p, l);
    OpenAwaits(c, p, s, l, good.proofs);
    OpenAwaits(c, p, s, l, []);
    HonestAccepted(H, c, w, p, l);
    HonestOutcome(c, p, l, good.proofs);
    assert StateAt(c, p, l, true).lanes[l].workers > 0;
  }

  lemma {:induction false} ReachedIsOpen(H: Hash, c: Config, p: Plan, s: System, w: Service.World, l: nat)
    requires InTime(c, p) && AtOnce(p) && c.checkpoints > 0 && l < LANES - 1
    requires Invariant(H, c, s) && s.h.clock == p.openedAt && WorldOf(s) == w && Stands(c, w, p, l, true)
    ensures LaneOpen(c, p, s, l)
  {
    assert s.store[p.challengeId].state == StateAt(c, p, l, true);
    assert StateAt(c, p, l, true).lanes[l] == LaneAt(p, l, true, l);
    assert Good(H, c, s.h, p.challengeId, s.store[p.challengeId].state);
    assert LaneBacked(H, s.h, p.challengeId, s.store[p.challengeId].state, l);
  }

  /** The run up to the point where lane l is started. */
  lemma {:induction false} OpenReached(H: Hash, c: Config, p: Plan, l: nat)
    returns (events: seq<Event>, s: System, w: Service.World)
    requires InTime(c, p) && Drawing(H, c, p) && AtOnce(p) && l < LANES - 1
    ensures Leads(H, c, Start(p.openedAt), events, s) && s.flights == map[]
    ensures LaneOpen(c, p, s, l) && WorldOf(s) == w && Stands(c, w, p, l, true)
  {
    events, s := LanesReached(H, c, p, l);
    var v := WorldAt(H, c, EMPTY, p, l);
    LanesPass(H, c, EMPTY, p, l);
    StartWorks(H, c, v, p, l);
    events, s := StartReached(H, c, p, events, s, v, l);
    w := Service.Handle(H, c, v, StartRequest(p, l), p.openedAt).0;
    ReachedIsOpen(H, c, p, s, w, l);
  }

  /**
   For every hash there is a run of the handlers with their awaits, from the empty service, in which a
   lane without proofs fails its challenge, the failure takes it out of the store, and the honest
   submission of the same lane puts it back with the lane done.
   */
  lemma {:induction false} FailedChallengeStoredAgain(H: Hash, c: Config, p: Plan, l: nat)
    returns (events: seq<Event>, dropped: System, t: System)
    requires InTime(c, p) && Drawing(H, c, p) && AtOnce(p) && l < LANES - 1
    ensures Leads(H, c, Start(p.openedAt), events + [Drop(0)], dropped) && p.challengeId !in dropped.store
    ensures Leads(H, c, dropped, [Store(1)], t)
    ensures p.challengeId in t.store && t.store[p.challengeId].state == StateAt(c, p, l + 1, false)
  {
    var s: System, w, before;
    events, s, w := OpenReached(H, c, p, l);
    var good := HonestSubmission(H, c, p, l);
    OpenDecides(H, c, p, s, w, l);
    OpenAwaits(c, p, s, l, good.proofs);
    before, dropped, t := FailedChallengeReturns(H, c, s, p.challengeId, l, good.(proofs := []), good, 0, 1);
    LeadsOn(H, c, Start(p.openedAt), events, s, before + [Drop(0)], dropped);
    assert events + (before + [Drop(0)]) == events + before + [Drop(0)];
    events := events + before;
  }

  // ------------------------------------------------------------ exactly when it comes back

  /** A request past its load that can still end in a store. */
  ghost predicate MayStore(H: Hash, c: Config, h: History, challengeId: Digest, f: Flight) {
    match f
    case Storing(_, _) => true
    case StartLoaded(lane, loaded) =>
      && |loaded.lanes| == LANES
      && exists nonce: Nonce :: nonce !in h.nonces && StartOn(loaded, lane, h.clock, nonce).0.Some?
    case SubmitLoaded(lane, sub, receivedAt, _, loaded) =>
      && |loaded.lanes| == LANES && Causal(H, challengeId, f)
      && Decide(c, loaded, challengeId, lane, sub, receivedAt, FlightAccepted(H, challengeId, f)).Progress?
    case _ => false
  }

  ghost predicate Stores(H: Hash, c: Config, s: System, challengeId: Digest, id: nat) {
    id in s.flights && s.flights[id].0 == challengeId && MayStore(H, c, s.h, challengeId, s.flights[id].1)
  }

  /** Some request holds a copy of the challenge that it may still store. */
  ghost predicate CanReturn(H: Hash, c: Config, s: System, challengeId: Digest) {
    exists id :: Stores(H, c, s, challengeId, id)
  }

  /** The challenge was opened and is not in the store. */
  ghost predicate Missing(s: System, challengeId: Digest) {
    challengeId in s.h.openedAt && challengeId !in s.store
  }

  ghost predicate ComesBack(H: Hash, c: Config, s: System, challengeId: Digest) {
    exists events: seq<Event>, t: System :: Leads(H, c, s, events, t) && challengeId in t.store
  }

  lemma {:induction false} StorePuts(H: Hash, c: Config, s: System, challengeId: Digest, id: nat)
    requires id in s.flights && s.flights[id].0 == challengeId && s.flights[id].1.Storing?
    ensures Enabled(H, c, s, Store(id)) && Leads(H, c, s, [Store(id)], Next(H, c, s, Store(id)))
    ensures challengeId in Next(H, c, s, Store(id)).store
  {
    assert [Store(id)][1..] == [];
  }

  lemma {:induction false} StepThenStore(H: Hash, c: Config, s: System, challengeId: Digest, e: Event, id: nat)
    requires Enabled(H, c, s, e)
    requires var t := Next(H, c, s, e); id in t.flights && t.flights[id].0 == challengeId && t.flights[id].1.Storing?
    ensures ComesBack(H, c, s, challengeId)
  {
    var t := Next(H, c, s, e);
    StorePuts(H, c, t, challengeId, id);
    assert [e, Store(id)][1..] == [Store(id)];
    assert Leads(H, c, s, [e, Store(id)], Next(H, c, t, Store(id)));
  }

  lemma {:induction false} ReturnComes(H: Hash, c: Config, s: System, challengeId: Digest, id: nat)
    requires Stores(H, c, s, challengeId, id)
    ensures ComesBack(H, c, s, challengeId)
  {
    match s.flights[id].1
    case Storing(_, _) => StorePuts(H, c, s, challengeId, id);
    case StartLoaded(lane, loaded) =>
      var nonce: Nonce :| nonce !in s.h.nonces && StartOn(loaded, lane, s.h.clock, nonce).0.Some?;
      StepThenStore(H, c, s, challengeId, ComputeStart(id, nonce), id);
    case SubmitLoaded(_, _, _, _, _) => StepThenStore(H, c, s, challengeId, ComputeSubmit(id), id);
  }

  lemma {:induction false} ComputeStays(H: Hash, c: Config, s: System, e: Event, challengeId: Digest, id: nat)
    requires Missing(s, challengeId) && !CanReturn(H, c, s, challengeId) && Enabled(H, c, s, e)
    requires (e.ComputeStart? || e.ComputeSubmit?) && e.id == id && s.flights[id].0 == challengeId
    ensures id in Next(H, c, s, e).flights ==>
      Next(H, c, s, e).flights[id].1.Dropping? || Next(H, c, s, e).flights[id].1.Closing?
  {
    assert !Stores(H, c, s, challengeId, id);
  }

  ghost predicate Older(h: History, g: History) {
    h.clock <= g.clock && h.nonces.Keys <= g.nonces.Keys
  }

  /** A copy that cannot be stored stays so: the clock and the nonces only grow. */
  lemma {:induction false} MayStoreEarlier(H: Hash, c: Config, h: History, g: History, challengeId: Digest, f: Flight)
    requires Older(h, g) && MayStore(H, c, g, challengeId, f)
    ensures MayStore(H, c, h, challengeId, f)
  {
    if f.StartLoaded? {
      var nonce: Nonce :| nonce !in g.nonces && StartOn(f.loaded, f.lane, g.clock, nonce).0.Some?;
      assert nonce !in h.nonces && StartOn(f.loaded, f.lane, h.clock, nonce).0.Some?;
    }
  }

  lemma {:induction false} StepAges(H: Hash, c: Config, s: System, e: Event)
    requires Enabled(H, c, s, e)
    ensures Older(s.h, Next(H, c, s, e).h)
  {
  }

  /** No request comes by a copy of a missing challenge, and none that it has turns into a store. */
  lemma {:induction false} MissingStays(H: Hash, c: Config, s: System, e: Event, challengeId: Digest)
    requires Missing(s, challengeId) && !CanReturn(H, c, s, challengeId) && Enabled(H, c, s, e)
    ensures Missing(Next(H, c, s, e), challengeId) && !CanReturn(H, c, Next(H, c, s, e), challengeId)
  {
    var t := Next(H, c, s, e);
    StepAges(H, c, s, e);
    if e.Store? {
      assert !Stores(H, c, s, challengeId, e.id);
    }
    forall id ensures !Stores(H, c, t, challengeId, id) {
      assert !Stores(H, c, s, challengeId, id);
      if id in t.flights && t.flights[id].0 == challengeId {
        if id in s.flights && t.flights[id] == s.flights[id] {
          if MayStore(H, c, t.h, challengeId, t.flights[id].1) {
            MayStoreEarlier(H, c, s.h, t.h, challengeId, t.flights[id].1);
          }
        } else if e.ComputeStart? || e.ComputeSubmit? {
          ComputeStays(H, c, s, e, challengeId, id);
        }
      }
    }
  }

  lemma {:induction false} MissingForever(H: Hash, c: Config, s: System, events: seq<Event>, t: System,
                                          challengeId: Digest)
    requires Missing(s, challengeId) && !CanReturn(H, c, s, challengeId) && Leads(H, c, s, events, t)
    ensures challengeId !in t.store
    decreases |events|
  {
    if events != [] {
      MissingStays(H, c, s, events[0], challengeId);
      MissingForever(H, c, Next(H, c, s, events[0]), events[1..], t, challengeId);
    }
  }

  /** A challenge that is not in the store comes back in some continuation exactly if a request may store its copy. */
  lemma {:induction false} ComesBackIff(H: Hash, c: Config, s: System, challengeId: Digest)
    requires Missing(s, challengeId)
    ensures ComesBack(H, c, s, challengeId) <==> CanReturn(H, c, s, challengeId)
  {
    if CanReturn(H, c, s, challengeId) {
      var id :| Stores(H, c, s, challengeId, id);
      ReturnComes(H, c, s, challengeId, id);
    } else if ComesBack(H, c, s, challengeId) {
      var events: seq<Event>, t: System :| Leads(H, c, s, events, t) && challengeId in t.store;
      MissingForever(H, c, s, events, t, challengeId);
    }
  }

  lemma {:induction false} OpenedStays(H: Hash, c: Config, s: System, e: Event)
    requires AllOpened(s) && Enabled(H, c, s, e)
    ensures AllOpened(Next(H, c, s, e))
  {
  }

  lemma {:induction false} RunOpened(H: Hash, c: Config, clock: int, events: seq<Event>)
    requires IsRun(H, c, clock, events)
    ensures AllOpened(After(H, c, clock, events))
    decreases |events|
  {
    if events != [] {
      var n := |events| - 1;
      RunOpened(H, c, clock, events[..n]);
      OpenedStays(H, c, After(H, c, clock, events[..n]), events[n]);
    }
  }

  /**
   So after any run that ends in a drop: the dropped challenge comes back exactly if some other request may
   still store it.
   */
  lemma {:induction false} DroppedComesBackIff(H: Hash, c: Config, clock: int, events: seq<Event>, id: nat)
    requires IsRun(H, c, clock, events) && events != [] && events[|events| - 1] == Drop(id)
    ensures IsRun(H, c, clock, events[..|events| - 1]) && id in After(H, c, clock, events[..|events| - 1]).flights
    ensures var challengeId := After(H, c, clock, events[..|events| - 1]).flights[id].0;
      var s := After(H, c, clock, events);
      && Missing(s, challengeId) && id !in s.flights
      && (ComesBack(H, c, s, challengeId) <==> CanReturn(H, c, s, challengeId))
  {
    var n := |events| - 1;
    RunOpened(H, c, clock, events[..n]);
    ComesBackIff(H, c, After(H, c, clock, events), After(H, c, clock, events[..n]).flights[id].0);
  }
}
