/**
 When at most one attestation per challenge survives interleaving: it does as soon as a request loads
 a challenge only while no other request is between its load of that challenge and its last store.
 */
module AttestSerial {
  import opened Hashing
  import opened AttestState
  import opened AttestInterleaved

  /** Every other request on the challenge has at most been received. */
  ghost predicate Alone(s: System, id: nat, challengeId: Digest) {
    forall other :: other in s.flights && other != id && s.flights[other].0 == challengeId ==>
      s.flights[other].1.Received?
  }

  /** The guard a lock per challenge would add to the two loads. */
  ghost predicate LoadsAlone(s: System, e: Event) {
    match e
    case LoadStart(id, challengeId, _) => Alone(s, id, challengeId)
    case LoadSubmit(id) => id in s.flights ==> Alone(s, id, s.flights[id].0)
    case _ => true
  }

  ghost predicate IsSerial(H: Hash, c: Config, clock: int, events: seq<Event>)
    requires IsRun(H, c, clock, events)
    decreases |events|
  {
    events == [] ||
    var n := |events| - 1;
    IsSerial(H, c, clock, events[..n]) && LoadsAlone(After(H, c, clock, events[..n]), events[n])
  }

  // ------------------------------------------------------------ the invariant

  /** Two requests on one challenge are never both past their loads. */
  ghost predicate OneAtATime(s: System) {
    forall a, b :: a in s.flights && b in s.flights && a != b && s.flights[a].0 == s.flights[b].0 ==>
      s.flights[a].1.Received? || s.flights[b].1.Received?
  }

  ghost predicate IsDropping(s: System, id: nat, challengeId: Digest) {
    id in s.flights && s.flights[id].0 == challengeId && s.flights[id].1.Dropping?
  }

  /** An attested challenge is gone from the store, or the request that closed it is about to drop it. */
  ghost predicate Ended(s: System, challengeId: Digest) {
    && challengeId in s.h.openedAt
    && (forall id :: id in s.flights && s.flights[id].0 == challengeId ==>
          s.flights[id].1.Received? || s.flights[id].1.Dropping?)
    && (challengeId in s.store ==> exists id :: IsDropping(s, id, challengeId))
  }

  ghost predicate AllOpened(s: System) {
    && s.store.Keys <= s.h.openedAt.Keys
    && forall id :: id in s.flights && !s.flights[id].1.Received? ==> s.flights[id].0 in s.h.openedAt
  }

  ghost predicate ClosingOwn(s: System) {
    forall id :: id in s.flights && s.flights[id].1.Closing? ==>
      s.flights[id].1.attestation.challengeId == s.flights[id].0
  }

  ghost predicate IssuedOnce(s: System) {
    && (forall k :: 0 <= k < |s.issued| ==> Ended(s, s.issued[k].attestation.challengeId))
    && forall j, k :: 0 <= j < k < |s.issued| ==>
         s.issued[j].attestation.challengeId != s.issued[k].attestation.challengeId
  }

  ghost predicate Serial(s: System) {
    OneAtATime(s) && AllOpened(s) && ClosingOwn(s) && IssuedOnce(s)
  }

  // ------------------------------------------------------------ every step keeps it

  /** Another challenge's steps do not touch an attested one. */
  lemma {:induction false} EndedStays(s: System, t: System, challengeId: Digest)
    requires Ended(s, challengeId) && s.h.openedAt.Keys <= t.h.openedAt.Keys
    requires challengeId in t.store ==> challengeId in s.store
    requires forall id :: id in t.flights && t.flights[id].0 == challengeId ==>
      t.flights[id].1.Received? || (id in s.flights && t.flights[id] == s.flights[id])
    requires forall id :: id in s.flights && s.flights[id].0 == challengeId && s.flights[id].1.Dropping? ==>
      id in t.flights && t.flights[id] == s.flights[id]
    ensures Ended(t, challengeId)
  {
    if challengeId in t.store {
      var id :| IsDropping(s, id, challengeId);
      assert IsDropping(t, id, challengeId);
    }
  }

  /** One request moves on or comes in, on a challenge that is not attested or without leaving Received. */
  lemma {:induction false} MoveKeeps(s: System, t: System, id: nat, challengeId: Digest)
    requires Serial(s) && id in t.flights && t.flights[id].0 == challengeId
    requires t.flights.Keys == s.flights.Keys + {id}
      && (forall k :: k in s.flights && k != id ==> t.flights[k] == s.flights[k])
    requires id in s.flights ==> s.flights[id].0 == challengeId && !s.flights[id].1.Dropping?
    requires t.store == s.store && t.issued == s.issued && s.h.openedAt.Keys <= t.h.openedAt.Keys
    requires t.flights[id].1.Received? || (Alone(s, id, challengeId) && challengeId in t.h.openedAt)
    requires t.flights[id].1.Closing? ==> t.flights[id].1.attestation.challengeId == challengeId
    requires !t.flights[id].1.Received? ==>
      forall k :: 0 <= k < |s.issued| ==> s.issued[k].attestation.challengeId != challengeId
    ensures Serial(t)
  {
    forall k | 0 <= k < |t.issued| ensures Ended(t, t.issued[k].attestation.challengeId) {
      EndedStays(s, t, s.issued[k].attestation.challengeId);
    }
  }

  /** One request ends without touching store or attestations. */
  lemma {:induction false} LeaveKeeps(s: System, t: System, id: nat)
    requires Serial(s) && id in s.flights && !s.flights[id].1.Dropping?
    requires t.flights == s.flights - {id} && t.store == s.store && t.issued == s.issued
    requires s.h.openedAt.Keys <= t.h.openedAt.Keys
    ensures Serial(t)
  {
    forall k | 0 <= k < |t.issued| ensures Ended(t, t.issued[k].attestation.challengeId) {
      EndedStays(s, t, s.issued[k].attestation.challengeId);
    }
  }

  /** A request past its load and before its drop is on a challenge that is not attested, and is alone on it. */
  lemma {:induction false} LoadedIsOpen(s: System, id: nat)
    requires Serial(s) && id in s.flights && !s.flights[id].1.Received? && !s.flights[id].1.Dropping?
    ensures Alone(s, id, s.flights[id].0) && s.flights[id].0 in s.h.openedAt
    ensures forall k :: 0 <= k < |s.issued| ==> s.issued[k].attestation.challengeId != s.flights[id].0
  {
    forall k | 0 <= k < |s.issued| ensures s.issued[k].attestation.challengeId != s.flights[id].0 {
      assert Ended(s, s.issued[k].attestation.challengeId);
    }
  }

  /** A stored challenge that a request loads alone is not attested. */
  lemma {:induction false} LiveIsOpen(s: System, id: nat, challengeId: Digest)
    requires Serial(s) && challengeId in s.store && Alone(s, id, challengeId)
    requires id in s.flights ==> s.flights[id].1.Received?
    ensures challengeId in s.h.openedAt
    ensures forall k :: 0 <= k < |s.issued| ==> s.issued[k].attestation.challengeId != challengeId
  {
    forall k | 0 <= k < |s.issued| ensures s.issued[k].attestation.challengeId != challengeId {
      assert Ended(s, s.issued[k].attestation.challengeId);
    }
  }

  lemma {:induction false} LandSerial(s: System, id: nat, e: Effect)
    requires Serial(s) && id in s.flights && (s.flights[id].1.StartLoaded? || s.flights[id].1.SubmitLoaded?)
    requires e.h.openedAt == s.h.openedAt
    requires e.follow.Some? && e.follow.value.Closing? ==> e.follow.value.attestation.challengeId == s.flights[id].0
    ensures Serial(Land(s, id, e))
  {
    if e.follow.None? {
      LeaveKeeps(s, Land(s, id, e), id);
    } else {
      LoadedIsOpen(s, id);
      MoveKeeps(s, Land(s, id, e), id, s.flights[id].0);
    }
  }

  lemma {:induction false} OpenSerial(H: Hash, c: Config, s: System, e: Event)
    requires Serial(s) && e.Open? && Enabled(H, c, s, e)
    ensures Serial(Next(H, c, s, e))
  {
    forall k | 0 <= k < |s.issued| ensures s.issued[k].attestation.challengeId != e.challengeId {
      assert Ended(s, s.issued[k].attestation.challengeId);
    }
    MoveKeeps(s, Next(H, c, s, e), e.id, e.challengeId);
  }

  lemma {:induction false} StoreSerial(H: Hash, c: Config, s: System, id: nat)
    requires Serial(s) && Enabled(H, c, s, Store(id))
    ensures Serial(Next(H, c, s, Store(id)))
  {
    var t := Next(H, c, s, Store(id));
    LoadedIsOpen(s, id);
    forall k | 0 <= k < |t.issued| ensures Ended(t, t.issued[k].attestation.challengeId) {
      EndedStays(s, t, s.issued[k].attestation.challengeId);
    }
  }

  lemma {:induction false} DropSerial(H: Hash, c: Config, s: System, id: nat)
    requires Serial(s) && Enabled(H, c, s, Drop(id))
    ensures Serial(Next(H, c, s, Drop(id)))
  {
    var t := Next(H, c, s, Drop(id));
    forall k | 0 <= k < |t.issued| ensures Ended(t, t.issued[k].attestation.challengeId) {
      assert Ended(s, s.issued[k].attestation.challengeId);
      if s.issued[k].attestation.challengeId != s.flights[id].0 {
        EndedStays(s, t, s.issued[k].attestation.challengeId);
      }
    }
  }

  lemma {:induction false} IssueSerial(H: Hash, c: Config, s: System, id: nat)
    requires Serial(s) && Enabled(H, c, s, Issue(id))
    ensures Serial(Next(H, c, s, Issue(id)))
  {
    var t := Next(H, c, s, Issue(id));
    var n := |s.issued|;
    var challengeId := s.flights[id].0;
    LoadedIsOpen(s, id);
    assert s.flights[id].1.attestation !in Attestations(s.issued);
    assert IsDropping(t, id, challengeId);
    forall k | 0 <= k < n ensures Ended(t, t.issued[k].attestation.challengeId) {
      EndedStays(s, t, s.issued[k].attestation.challengeId);
    }
    assert t.issued[n].attestation.challengeId == challengeId;
  }

  lemma {:induction false} LoadSerial(H: Hash, c: Config, s: System, e: Event)
    requires Serial(s) && Enabled(H, c, s, e) && LoadsAlone(s, e) && (e.LoadStart? || e.LoadSubmit?)
    ensures Serial(Next(H, c, s, e))
  {
    var challengeId := if e.LoadStart? then e.challengeId else s.flights[e.id].0;
    if Live(s, challengeId) {
      LiveIsOpen(s, e.id, challengeId);
      MoveKeeps(s, Next(H, c, s, e), e.id, challengeId);
    } else if e.LoadSubmit? {
      LeaveKeeps(s, Next(H, c, s, e), e.id);
    }
  }

  lemma {:induction false} StepSerial(H: Hash, c: Config, s: System, e: Event)
    requires Serial(s) && Enabled(H, c, s, e) && LoadsAlone(s, e)
    ensures Serial(Next(H, c, s, e))
  {
    match e
    case Tick(to) =>
      forall k | 0 <= k < |s.issued| ensures Ended(Next(H, c, s, e), s.issued[k].attestation.challengeId) {
        EndedStays(s, Next(H, c, s, e), s.issued[k].attestation.challengeId);
      }
    case Open(_, _, _, _, _) => OpenSerial(H, c, s, e);
    case LoadStart(_, _, _) => LoadSerial(H, c, s, e);
    case ComputeStart(id, nonce) => LandSerial(s, id, StartEffect(s.h, s.flights[id].1, nonce));
    case Receive(id, challengeId, _, _) => MoveKeeps(s, Next(H, c, s, e), id, challengeId);
    case LoadSubmit(_) => LoadSerial(H, c, s, e);
    case ComputeSubmit(id) =>
      var (challengeId, f) := s.flights[id];
      LandSerial(s, id, SubmitEffect(c, s.h, challengeId, f, FlightAccepted(H, challengeId, f)));
    case Store(id) => StoreSerial(H, c, s, id);
    case Drop(id) => DropSerial(H, c, s, id);
    case Issue(id) => IssueSerial(H, c, s, id);
  }

  lemma {:induction false} RunSerial(H: Hash, c: Config, clock: int, events: seq<Event>)
    requires IsRun(H, c, clock, events) && IsSerial(H, c, clock, events)
    ensures Serial(After(H, c, clock, events))
    decreases |events|
  {
    if events != [] {
      var n := |events| - 1;
      RunSerial(H, c, clock, events[..n]);
      StepSerial(H, c, After(H, c, clock, events[..n]), events[n]);
    }
  }

  /** Requests that load a challenge one at a time issue at most one attestation for it, as the rest may interleave. */
  lemma {:induction false} SerialAttestsOnce(H: Hash, c: Config, clock: int, events: seq<Event>, j: nat, k: nat)
    requires IsRun(H, c, clock, events) && IsSerial(H, c, clock, events)
    requires j < k < |After(H, c, clock, events).issued|
    ensures var issued := After(H, c, clock, events).issued;
      issued[j].attestation.challengeId != issued[k].attestation.challengeId
  {
    RunSerial(H, c, clock, events);
  }
}
