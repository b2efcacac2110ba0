/**
 Who can move a challenge. Whatever the interleaving, a verification is logged, a challenge dropped and an
 attestation issued only after a submission signed by the provider the challenge was opened for.
 */
module AttestSigner {
  import opened Hashing
  import opened Chain
  import opened AttestState
  import opened AttestInterleaved

  predicate Opens(e: Event, challengeId: Digest, provider: Address) {
    e.Open? && e.challengeId == challengeId && e.providerId == provider
  }

  /** The challenge was opened for this provider. */
  ghost predicate OpenedFor(events: seq<Event>, challengeId: Digest, provider: Address) {
    exists j :: 0 <= j < |events| && Opens(events[j], challengeId, provider)
  }

  predicate Brings(e: Event, id: nat, challengeId: Digest, lane: nat, sub: Submission) {
    e.Receive? && e.id == id && e.challengeId == challengeId && e.lane == lane && e.sub == sub
  }

  /** The submission came in as this request, for this challenge and lane. */
  ghost predicate CameIn(events: seq<Event>, id: nat, challengeId: Digest, lane: nat, sub: Submission) {
    exists j :: 0 <= j < |events| && Brings(events[j], id, challengeId, lane, sub)
  }

  /** A submission for the lane came in that was signed by the provider the challenge was opened for. */
  ghost predicate Owned(events: seq<Event>, id: nat, challengeId: Digest, lane: nat, sub: Submission) {
    CameIn(events, id, challengeId, lane, sub) && OpenedFor(events, challengeId, sub.signer)
  }

  ghost predicate OwnerActed(events: seq<Event>, id: nat, challengeId: Digest) {
    exists lane, sub :: Owned(events, id, challengeId, lane, sub)
  }

  ghost predicate OwnerProved(events: seq<Event>, v: Verified) {
    exists id, sub :: Owned(events, id, v.challengeId, v.lane, sub) && sub.proofs == v.proofs
  }

  // ------------------------------------------------------------ the invariant

  ghost predicate FlightTraced(events: seq<Event>, id: nat, challengeId: Digest, f: Flight) {
    match f
    case StartLoaded(_, loaded) => OpenedFor(events, challengeId, loaded.providerId)
    case Received(lane, sub, _, _) => CameIn(events, id, challengeId, lane, sub)
    case SubmitLoaded(lane, sub, _, _, loaded) =>
      CameIn(events, id, challengeId, lane, sub) && OpenedFor(events, challengeId, loaded.providerId)
    case Storing(next, _) => OpenedFor(events, challengeId, next.providerId)
    case Dropping => OwnerActed(events, id, challengeId)
    case Closing(final, attestation) =>
      && OwnerActed(events, id, challengeId) && attestation.challengeId == challengeId
      && OpenedFor(events, challengeId, attestation.providerId)
  }

  ghost predicate IssuedTraced(events: seq<Event>, a: Attestation) {
    (exists id :: OwnerActed(events, id, a.challengeId)) && OpenedFor(events, a.challengeId, a.providerId)
  }

  ghost predicate Traced(events: seq<Event>, s: System) {
    && (forall id :: id in s.store ==> OpenedFor(events, id, s.store[id].state.providerId))
    && (forall id :: id in s.flights ==> FlightTraced(events, id, s.flights[id].0, s.flights[id].1))
    && (forall v :: v in s.h.log ==> OwnerProved(events, v))
    && (forall k :: 0 <= k < |s.issued| ==> IssuedTraced(events, s.issued[k].attestation))
  }

  // ------------------------------------------------------------ runs only add events

  lemma {:induction false} OpenedStays(events: seq<Event>, e: Event, challengeId: Digest, provider: Address)
    requires OpenedFor(events, challengeId, provider)
    ensures OpenedFor(events + [e], challengeId, provider)
  {
    var j :| 0 <= j < |events| && Opens(events[j], challengeId, provider);
    assert Opens((events + [e])[j], challengeId, provider);
  }

  lemma {:induction false} CameStays(events: seq<Event>, e: Event, id: nat, challengeId: Digest, lane: nat,
                                     sub: Submission)
    requires CameIn(events, id, challengeId, lane, sub)
    ensures CameIn(events + [e], id, challengeId, lane, sub)
  {
    var j :| 0 <= j < |events| && Brings(events[j], id, challengeId, lane, sub);
    assert Brings((events + [e])[j], id, challengeId, lane, sub);
  }

  lemma {:induction false} OwnedStays(events: seq<Event>, e: Event, id: nat, challengeId: Digest, lane: nat,
                                      sub: Submission)
    requires Owned(events, id, challengeId, lane, sub)
    ensures Owned(events + [e], id, challengeId, lane, sub)
  {
    CameStays(events, e, id, challengeId, lane, sub);
    OpenedStays(events, e, challengeId, sub.signer);
  }

  lemma {:induction false} ActedStays(events: seq<Event>, e: Event, id: nat, challengeId: Digest)
    requires OwnerActed(events, id, challengeId)
    ensures OwnerActed(events + [e], id, challengeId)
  {
    var lane, sub :| Owned(events, id, challengeId, lane, sub);
    OwnedStays(events, e, id, challengeId, lane, sub);
  }

  lemma {:induction false} FlightStays(events: seq<Event>, e: Event, id: nat, challengeId: Digest, f: Flight)
    requires FlightTraced(events, id, challengeId, f)
    ensures FlightTraced(events + [e], id, challengeId, f)
  {
    match f
    case StartLoaded(_, loaded) => OpenedStays(events, e, challengeId, loaded.providerId);
    case Received(lane, sub, _, _) => CameStays(events, e, id, challengeId, lane, sub);
    case SubmitLoaded(lane, sub, _, _, loaded) =>
      CameStays(events, e, id, challengeId, lane, sub);
      OpenedStays(events, e, challengeId, loaded.providerId);
    case Storing(next, _) => OpenedStays(events, e, challengeId, next.providerId);
    case Dropping => ActedStays(events, e, id, challengeId);
    case Closing(_, attestation) =>
      ActedStays(events, e, id, challengeId);
      OpenedStays(events, e, challengeId, attestation.providerId);
  }

  lemma {:induction false} TracedStays(events: seq<Event>, e: Event, s: System)
    requires Traced(events, s)
    ensures Traced(events + [e], s)
  {
    var more := events + [e];
    forall id | id in s.store ensures OpenedFor(more, id, s.store[id].state.providerId) {
      OpenedStays(events, e, id, s.store[id].state.providerId);
    }
    forall id | id in s.flights ensures FlightTraced(more, id, s.flights[id].0, s.flights[id].1) {
      FlightStays(events, e, id, s.flights[id].0, s.flights[id].1);
    }
    forall v | v in s.h.log ensures OwnerProved(more, v) {
      var id, sub :| Owned(events, id, v.challengeId, v.lane, sub) && sub.proofs == v.proofs;
      OwnedStays(events, e, id, v.challengeId, v.lane, sub);
    }
    forall k | 0 <= k < |s.issued| ensures IssuedTraced(more, s.issued[k].attestation) {
      var a := s.issued[k].attestation;
      var id :| OwnerActed(events, id, a.challengeId);
      ActedStays(events, e, id, a.challengeId);
      OpenedStays(events, e, a.challengeId, a.providerId);
    }
  }

  // ------------------------------------------------------------ every step keeps it

  /** What a computation leads to is traced if what it was made of is. */
  lemma {:induction false} EffectTraced(events: seq<Event>, s: System, id: nat, e: Effect)
    requires Traced(events, s) && id in s.flights
    requires e.follow.Some? ==> FlightTraced(events, id, s.flights[id].0, e.follow.value)
    requires forall v :: v in e.h.log && v !in s.h.log ==> OwnerProved(events, v)
    ensures Traced(events, Land(s, id, e))
  {
  }

  /** A submission with any effect was signed by the provider of the state it was decided on. */
  lemma {:induction false} EffectIsOwned(c: Config, h: History, challengeId: Digest, f: Flight, accepted: bool)
    requires f.SubmitLoaded?
    ensures var e := SubmitEffect(c, h, challengeId, f, accepted);
      e.follow.Some? || e.h != h ==> f.sub.signer == f.loaded.providerId
  {
  }

  lemma {:induction false} SubmitTraced(events: seq<Event>, c: Config, h: History, id: nat, challengeId: Digest,
                                        f: Flight, accepted: bool)
    requires f.SubmitLoaded? && FlightTraced(events, id, challengeId, f)
    ensures var e := SubmitEffect(c, h, challengeId, f, accepted);
      && (e.follow.Some? ==> FlightTraced(events, id, challengeId, e.follow.value))
      && forall v :: v in e.h.log && v !in h.log ==> OwnerProved(events, v)
  {
    EffectIsOwned(c, h, challengeId, f, accepted);
    if f.sub.signer == f.loaded.providerId {
      assert Owned(events, id, challengeId, f.submitLane, f.sub);
    }
  }

  lemma {:induction false} ComputeTraced(H: Hash, c: Config, events: seq<Event>, s: System, e: Event)
    requires Traced(events, s) && Enabled(H, c, s, e) && (e.ComputeStart? || e.ComputeSubmit?)
    ensures Traced(events, Next(H, c, s, e))
  {
    var (challengeId, f) := s.flights[e.id];
    assert FlightTraced(events, e.id, challengeId, f);
    if e.ComputeStart? {
      EffectTraced(events, s, e.id, StartEffect(s.h, f, e.nonce));
    } else {
      SubmitTraced(events, c, s.h, e.id, challengeId, f, FlightAccepted(H, challengeId, f));
      EffectTraced(events, s, e.id, SubmitEffect(c, s.h, challengeId, f, FlightAccepted(H, challengeId, f)));
    }
  }

  lemma {:induction false} IssueTraced(H: Hash, c: Config, events: seq<Event>, s: System, id: nat)
    requires Traced(events, s) && Enabled(H, c, s, Issue(id))
    ensures Traced(events, Next(H, c, s, Issue(id)))
  {
    var t := Next(H, c, s, Issue(id));
    assert FlightTraced(events, id, s.flights[id].0, s.flights[id].1);
    forall k | 0 <= k < |t.issued| ensures IssuedTraced(events, t.issued[k].attestation) {
      if k < |s.issued| {
        assert t.issued[k] == s.issued[k];
      }
    }
  }

  lemma {:induction false} ArrivalTraced(H: Hash, c: Config, events: seq<Event>, s: System, e: Event)
    requires Traced(events, s) && Enabled(H, c, s, e) && (e.Open? || e.Receive?)
    requires events != [] && events[|events| - 1] == e
    ensures Traced(events, Next(H, c, s, e))
  {
    if e.Open? {
      assert Opens(events[|events| - 1], e.challengeId, e.providerId);
    } else {
      assert Brings(events[|events| - 1], e.id, e.challengeId, e.lane, e.sub);
    }
  }

  lemma {:induction false} StepTraced(H: Hash, c: Config, events: seq<Event>, s: System, e: Event)
    requires Traced(events, s) && Enabled(H, c, s, e)
    ensures Traced(events + [e], Next(H, c, s, e))
  {
    var more := events + [e];
    TracedStays(events, e, s);
    match e
    case Open(_, _, _, _, _) => ArrivalTraced(H, c, more, s, e);
    case Receive(_, _, _, _) => ArrivalTraced(H, c, more, s, e);
    case ComputeStart(_, _) => ComputeTraced(H, c, more, s, e);
    case ComputeSubmit(_) => ComputeTraced(H, c, more, s, e);
    case Issue(id) => IssueTraced(H, c, more, s, id);
    case LoadSubmit(id) => assert FlightTraced(more, id, s.flights[id].0, s.flights[id].1);
    case Store(id) => assert FlightTraced(more, id, s.flights[id].0, s.flights[id].1);
    case _ =>
  }

  lemma {:induction false} RunTraced(H: Hash, c: Config, clock: int, events: seq<Event>)
    requires IsRun(H, c, clock, events)
    ensures Traced(events, After(H, c, clock, events))
    decreases |events|
  {
    if events != [] {
      var n := |events| - 1;
      RunTraced(H, c, clock, events[..n]);
      var s := After(H, c, clock, events[..n]);
      StepTraced(H, c, events[..n], s, events[n]);
      assert After(H, c, clock, events) == Next(H, c, s, events[n]);
      assert events == events[..n] + [events[n]];
    }
  }

  // ------------------------------------------------------------ the theorems

  /** A challenge is opened once, so for one provider. */
  lemma {:induction false} OpenedOnce(H: Hash, c: Config, clock: int, events: seq<Event>, challengeId: Digest,
                                      p: Address, q: Address)
    requires IsRun(H, c, clock, events)
    requires OpenedFor(events, challengeId, p) && OpenedFor(events, challengeId, q)
    ensures p == q
    decreases |events|
  {
    var n := |events| - 1;
    var i :| 0 <= i < |events| && Opens(events[i], challengeId, p);
    var j :| 0 <= j < |events| && Opens(events[j], challengeId, q);
    if i < n && j < n {
      assert Opens(events[..n][i], challengeId, p) && Opens(events[..n][j], challengeId, q);
      OpenedOnce(H, c, clock, events[..n], challengeId, p, q);
    } else if i < n {
      OpenedIsKept(H, c, clock, events[..n], i);
    } else if j < n {
      OpenedIsKept(H, c, clock, events[..n], j);
    }
  }

  lemma {:induction false} OpenedStaysKnown(H: Hash, c: Config, s: System, e: Event, challengeId: Digest)
    requires Enabled(H, c, s, e) && (challengeId in s.h.openedAt || (e.Open? && e.challengeId == challengeId))
    ensures challengeId in Next(H, c, s, e).h.openedAt
  {
  }

  lemma {:induction false} OpenedIsKept(H: Hash, c: Config, clock: int, events: seq<Event>, i: nat)
    requires IsRun(H, c, clock, events) && i < |events| && events[i].Open?
    ensures events[i].challengeId in After(H, c, clock, events).h.openedAt
    decreases |events|
  {
    var n := |events| - 1;
    var s := After(H, c, clock, events[..n]);
    if i < n {
      OpenedIsKept(H, c, clock, events[..n], i);
    }
    OpenedStaysKnown(H, c, s, events[n], events[i].challengeId);
    assert After(H, c, clock, events) == Next(H, c, s, events[n]);
  }

  /** Every logged verification is of proofs its challenge's provider signed. */
  lemma {:induction false} VerifiedWasSigned(H: Hash, c: Config, clock: int, events: seq<Event>, v: Verified)
    returns (id: nat, sub: Submission)
    requires IsRun(H, c, clock, events) && v in After(H, c, clock, events).h.log
    ensures sub.proofs == v.proofs && CameIn(events, id, v.challengeId, v.lane, sub)
    ensures OpenedFor(events, v.challengeId, sub.signer)
  {
    RunTraced(H, c, clock, events);
    assert OwnerProved(events, v);
    id, sub :| Owned(events, id, v.challengeId, v.lane, sub) && sub.proofs == v.proofs;
  }

  /** A request that drops a challenge is a submission its provider signed. */
  lemma {:induction false} DropWasSigned(H: Hash, c: Config, clock: int, events: seq<Event>, k: nat, id: nat)
    returns (lane: nat, sub: Submission)
    requires IsRun(H, c, clock, events) && k < |events| && events[k] == Drop(id)
    ensures IsRun(H, c, clock, events[..k]) && id in After(H, c, clock, events[..k]).flights
    ensures var challengeId := After(H, c, clock, events[..k]).flights[id].0;
      CameIn(events[..k], id, challengeId, lane, sub) && OpenedFor(events[..k], challengeId, sub.signer)
    decreases |events|
  {
    var n := |events| - 1;
    if k < n {
      assert events[..n][..k] == events[..k];
      lane, sub := DropWasSigned(H, c, clock, events[..n], k, id);
    } else {
      RunTraced(H, c, clock, events[..n]);
      var s := After(H, c, clock, events[..n]);
      assert FlightTraced(events[..n], id, s.flights[id].0, s.flights[id].1);
      lane, sub :| Owned(events[..n], id, s.flights[id].0, lane, sub);
    }
  }

  /** An attestation names the provider its challenge was opened for, which signed a submission on it. */
  lemma {:induction false} AttestationWasSigned(H: Hash, c: Config, clock: int, events: seq<Event>, k: nat)
    returns (id: nat, lane: nat, sub: Submission)
    requires IsRun(H, c, clock, events) && k < |After(H, c, clock, events).issued|
    ensures var a := After(H, c, clock, events).issued[k].attestation;
      && sub.signer == a.providerId && OpenedFor(events, a.challengeId, a.providerId)
      && CameIn(events, id, a.challengeId, lane, sub)
  {
    RunTraced(H, c, clock, events);
    var a := After(H, c, clock, events).issued[k].attestation;
    assert IssuedTraced(events, a);
    id :| OwnerActed(events, id, a.challengeId);
    lane, sub :| Owned(events, id, a.challengeId, lane, sub);
    OpenedOnce(H, c, clock, events, a.challengeId, sub.signer, a.providerId);
  }
}
