/** What holds of the market after any run of its handlers. */
module MarketRuns {
  import opened Hashing
  import opened Chain
  import opened OfferStore
  import opened Market

  datatype Event =
    | AddOffer(id: OfferId, row: Row)
    | SetInterval(id: OfferId, intervalSec: nat)
    | Heartbeat(id: OfferId, terms: TermsPost, limited: bool)
    | Revoke(id: OfferId, revoke: RevokePost)
    | Availability(id: OfferId, avail: AvailPost, limited: bool)
    | ListLive
    | EvictKey(id: OfferId)

  datatype Timed = Timed(event: Event, now: int)

  /** New offers are new and not revoked; a profile update changes the interval of an existing offer. */
  predicate Enabled(m: State, e: Event) {
    match e
    case AddOffer(id, row) => id !in m.offers && !row.revoked
    case SetInterval(id, _) => id in m.offers
    case _ => true
  }

  function Next(m: State, e: Event, now: int): State
    requires Enabled(m, e)
  {
    match e
    case AddOffer(id, row) => m.(offers := m.offers[id := row])
    case SetInterval(id, intervalSec) => m.(offers := m.offers[id := m.offers[id].(intervalSec := intervalSec)])
    case Heartbeat(id, p, limited) => HandleTerms(m, id, p, limited, now).0
    case Revoke(id, p) => HandleRevoke(m, id, p).0
    case Availability(id, p, limited) => HandleAvail(m, id, p, limited, now).0
    case ListLive => m.(store := Prune(m.store, now))
    case EvictKey(id) => m.(store := Evict(m.store, id, now))
  }

  ghost predicate IsRun(m: State, from: int, events: seq<Timed>)
    decreases |events|
  {
    events != [] ==>
    && from <= events[0].now
    && Enabled(m, events[0].event)
    && IsRun(Next(m, events[0].event, events[0].now), events[0].now, events[1..])
  }

  ghost function After(m: State, from: int, events: seq<Timed>): State
    requires IsRun(m, from, events)
    decreases |events|
  {
    if events == [] then m else After(Next(m, events[0].event, events[0].now), events[0].now, events[1..])
  }

  function Until(from: int, events: seq<Timed>): int {
    if events == [] then from else events[|events| - 1].now
  }

  const START := State(map[], EMPTY, [], [])

  // ------------------------------------------------------------ the invariant

  ghost predicate NoEntry(s: Store, id: OfferId) {
    id !in s.terms && id !in s.seqs && id !in s.busy && id !in s.availSeqs && id !in s.live && id !in s.prices
  }

  /** Revoked and unknown offers have no key at all. */
  ghost predicate OnlyCurrent(m: State) {
    forall id :: id !in m.offers || m.offers[id].revoked ==> NoEntry(m.store, id)
  }

  /** Accepted numbers of one offer strictly increase. */
  ghost predicate NumbersGrow(accepted: seq<Accepted>) {
    forall j, k :: 0 <= j < k < |accepted| && accepted[j].id == accepted[k].id ==>
      accepted[j].terms.seqNo < accepted[k].terms.seqNo
  }

  /** Stored terms never carry a number above the counter. */
  ghost predicate BelowCounter(s: Store) {
    forall id :: id in s.terms ==> id in s.seqs && s.terms[id].terms.seqNo <= s.seqs[id]
  }

  /** Until an offer is revoked its counter is at least every accepted number. */
  ghost predicate Counted(m: State) {
    && BelowCounter(m.store)
    && NumbersGrow(m.accepted)
    && forall k :: 0 <= k < |m.accepted| ==> CountedOne(m, m.accepted[k])
  }

  ghost predicate CountedOne(m: State, a: Accepted) {
    && a.id in m.offers
    && (a.id in m.store.seqs ==> a.terms.seqNo <= m.store.seqs[a.id])
    && (!m.offers[a.id].revoked ==> a.id in m.store.seqs)
  }

  /** A heartbeat that explains a stored record: its terms, and a key life of its length. */
  ghost predicate Explains(a: Accepted, id: OfferId, r: Record) {
    && a.id == id && a.terms == r.terms
    && r.terms.receivedAt < r.terms.validUntil
    && r.expiresAt == r.terms.receivedAt + Ttl(r.terms.validUntil, a.intervalSec, r.terms.receivedAt)
  }

  ghost predicate ExplainsBusy(f: Flagged, id: OfferId, expiresAt: int) {
    && f.id == id && f.at < f.validUntil
    && expiresAt == f.at + MinInt(f.validUntil - f.at, MAX_VALIDITY_MS)
  }

  ghost predicate TermsTraced(m: State, id: OfferId, now: int)
    requires id in m.store.terms
  {
    && m.store.terms[id].terms.receivedAt <= now
    && exists k :: 0 <= k < |m.accepted| && Explains(m.accepted[k], id, m.store.terms[id])
  }

  ghost predicate BusyTraced(m: State, id: OfferId, now: int)
    requires id in m.store.busy
  {
    exists k :: 0 <= k < |m.flagged| && m.flagged[k].at <= now && ExplainsBusy(m.flagged[k], id, m.store.busy[id])
  }

  ghost predicate Traced(m: State, now: int) {
    && (forall id :: id in m.store.terms ==> TermsTraced(m, id, now))
    && (forall id :: id in m.store.busy ==> BusyTraced(m, id, now))
  }

  ghost predicate Invariant(m: State, now: int) {
    Agrees(m.store, now) && OnlyCurrent(m) && Counted(m) && Traced(m, now)
  }

  // ------------------------------------------------------------ every event keeps it

  lemma {:induction false} TracedLater(m: State, now: int, later: int)
    requires Traced(m, now) && now <= later
    ensures Traced(m, later)
  {
  }

  /** A trace survives as long as its own record does and the history only grows. */
  lemma {:induction false} TermsTracedStays(m: State, n: State, id: OfferId, now: int)
    requires id in m.store.terms && TermsTraced(m, id, now)
    requires id in n.store.terms && n.store.terms[id] == m.store.terms[id] && m.accepted <= n.accepted
    ensures TermsTraced(n, id, now)
  {
    var k :| 0 <= k < |m.accepted| && Explains(m.accepted[k], id, m.store.terms[id]);
    assert n.accepted[k] == m.accepted[k];
  }

  lemma {:induction false} BusyTracedStays(m: State, n: State, id: OfferId, now: int)
    requires id in m.store.busy && BusyTraced(m, id, now)
    requires id in n.store.busy && n.store.busy[id] == m.store.busy[id] && m.flagged <= n.flagged
    ensures BusyTraced(n, id, now)
  {
    var k :| 0 <= k < |m.flagged| && m.flagged[k].at <= now && ExplainsBusy(m.flagged[k], id, m.store.busy[id]);
    assert n.flagged[k] == m.flagged[k];
  }

  lemma {:induction false} HeartbeatTraced(m: State, id: OfferId, p: TermsPost, limited: bool, now: int)
    requires Traced(m, now) && TermsRefusal(m, id, p, limited, now).None?
    ensures Traced(HandleTerms(m, id, p, limited, now).0, now)
  {
    var n := HandleTerms(m, id, p, limited, now).0;
    forall other | other in n.store.terms ensures TermsTraced(n, other, now) {
      if other == id {
        assert Explains(n.accepted[|m.accepted|], id, n.store.terms[id]);
      } else {
        TermsTracedStays(m, n, other, now);
      }
    }
    forall other | other in n.store.busy ensures BusyTraced(n, other, now) {
      BusyTracedStays(m, n, other, now);
    }
  }

  lemma {:induction false} HeartbeatCounted(m: State, id: OfferId, p: TermsPost, limited: bool, now: int)
    requires Counted(m) && TermsRefusal(m, id, p, limited, now).None?
    ensures Counted(HandleTerms(m, id, p, limited, now).0)
  {
    var n := HandleTerms(m, id, p, limited, now).0;
    forall k | 0 <= k < |n.accepted|
      ensures CountedOne(n, n.accepted[k])
      ensures k < |m.accepted| && n.accepted[k].id == id ==> n.accepted[k].terms.seqNo < p.seqNo
    {
      if k < |m.accepted| {
        assert n.accepted[k] == m.accepted[k];
        assert CountedOne(m, m.accepted[k]);
      }
    }
  }

  lemma {:induction false} HeartbeatAgrees(m: State, id: OfferId, p: TermsPost, limited: bool, now: int)
    requires Agrees(m.store, now) && TermsRefusal(m, id, p, limited, now).None?
    ensures Agrees(HandleTerms(m, id, p, limited, now).0.store, now)
  {
    var t := Terms(p.seqNo, p.price, now, p.validUntil.value);
    SetTermsAgrees(m.store.(seqs := m.store.seqs[id := p.seqNo]), id, t,
      Ttl(t.validUntil, m.offers[id].intervalSec, now), now);
  }

  lemma {:induction false} HeartbeatKeeps(m: State, id: OfferId, p: TermsPost, limited: bool, now: int)
    requires Invariant(m, now)
    ensures Invariant(HandleTerms(m, id, p, limited, now).0, now)
  {
    if TermsRefusal(m, id, p, limited, now).None? {
      HeartbeatAgrees(m, id, p, limited, now);
      HeartbeatCounted(m, id, p, limited, now);
      HeartbeatTraced(m, id, p, limited, now);
    }
  }

  lemma {:induction false} RevokeKeeps(m: State, id: OfferId, p: RevokePost, now: int)
    requires Invariant(m, now)
    ensures Invariant(HandleRevoke(m, id, p).0, now)
  {
    DropAgrees(m.store, id, now);
    var n := HandleRevoke(m, id, p).0;
    forall k | 0 <= k < |n.accepted| ensures CountedOne(n, n.accepted[k]) {
      assert CountedOne(m, m.accepted[k]);
    }
    RevokeTraced(m, id, p, now);
  }

  lemma {:induction false} RevokeTraced(m: State, id: OfferId, p: RevokePost, now: int)
    requires Traced(m, now)
    ensures Traced(HandleRevoke(m, id, p).0, now)
  {
    var n := HandleRevoke(m, id, p).0;
    forall other | other in n.store.busy ensures BusyTraced(n, other, now) {
      BusyTracedStays(m, n, other, now);
    }
    forall other | other in n.store.terms ensures TermsTraced(n, other, now) {
      TermsTracedStays(m, n, other, now);
    }
  }

  lemma {:induction false} AvailabilityTraced(m: State, id: OfferId, p: AvailPost, limited: bool, now: int)
    requires Traced(m, now)
    ensures Traced(HandleAvail(m, id, p, limited, now).0, now)
  {
    var n := HandleAvail(m, id, p, limited, now).0;
    forall other | other in n.store.busy ensures BusyTraced(n, other, now) {
      if n.flagged != m.flagged && other == id {
        assert ExplainsBusy(n.flagged[|m.flagged|], id, n.store.busy[id]);
      } else {
        BusyTracedStays(m, n, other, now);
      }
    }
    forall other | other in n.store.terms ensures TermsTraced(n, other, now) {
      TermsTracedStays(m, n, other, now);
    }
  }

  lemma {:induction false} AvailabilityCounted(m: State, id: OfferId, p: AvailPost, limited: bool, now: int)
    requires Counted(m)
    ensures Counted(HandleAvail(m, id, p, limited, now).0)
  {
    var n := HandleAvail(m, id, p, limited, now).0;
    forall k | 0 <= k < |n.accepted| ensures CountedOne(n, n.accepted[k]) {
      assert CountedOne(m, m.accepted[k]);
    }
  }

  lemma {:induction false} AvailabilityAgrees(m: State, id: OfferId, p: AvailPost, limited: bool, now: int)
    requires Agrees(m.store, now)
    ensures Agrees(HandleAvail(m, id, p, limited, now).0.store, now)
  {
  }

  lemma {:induction false} AvailabilityCurrent(m: State, id: OfferId, p: AvailPost, limited: bool, now: int)
    requires OnlyCurrent(m)
    ensures OnlyCurrent(HandleAvail(m, id, p, limited, now).0)
  {
  }

  lemma {:induction false} AvailabilityKeeps(m: State, id: OfferId, p: AvailPost, limited: bool, now: int)
    requires Invariant(m, now)
    ensures Invariant(HandleAvail(m, id, p, limited, now).0, now)
  {
    AvailabilityAgrees(m, id, p, limited, now);
    AvailabilityCurrent(m, id, p, limited, now);
    AvailabilityCounted(m, id, p, limited, now);
    AvailabilityTraced(m, id, p, limited, now);
  }

  lemma {:induction false} StepKeeps(m: State, e: Event, now: int)
    requires Invariant(m, now) && Enabled(m, e)
    ensures Invariant(Next(m, e, now), now)
  {
    match e
    case AddOffer(_, _) =>
    case SetInterval(_, _) =>
    case Heartbeat(id, p, limited) => HeartbeatKeeps(m, id, p, limited, now);
    case Revoke(id, p) => RevokeKeeps(m, id, p, now);
    case Availability(id, p, limited) => AvailabilityKeeps(m, id, p, limited, now);
    case ListLive => PruneAgrees(m.store, now);
    case EvictKey(id) => EvictAgrees(m.store, id, now);
  }

  lemma {:induction false} RunKeeps(m: State, from: int, events: seq<Timed>)
    requires Invariant(m, from) && IsRun(m, from, events)
    ensures Invariant(After(m, from, events), Until(from, events))
    decreases |events|
  {
    if events != [] {
      var now := events[0].now;
      AgreesLater(m.store, from, now);
      TracedLater(m, from, now);
      StepKeeps(m, events[0].event, now);
      RunKeeps(Next(m, events[0].event, now), now, events[1..]);
    }
  }

  // ------------------------------------------------------------ the theorems

  /** After any run, at any later instant, the live index and the readable terms agree, price by price. */
  lemma {:induction false} IndexAgreement(from: int, events: seq<Timed>, now: int, id: OfferId, price: string)
    requires IsRun(START, from, events) && Until(from, events) <= now
    ensures var s := After(START, from, events).store;
      (id, price) in LiveRows(s, now) <==> GetTerms(s, id, now).Some? && GetTerms(s, id, now).value.price == price
  {
    RunKeeps(START, from, events);
    var s := After(START, from, events).store;
    AgreesLater(s, Until(from, events), now);
    LiveRowsAreReadableTerms(s, now, id, price);
  }

  /** Accepted numbers of one offer strictly increase, and stored terms never run ahead of the counter. */
  lemma {:induction false} NumbersIncrease(from: int, events: seq<Timed>)
    requires IsRun(START, from, events)
    ensures var m := After(START, from, events);
      NumbersGrow(m.accepted) && BelowCounter(m.store)
  {
    RunKeeps(START, from, events);
  }

  lemma {:induction false} RevokedStep(m: State, e: Event, now: int, id: OfferId)
    requires Enabled(m, e) && id in m.offers && m.offers[id].revoked
    ensures id in Next(m, e, now).offers && Next(m, e, now).offers[id].revoked
    ensures forall k :: |m.accepted| <= k < |Next(m, e, now).accepted| ==> Next(m, e, now).accepted[k].id != id
    ensures m.accepted <= Next(m, e, now).accepted
  {
  }

  /** Once revoked, an offer never has a key again and no heartbeat for it is accepted, though its counters are gone. */
  lemma {:induction false} RevokedForever(m: State, from: int, events: seq<Timed>, id: OfferId)
    requires Invariant(m, from) && IsRun(m, from, events)
    requires id in m.offers && m.offers[id].revoked
    ensures var n := After(m, from, events);
      && NoEntry(n.store, id)
      && m.accepted <= n.accepted
      && forall k :: |m.accepted| <= k < |n.accepted| ==> n.accepted[k].id != id
    decreases |events|
  {
    RunKeeps(m, from, events);
    if events != [] {
      var now := events[0].now;
      AgreesLater(m.store, from, now);
      TracedLater(m, from, now);
      StepKeeps(m, events[0].event, now);
      RevokedStep(m, events[0].event, now, id);
      RevokedForever(Next(m, events[0].event, now), now, events[1..], id);
    }
  }

  /** So after any run, a successful revocation, and any further run, nothing of the offer is left or accepted. */
  lemma {:induction false} RevocationLasts(from: int, before: seq<Timed>, id: OfferId, p: RevokePost, at: int,
                                           later: seq<Timed>)
    requires IsRun(START, from, before) && Until(from, before) <= at
    requires HandleRevoke(After(START, from, before), id, p).1.None?
    requires IsRun(HandleRevoke(After(START, from, before), id, p).0, at, later)
    ensures var m := After(START, from, before);
      var n := After(HandleRevoke(m, id, p).0, at, later);
      && NoEntry(n.store, id)
      && m.accepted <= n.accepted
      && forall k :: |m.accepted| <= k < |n.accepted| ==> n.accepted[k].id != id
  {
    var m := After(START, from, before);
    RunKeeps(START, from, before);
    AgreesLater(m.store, Until(from, before), at);
    TracedLater(m, Until(from, before), at);
    RevokeKeeps(m, id, p, at);
    RevokedForever(HandleRevoke(m, id, p).0, at, later, id);
  }

  /** A refused availability post changes nothing exactly when one of the checks before its number is stored failed. */
  lemma {:induction false} RefusedAvailabilityIff(m: State, id: OfferId, p: AvailPost, limited: bool, now: int)
    requires HandleAvail(m, id, p, limited, now).1.Some?
    ensures HandleAvail(m, id, p, limited, now).0 == m <==> AvailRefusal(m, id, p, limited, now).Some?
    ensures AvailRefusal(m, id, p, limited, now).None? ==>
      && !p.available && p.validUntil.value <= now
      && AvailRefusal(HandleAvail(m, id, p, limited, now).0, id, p, limited, now) == Some(SeqRegression)
  {
    var n := HandleAvail(m, id, p, limited, now).0;
    if AvailRefusal(m, id, p, limited, now).None? {
      assert id in n.store.availSeqs && n.store.availSeqs[id] == p.seqNo;
      assert id in m.store.availSeqs ==> m.store.availSeqs[id] < p.seqNo;
    }
  }

  /** Such a post: a taken flag for an instant already past, after which the number it carries is used up. */
  lemma {:induction false} PastFlagUsesNumber(id: OfferId, provider: Address) returns (m: State, p: AvailPost)
    ensures HandleAvail(m, id, p, false, 10).1 == Some(Validation)
    ensures id !in m.store.availSeqs && id in HandleAvail(m, id, p, false, 10).0.store.availSeqs
    ensures HandleAvail(HandleAvail(m, id, p, false, 10).0, id, p, false, 10).1 == Some(SeqRegression)
  {
    m := START.(offers := map[id := Row(provider, 20, false, 60)]);
    p := AvailPost(provider, id, false, 1, Some(5), Some(10));
    RefusedAvailabilityIff(m, id, p, false, 10);
  }

  // ------------------------------------------------------------ with the awaits of a heartbeat

  /**
   A heartbeat checks the offer and writes its terms at different steps. Where a revocation is handled in
   between, the write brings readable, listed terms to a revoked offer.
   */
  lemma {:induction false} WriteAfterRevocation(m: State, id: OfferId, p: TermsPost, r: RevokePost, now: int)
    requires TermsRefusal(m, id, p, false, now).None? && HandleRevoke(m, id, r).1.None?
    ensures var n := WriteTerms(HandleRevoke(m, id, r).0, id, p, m.offers[id].intervalSec, now);
      && id in n.offers && n.offers[id].revoked
      && GetTerms(n.store, id, now).Some? && (id, p.price) in LiveRows(n.store, now)
  {
    var n := WriteTerms(HandleRevoke(m, id, r).0, id, p, m.offers[id].intervalSec, now);
    assert Ttl(p.validUntil.value, m.offers[id].intervalSec, now) > 0;
    assert id in n.store.live && now <= n.store.live[id] && n.store.prices[id] == p.price;
  }

  /** The write keeps revoked offers without keys exactly if the offer is not revoked when it is made. */
  lemma {:induction false} WriteKeepsCurrentIff(m: State, id: OfferId, p: TermsPost, intervalSec: nat, now: int)
    requires OnlyCurrent(m) && p.seqNo >= 0 && p.validUntil.Some?
    ensures OnlyCurrent(WriteTerms(m, id, p, intervalSec, now)) <==> id in m.offers && !m.offers[id].revoked
  {
    var n := WriteTerms(m, id, p, intervalSec, now);
    assert id in n.store.terms;
    if !(id in m.offers && !m.offers[id].revoked) {
      assert !NoEntry(n.store, id);
    }
  }

  /**
   An offer whose terms are readable at now was accepted at some earlier instant, and no longer ago
   than the terms' own validity and twice the interval then declared plus 30 seconds.
   */
  lemma {:induction false} LiveWasAccepted(from: int, events: seq<Timed>, now: int, id: OfferId) returns (a: Accepted)
    requires IsRun(START, from, events) && Until(from, events) <= now
    requires GetTerms(After(START, from, events).store, id, now).Some?
    ensures a in After(START, from, events).accepted && a.id == id
    ensures a.terms == GetTerms(After(START, from, events).store, id, now).value
    ensures a.terms.receivedAt <= now <=
      a.terms.receivedAt + MinInt(a.terms.validUntil - a.terms.receivedAt, (2 * a.intervalSec + 30) * 1000)
  {
    RunKeeps(START, from, events);
    var m := After(START, from, events);
    assert TermsTraced(m, id, Until(from, events));
    var k :| 0 <= k < |m.accepted| && Explains(m.accepted[k], id, m.store.terms[id]);
    a := m.accepted[k];
  }

  /** A busy flag at now traces to a post at most an hour ago whose validUntil has not passed. */
  lemma {:induction false} BusyWasFlagged(from: int, events: seq<Timed>, now: int, id: OfferId) returns (f: Flagged)
    requires IsRun(START, from, events) && Until(from, events) <= now
    requires IsBusy(After(START, from, events).store, id, now)
    ensures f in After(START, from, events).flagged && f.id == id
    ensures f.at <= now <= f.at + MAX_VALIDITY_MS && now <= f.validUntil
  {
    RunKeeps(START, from, events);
    var m := After(START, from, events);
    assert BusyTraced(m, id, Until(from, events));
    var k :| 0 <= k < |m.flagged| && m.flagged[k].at <= Until(from, events)
      && ExplainsBusy(m.flagged[k], id, m.store.busy[id]);
    f := m.flagged[k];
  }
}
