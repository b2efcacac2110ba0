/** The search's freshness filter against the store's own notion of a live offer. */
module MarketSearch {
  import opened Hashing
  import opened Chain
  import opened OfferStore
  import opened Market
  import opened MarketRuns
  import opened Query

  /** The candidate row the search builds for an offer of the market. */
  function CandidateOf(m: State, id: OfferId, scoreFull: int, scoreSingle: int, now: int): Candidate
    requires id in m.offers
  {
    Candidate(id, m.offers[id].intervalSec, scoreFull, scoreSingle, GetTerms(m.store, id, now),
      IsBusy(m.store, id, now))
  }

  /** What the search knows of an offer it keeps: its own scores, and terms, price and flag as they stand now. */
  lemma {:induction false} SearchSees(f: Filter, m: State, id: OfferId, scoreFull: int, scoreSingle: int, now: int)
    requires id in m.offers
    requires Enrich(f, now, CandidateOf(m, id, scoreFull, scoreSingle, now)).Some?
    ensures var e := Enrich(f, now, CandidateOf(m, id, scoreFull, scoreSingle, now)).value;
      && e.row.id == id && e.row.scoreFull == scoreFull && e.row.scoreSingle == scoreSingle
      && match GetTerms(m.store, id, now)
         case None => !e.live && !e.busy && e.price.None?
         case Some(t) => e.live && (e.busy <==> IsBusy(m.store, id, now)) && e.price == Some(Millionths(t.price))
  {
  }

  /**
   While an offer's interval is the one its terms were accepted under, or longer, freshness=normal
   keeps it exactly while it is live: it is listed by `liveOffers` at that instant.
   */
  lemma {:induction false} NormalIsLive(from: int, events: seq<Timed>, now: int, id: OfferId, full: int, single: int)
    requires IsRun(START, from, events) && Until(from, events) <= now
    requires id in After(START, from, events).offers
    requires forall a :: a in After(START, from, events).accepted && a.id == id ==>
      a.intervalSec <= After(START, from, events).offers[id].intervalSec
    ensures var m := After(START, from, events);
      Enrich(Filter(Normal, All, None), now, CandidateOf(m, id, full, single, now)).Some? <==>
      exists price :: (id, price) in LiveRows(m.store, now)
  {
    var m := After(START, from, events);
    var terms := GetTerms(m.store, id, now);
    if terms.Some? {
      var a := LiveWasAccepted(from, events, now, id);
      IndexAgreement(from, events, now, id, terms.value.price);
    } else {
      forall price ensures (id, price) !in LiveRows(m.store, now) {
        IndexAgreement(from, events, now, id, price);
      }
    }
  }

  /**
   When the interval was changed since, freshness=normal covers the whole life of the terms exactly
   if that life is no longer than twice the present interval plus 30 seconds.
   */
  lemma {:induction false} NormalCoversLifeIff(a: Accepted, intervalSec: nat)
    requires a.terms.receivedAt < a.terms.validUntil
    ensures var life := Ttl(a.terms.validUntil, a.intervalSec, a.terms.receivedAt);
      (forall age :: 0 <= age <= life ==> Fresh(Normal, age, intervalSec)) <==>
      life <= (2 * intervalSec + 30) * 1000
  {
    var life := Ttl(a.terms.validUntil, a.intervalSec, a.terms.receivedAt);
    if life > (2 * intervalSec + 30) * 1000 {
      assert !Fresh(Normal, life, intervalSec);
    }
  }

  // ------------------------------------------------------------ statuses

  datatype Status = Active | Busy | Stale | Expired | Revoked

  /** `offerStatus`, as the offer lookup calls it. */
  function OfferStatus(m: State, id: OfferId, now: int): Status
    requires id in m.offers
  {
    var hasTerms := GetTerms(m.store, id, now).Some?;
    if m.offers[id].revoked then Status.Revoked
    else if m.offers[id].expiresAt <= now then Status.Expired
    else if !hasTerms then Stale
    else if hasTerms && IsBusy(m.store, id, now) then Busy
    else Active
  }

  /** An offer is active or busy exactly when the live index lists it and its own expiry has not passed. */
  lemma {:induction false} StatusIff(from: int, events: seq<Timed>, now: int, id: OfferId)
    requires IsRun(START, from, events) && Until(from, events) <= now
    requires id in After(START, from, events).offers
    ensures var m := After(START, from, events);
      (OfferStatus(m, id, now) in {Active, Busy}) <==>
      ((exists price :: (id, price) in LiveRows(m.store, now)) && m.offers[id].expiresAt > now)
  {
    var m := After(START, from, events);
    RunKeeps(START, from, events);
    var terms := GetTerms(m.store, id, now);
    if terms.Some? {
      IndexAgreement(from, events, now, id, terms.value.price);
    }
    forall price ensures (id, price) in LiveRows(m.store, now) ==> terms.Some? {
      IndexAgreement(from, events, now, id, price);
    }
  }

  /**
   Left to itself, the index will at some later instant list an offer that has expired exactly if the
   lifetime the last heartbeat was given, min(validUntil - now, 2 I + 30 s), reaches the offer's own expiry.
   */
  lemma {:induction false} ListedPastExpiryIff(from: int, events: seq<Timed>, now: int, id: OfferId)
    returns (a: Accepted)
    requires IsRun(START, from, events) && Until(from, events) <= now
    requires id in After(START, from, events).offers && GetTerms(After(START, from, events).store, id, now).Some?
    ensures var m := After(START, from, events);
      && a in m.accepted && a.id == id && a.terms == GetTerms(m.store, id, now).value
      && ((exists t :: now <= t && ListedExpired(m, id, t)) <==>
          m.offers[id].expiresAt <= a.terms.receivedAt + Ttl(a.terms.validUntil, a.intervalSec, a.terms.receivedAt))
  {
    var m := After(START, from, events);
    RunKeeps(START, from, events);
    assert TermsTraced(m, id, Until(from, events));
    var k :| 0 <= k < |m.accepted| && Explains(m.accepted[k], id, m.store.terms[id]);
    a := m.accepted[k];
    var end := m.store.terms[id].expiresAt;
    forall t | now <= t ensures ListedExpired(m, id, t) <==> m.offers[id].expiresAt <= t <= end {
      ListedExpiredMeans(from, events, id, t);
    }
    if m.offers[id].expiresAt <= end {
      var t := if now < m.offers[id].expiresAt then m.offers[id].expiresAt else now;
      assert ListedExpired(m, id, t);
    }
  }

  /** The live index lists the offer at an instant at which its status is expired. */
  ghost predicate ListedExpired(m: State, id: OfferId, t: int)
    requires id in m.offers
  {
    OfferStatus(m, id, t) == Status.Expired && exists price :: (id, price) in LiveRows(m.store, t)
  }

  lemma {:induction false} ListedExpiredMeans(from: int, events: seq<Timed>, id: OfferId, t: int)
    requires IsRun(START, from, events) && Until(from, events) <= t
    requires id in After(START, from, events).offers && id in After(START, from, events).store.terms
    ensures var m := After(START, from, events);
      ListedExpired(m, id, t) <==> m.offers[id].expiresAt <= t <= m.store.terms[id].expiresAt
  {
    var m := After(START, from, events);
    RunKeeps(START, from, events);
    IndexAgreement(from, events, t, id, m.store.terms[id].terms.price);
    forall price ensures (id, price) in LiveRows(m.store, t) ==> GetTerms(m.store, id, t).Some? {
      IndexAgreement(from, events, t, id, price);
    }
  }

  /**
   The index by itself does not look at an offer's own expiry: here is a run after which an expired
   offer is still listed, because its last heartbeat's lifetime reaches past the offer's.
   */
  lemma {:induction false} ExpiredCanBeListed(id: OfferId, provider: Address)
    returns (events: seq<Timed>, now: int)
    ensures IsRun(START, 0, events) && Until(0, events) <= now
    ensures id in After(START, 0, events).offers && OfferStatus(After(START, 0, events), id, now) == Status.Expired
    ensures (id, "1") in LiveRows(After(START, 0, events).store, now)
  {
    var row := Row(provider, 10, false, 60);
    var post := TermsPost(provider, id, "GLM", "1", 1, Some(0), Some(1000), None);
    events := [Timed(AddOffer(id, row), 0), Timed(Heartbeat(id, post, false), 5)];
    now := 20;
    var m1 := Next(START, AddOffer(id, row), 0);
    assert WholePart("1");
    assert TermsRefusal(m1, id, post, false, 5).None?;
    var m2 := Next(m1, Heartbeat(id, post, false), 5);
    assert events[1..] == [Timed(Heartbeat(id, post, false), 5)];
    assert events[1..][1..] == [];
    assert IsRun(m2, 5, []);
    assert IsRun(m1, 0, events[1..]);
    assert After(m1, 0, events[1..]) == m2;
    assert After(START, 0, events) == m2;
  }

  /** What each status stands for: revocation and expiry before everything else, then the terms, then the flag. */
  lemma {:induction false} StatusesAre(m: State, id: OfferId, now: int)
    requires id in m.offers
    ensures var s, row, live := OfferStatus(m, id, now), m.offers[id], GetTerms(m.store, id, now).Some?;
      && (s == Status.Revoked <==> row.revoked)
      && (s == Status.Expired <==> !row.revoked && row.expiresAt <= now)
      && (s == Stale <==> !row.revoked && now < row.expiresAt && !live)
      && (s == Busy <==> !row.revoked && now < row.expiresAt && live && IsBusy(m.store, id, now))
      && (s == Active <==> !row.revoked && now < row.expiresAt && live && !IsBusy(m.store, id, now))
  {
  }
}
