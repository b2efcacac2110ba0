/** What the offer handlers answer and leave behind, said without the checks and lifetimes they are built from. */
module MarketAnswers {
  import opened Hashing
  import opened OfferStore
  import opened Market
  import opened MarketRuns

  // ------------------------------------------------------------ prices

  predicate IsDigits(s: string) { s != "" && forall c :: c in s ==> c in "0123456789" }

  /** Digits without a leading zero, or 0 itself. */
  predicate IsWhole(s: string) { IsDigits(s) && (s == "0" || s[0] != '0') }

  /** A whole part, alone or followed by a point and decimals. */
  ghost predicate IsPrice(s: string) {
    IsWhole(s) || exists whole, decimals :: IsWhole(whole) && IsDigits(decimals) && s == whole + "." + decimals
  }

  lemma {:induction false} DigitsIff(s: string)
    ensures s != "" && AllDigits(s) <==> IsDigits(s)
  {
    if AllDigits(s) {
      forall c | c in s ensures c in "0123456789" {
        DigitIs(c);
      }
    }
    if IsDigits(s) {
      forall i | 0 <= i < |s| ensures '0' <= s[i] <= '9' {
        assert s[i] in s;
        DigitIs(s[i]);
      }
    }
  }

  lemma {:induction false} DigitIs(c: char)
    ensures c in "0123456789" <==> '0' <= c <= '9'
  {
    var d := "0123456789";
    if '0' <= c <= '9' {
      assert d[c as int - '0' as int] == c;
    }
  }

  lemma {:induction false} WholeIff(s: string)
    ensures WholePart(s) <==> IsWhole(s)
  {
    DigitsIff(s);
  }

  lemma {:induction false} PointIsPrice(s: string, k: nat)
    requires 0 < k < |s| - 1 && s[k] == '.' && WholePart(s[..k]) && AllDigits(s[k + 1..])
    ensures IsPrice(s)
  {
    var whole, decimals := s[..k], s[k + 1..];
    WholeIff(whole);
    DigitsIff(decimals);
    assert IsWhole(whole) && IsDigits(decimals) && s == whole + "." + decimals;
  }

  lemma {:induction false} ValidIsPrice(s: string)
    requires ValidPrice(s)
    ensures IsPrice(s)
  {
    if WholePart(s) {
      WholeIff(s);
    } else {
      var k :| 0 < k < |s| - 1 && s[k] == '.' && WholePart(s[..k]) && AllDigits(s[k + 1..]);
      PointIsPrice(s, k);
    }
  }

  lemma {:induction false} PriceIsValid(s: string, whole: string, decimals: string)
    requires IsWhole(whole) && IsDigits(decimals) && s == whole + "." + decimals && |s| <= 8
    ensures ValidPrice(s)
  {
    WholeIff(whole);
    DigitsIff(decimals);
    var k := |whole|;
    assert s[k] == '.' && s[..k] == whole && s[k + 1..] == decimals;
  }

  /** Prices are decimal numbers as text, without sign, exponent or leading zeros, of at most 8 characters. */
  lemma {:induction false} ValidPriceIff(s: string)
    ensures ValidPrice(s) <==> |s| <= 8 && IsPrice(s)
  {
    if ValidPrice(s) {
      ValidIsPrice(s);
    }
    if |s| <= 8 && IsPrice(s) {
      WholeIff(s);
      if !IsWhole(s) {
        var whole, decimals :| IsWhole(whole) && IsDigits(decimals) && s == whole + "." + decimals;
        PriceIsValid(s, whole, decimals);
      }
    }
  }

  // ------------------------------------------------------------ heartbeats

  /** The offer takes heartbeats now, and the call is within the rate limit. */
  predicate Open(m: State, id: OfferId, limited: bool, now: int) {
    id in m.offers && !limited && !m.offers[id].revoked && now < m.offers[id].expiresAt
  }

  /** The heartbeat's own content: for this offer, in this market's unit, at a price, with a safe number. */
  ghost predicate Sound(id: OfferId, p: TermsPost) {
    && p.offerId == id && p.unit == "GLM" && |p.price| <= 8 && IsPrice(p.price)
    && 0 <= p.seqNo <= 9_007_199_254_740_991
    && p.signedAt.Some? && p.validUntil.Some?
  }

  /** Signed at most two minutes ahead of now. */
  predicate NotAhead(signedAt: int, now: int) { signedAt <= now + 120_000 }

  /** Valid for at most an hour from its signing. */
  predicate NotTooLong(signedAt: int, validUntil: int) { validUntil - signedAt <= 3_600_000 }

  predicate Newer(m: State, id: OfferId, seqNo: int) { id in m.store.seqs ==> m.store.seqs[id] < seqNo }

  /** A heartbeat is accepted exactly if the offer is open and its provider signed a sound, timely and newer one. */
  lemma {:induction false} HeartbeatAcceptedIff(m: State, id: OfferId, p: TermsPost, limited: bool, now: int)
    ensures HandleTerms(m, id, p, limited, now).1.None? <==>
      && Open(m, id, limited, now) && p.signer == m.offers[id].provider && Sound(id, p)
      && NotAhead(p.signedAt.value, now) && NotTooLong(p.signedAt.value, p.validUntil.value)
      && now < p.validUntil.value && (p.coresFree.Some? ==> p.coresFree.value >= 0)
      && Newer(m, id, p.seqNo)
    ensures HandleTerms(m, id, p, limited, now).1.Some? ==> HandleTerms(m, id, p, limited, now).0 == m
  {
    ValidPriceIff(p.price);
  }

  /** Which error a refused heartbeat gets. */
  lemma {:induction false} HeartbeatErrors(m: State, id: OfferId, p: TermsPost, limited: bool, now: int)
    ensures var e := HandleTerms(m, id, p, limited, now).1;
      && (e == Some(UnknownOffer) <==> id !in m.offers)
      && (e == Some(RateLimited) <==> id in m.offers && limited)
      && (e == Some(Revoked) <==> id in m.offers && !limited && m.offers[id].revoked)
      && (e == Some(Expired) <==> id in m.offers && !limited && !m.offers[id].revoked && m.offers[id].expiresAt <= now)
      && (e == Some(SigMismatch) <==> Open(m, id, limited, now) && p.signer != m.offers[id].provider)
      && (e == Some(TermsTooLong) <==>
            && Open(m, id, limited, now) && p.signer == m.offers[id].provider && Sound(id, p)
            && NotAhead(p.signedAt.value, now) && !NotTooLong(p.signedAt.value, p.validUntil.value))
      && (e == Some(SeqRegression) <==>
            && Open(m, id, limited, now) && p.signer == m.offers[id].provider && Sound(id, p)
            && NotAhead(p.signedAt.value, now) && NotTooLong(p.signedAt.value, p.validUntil.value)
            && now < p.validUntil.value && (p.coresFree.Some? ==> p.coresFree.value >= 0)
            && !Newer(m, id, p.seqNo))
  {
    ValidPriceIff(p.price);
  }

  // ------------------------------------------------------------ how long terms last

  /** Events that neither post terms for the offer nor revoke it. */
  ghost predicate LeaveTerms(events: seq<Timed>, id: OfferId) {
    forall k :: 0 <= k < |events| ==>
      !(events[k].event.Heartbeat? && events[k].event.id == id)
        && !(events[k].event.Revoke? && events[k].event.id == id)
  }

  /** The record is still stored, or it has been removed after its end. */
  predicate TermsKept(s: Store, id: OfferId, r: Record, now: int) {
    if id in s.terms then s.terms[id] == r else r.expiresAt < now
  }

  lemma {:induction false} StepKeepsTerms(m: State, e: Event, id: OfferId, r: Record, from: int, now: int)
    requires Enabled(m, e) && from <= now && TermsKept(m.store, id, r, from)
    requires !(e.Heartbeat? && e.id == id) && !(e.Revoke? && e.id == id)
    ensures TermsKept(Next(m, e, now).store, id, r, now)
  {
  }

  lemma {:induction false} RunKeepsTerms(m: State, from: int, events: seq<Timed>, id: OfferId, r: Record)
    requires IsRun(m, from, events) && LeaveTerms(events, id) && TermsKept(m.store, id, r, from)
    ensures TermsKept(After(m, from, events).store, id, r, Until(from, events)) && from <= Until(from, events)
    decreases |events|
  {
    if events != [] {
      var now := events[0].now;
      StepKeepsTerms(m, events[0].event, id, r, from, now);
      RunKeepsTerms(Next(m, events[0].event, now), now, events[1..], id, r);
    }
  }

  /**
   After an accepted heartbeat, until the next one or a revocation, its terms can be read exactly until they
   expire or twice the interval and 30 seconds have passed, whichever comes first.
   */
  lemma {:induction false} TermsLast(m: State, id: OfferId, p: TermsPost, limited: bool, now: int, events: seq<Timed>,
                                     t: int)
    requires HandleTerms(m, id, p, limited, now).1.None?
    requires IsRun(HandleTerms(m, id, p, limited, now).0, now, events) && LeaveTerms(events, id)
    requires Until(now, events) <= t
    ensures id in m.offers && p.validUntil.Some? && p.seqNo >= 0
    ensures var s := After(HandleTerms(m, id, p, limited, now).0, now, events).store;
      GetTerms(s, id, t) ==
      if t <= p.validUntil.value && t <= now + 2000 * m.offers[id].intervalSec + 30_000
      then Some(Terms(p.seqNo, p.price, now, p.validUntil.value)) else None
  {
    var n := HandleTerms(m, id, p, limited, now).0;
    var r := n.store.terms[id];
    assert r.terms == Terms(p.seqNo, p.price, now, p.validUntil.value);
    RunKeepsTerms(n, now, events, id, r);
  }

  /** For that long, and no longer, the offer is listed, at the heartbeat's price. */
  lemma {:induction false} ListedAsLong(m: State, id: OfferId, p: TermsPost, limited: bool, now: int,
                                        events: seq<Timed>, t: int, price: string)
    requires Invariant(m, now) && HandleTerms(m, id, p, limited, now).1.None?
    requires IsRun(HandleTerms(m, id, p, limited, now).0, now, events) && LeaveTerms(events, id)
    requires Until(now, events) <= t
    ensures id in m.offers && p.validUntil.Some?
    ensures (id, price) in LiveRows(After(HandleTerms(m, id, p, limited, now).0, now, events).store, t) <==>
      price == p.price && t <= p.validUntil.value && t <= now + 2000 * m.offers[id].intervalSec + 30_000
  {
    var n := HandleTerms(m, id, p, limited, now).0;
    HeartbeatKeeps(m, id, p, limited, now);
    RunKeeps(n, now, events);
    TermsLast(m, id, p, limited, now, events, t);
    var s := After(n, now, events).store;
    AgreesLater(s, Until(now, events), t);
    LiveRowsAreReadableTerms(s, t, id, price);
  }

  // ------------------------------------------------------------ revocation

  /** An offer is revoked exactly by its own provider, and then has nothing stored; else nothing changes. */
  lemma {:induction false} RevokedIff(m: State, id: OfferId, p: RevokePost)
    ensures var (n, e) := HandleRevoke(m, id, p);
      && (e.None? <==> id in m.offers && p.signer == m.offers[id].provider && p.offerId == id && p.signedAt.Some?)
      && (e.Some? ==> n == m)
      && (e == Some(UnknownOffer) <==> id !in m.offers)
      && (e == Some(SigMismatch) <==> id in m.offers && p.signer != m.offers[id].provider)
      && (e.None? ==>
            && n.offers == m.offers[id := Row(m.offers[id].provider, m.offers[id].expiresAt, true,
              m.offers[id].intervalSec)]
            && NoEntry(n.store, id))
  {
  }

  /** The offer's number counters are as they were. */
  predicate CountersKept(s: Store, n: Store, id: OfferId) {
    && (id in n.seqs <==> id in s.seqs) && (id in s.seqs ==> n.seqs[id] == s.seqs[id])
    && (id in n.availSeqs <==> id in s.availSeqs) && (id in s.availSeqs ==> n.availSeqs[id] == s.availSeqs[id])
  }

  /** Other offers keep everything they have. */
  lemma {:induction false} RevokeSparesOthers(m: State, id: OfferId, p: RevokePost, other: OfferId, now: int)
    requires other != id
    ensures var n := HandleRevoke(m, id, p).0;
      && GetTerms(n.store, other, now) == GetTerms(m.store, other, now)
      && IsBusy(n.store, other, now) == IsBusy(m.store, other, now)
      && CountersKept(m.store, n.store, other)
      && (other in n.offers <==> other in m.offers) && (other in m.offers ==> n.offers[other] == m.offers[other])
  {
  }

  // ------------------------------------------------------------ the busy hint

  predicate AvailSound(id: OfferId, p: AvailPost, now: int) {
    && p.offerId == id && 0 <= p.seqNo <= 9_007_199_254_740_991
    && p.signedAt.Some? && p.validUntil.Some?
    && NotAhead(p.signedAt.value, now) && NotTooLong(p.signedAt.value, p.validUntil.value)
  }

  predicate AvailNewer(m: State, id: OfferId, seqNo: int) { id in m.store.availSeqs ==> m.store.availSeqs[id] < seqNo }

  /** A busy or free hint is accepted exactly from the provider of an open offer; a busy one must end in the future. */
  lemma {:induction false} HintAcceptedIff(m: State, id: OfferId, p: AvailPost, limited: bool, now: int)
    ensures HandleAvail(m, id, p, limited, now).1.None? <==>
      && Open(m, id, limited, now) && p.signer == m.offers[id].provider && AvailSound(id, p, now)
      && AvailNewer(m, id, p.seqNo) && (!p.available ==> now < p.validUntil.value)
  {
  }

  lemma {:induction false} HintErrors(m: State, id: OfferId, p: AvailPost, limited: bool, now: int)
    ensures var e := HandleAvail(m, id, p, limited, now).1;
      && (e == Some(UnknownOffer) <==> id !in m.offers)
      && (e == Some(RateLimited) <==> id in m.offers && limited)
      && (e == Some(Revoked) <==> id in m.offers && !limited && m.offers[id].revoked)
      && (e == Some(Expired) <==> id in m.offers && !limited && !m.offers[id].revoked && m.offers[id].expiresAt <= now)
      && (e == Some(SigMismatch) <==> Open(m, id, limited, now) && p.signer != m.offers[id].provider)
      && (e == Some(SeqRegression) <==>
            && Open(m, id, limited, now) && p.signer == m.offers[id].provider && AvailSound(id, p, now)
            && !AvailNewer(m, id, p.seqNo))
  {
  }

  ghost predicate LeaveFlag(events: seq<Timed>, id: OfferId) {
    forall k :: 0 <= k < |events| ==>
      && !(events[k].event.Availability? && events[k].event.id == id)
      && !(events[k].event.Revoke? && events[k].event.id == id)
  }

  /** The flag stands until end, or was removed after it. */
  predicate FlagKept(s: Store, id: OfferId, end: int, now: int) {
    if id in s.busy then s.busy[id] == end else end < now
  }

  lemma {:induction false} StepKeepsFlag(m: State, e: Event, id: OfferId, end: int, from: int, now: int)
    requires Enabled(m, e) && from <= now && FlagKept(m.store, id, end, from)
    requires !(e.Availability? && e.id == id) && !(e.Revoke? && e.id == id)
    ensures FlagKept(Next(m, e, now).store, id, end, now)
  {
  }

  lemma {:induction false} RunKeepsFlag(m: State, from: int, events: seq<Timed>, id: OfferId, end: int)
    requires IsRun(m, from, events) && LeaveFlag(events, id) && FlagKept(m.store, id, end, from)
    ensures FlagKept(After(m, from, events).store, id, end, Until(from, events)) && from <= Until(from, events)
    decreases |events|
  {
    if events != [] {
      var now := events[0].now;
      StepKeepsFlag(m, events[0].event, id, end, from, now);
      RunKeepsFlag(Next(m, events[0].event, now), now, events[1..], id, end);
    }
  }

  /**
   After an accepted hint, until the next one or a revocation, the offer is busy exactly if the hint said so,
   for as long as it said and no longer than an hour.
   */
  lemma {:induction false} FlagLasts(m: State, id: OfferId, p: AvailPost, limited: bool, now: int, events: seq<Timed>,
                                     t: int)
    requires HandleAvail(m, id, p, limited, now).1.None?
    requires IsRun(HandleAvail(m, id, p, limited, now).0, now, events) && LeaveFlag(events, id)
    requires Until(now, events) <= t
    ensures p.validUntil.Some?
    ensures IsBusy(After(HandleAvail(m, id, p, limited, now).0, now, events).store, id, t) <==>
      !p.available && t <= p.validUntil.value && t <= now + 3_600_000
  {
    var n := HandleAvail(m, id, p, limited, now).0;
    RunKeepsFlag(n, now, events, id, if p.available then now - 1 else n.store.busy[id]);
  }

  // ------------------------------------------------------------ terms and flags are the offer's own

  /** A heartbeat leaves flags and other offers alone; an accepted one leaves its number in the offer's counter. */
  lemma {:induction false} HeartbeatSpares(m: State, id: OfferId, p: TermsPost, limited: bool, now: int, other: OfferId,
                                           t: int)
    ensures var n := HandleTerms(m, id, p, limited, now).0;
      && (other != id ==>
            GetTerms(n.store, other, t) == GetTerms(m.store, other, t) && CountersKept(m.store, n.store, other))
      && IsBusy(n.store, other, t) == IsBusy(m.store, other, t) && n.offers == m.offers
    ensures var (n, e) := HandleTerms(m, id, p, limited, now);
      n.store.availSeqs == m.store.availSeqs && (e.None? ==> id in n.store.seqs && n.store.seqs[id] == p.seqNo)
  {
  }

  /** A hint leaves terms and other offers alone; an accepted one leaves its number in the hints' own counter. */
  lemma {:induction false} HintSpares(m: State, id: OfferId, p: AvailPost, limited: bool, now: int, other: OfferId,
                                      t: int)
    ensures var n := HandleAvail(m, id, p, limited, now).0;
      && GetTerms(n.store, other, t) == GetTerms(m.store, other, t)
      && (other != id ==>
            IsBusy(n.store, other, t) == IsBusy(m.store, other, t) && CountersKept(m.store, n.store, other))
      && n.offers == m.offers
    ensures var (n, e) := HandleAvail(m, id, p, limited, now);
      n.store.seqs == m.store.seqs && (e.None? ==> id in n.store.availSeqs && n.store.availSeqs[id] == p.seqNo)
  {
  }
}
