/** Heartbeats, revocation and the busy hint: the offer handlers over the ephemeral store. */
module Market {
  import opened Hashing
  import opened Chain
  import opened OfferStore

  const MAX_FUTURE_MS := 120_000
  const MAX_VALIDITY_MS := 3_600_000
  const MAX_SAFE := 0x1F_FFFF_FFFF_FFFF

  datatype Row = Row(provider: Address, expiresAt: int, revoked: bool, intervalSec: nat)

  datatype Error = UnknownOffer | RateLimited | Revoked | Expired | SigMismatch | Validation | TermsTooLong
    | SeqRegression

  /** Times are None where the payload's text is not a valid timestamp. */
  datatype TermsPost = TermsPost(
    signer: Address, offerId: OfferId, unit: string, price: string, seqNo: int,
    signedAt: Option<int>, validUntil: Option<int>, coresFree: Option<int>)

  datatype AvailPost = AvailPost(
    signer: Address, offerId: OfferId, available: bool, seqNo: int, signedAt: Option<int>, validUntil: Option<int>)

  datatype RevokePost = RevokePost(signer: Address, offerId: OfferId, signedAt: Option<int>)

  /** An accepted heartbeat, with the interval its offer's provider declared at the time. */
  datatype Accepted = Accepted(id: OfferId, terms: Terms, intervalSec: nat)

  /** An accepted post that flagged an offer as taken. */
  datatype Flagged = Flagged(id: OfferId, at: int, validUntil: int)

  /** The offers table and the store, with the history of what was accepted. */
  datatype State = State(offers: map<OfferId, Row>, store: Store, accepted: seq<Accepted>, flagged: seq<Flagged>)

  function MinInt(a: int, b: int): int { if a < b then a else b }

  // ------------------------------------------------------------ prices

  predicate AllDigits(s: string) { forall i :: 0 <= i < |s| ==> '0' <= s[i] <= '9' }

  /** `isValidPrice`: at most 8 characters, no sign, no exponent, no leading zeros. */
  predicate ValidPrice(s: string) {
    |s| <= 8 &&
    (WholePart(s) || exists k :: 0 < k < |s| - 1 && s[k] == '.' && WholePart(s[..k]) && AllDigits(s[k + 1..]))
  }

  predicate WholePart(s: string) {
    s == "0" || (s != "" && s[0] != '0' && AllDigits(s))
  }

  // ------------------------------------------------------------ the handlers as functions

  /** The first check of `postTerms` that fails. */
  function TermsRefusal(m: State, id: OfferId, p: TermsPost, limited: bool, now: int): Option<Error> {
    if id !in m.offers then Some(UnknownOffer)
    else if limited then Some(RateLimited)
    else if m.offers[id].revoked then Some(Revoked)
    else if m.offers[id].expiresAt <= now then Some(Expired)
    else if p.signer != m.offers[id].provider then Some(SigMismatch)
    else if p.offerId != id || p.unit != "GLM" || !ValidPrice(p.price) then Some(Validation)
    else if p.seqNo < 0 || p.seqNo > MAX_SAFE then Some(Validation)
    else if p.signedAt.None? || p.validUntil.None? then Some(Validation)
    else if p.signedAt.value > now + MAX_FUTURE_MS then Some(Validation)
    else if p.validUntil.value - p.signedAt.value > MAX_VALIDITY_MS then Some(TermsTooLong)
    else if p.validUntil.value <= now then Some(Validation)
    else if p.coresFree.Some? && p.coresFree.value < 0 then Some(Validation)
    else if id in m.store.seqs && p.seqNo <= m.store.seqs[id] then Some(SeqRegression)
    else None
  }

  function Ttl(validUntil: int, intervalSec: nat, now: int): int {
    MinInt(validUntil - now, (2 * intervalSec + 30) * 1000)
  }

  /** The first write of an accepted heartbeat: its number. */
  function WriteSeq(m: State, id: OfferId, seqNo: nat): State {
    m.(store := m.store.(seqs := m.store.seqs[id := seqNo]))
  }

  /** The second one: its terms, with the index entry and the price. */
  function ListTerms(m: State, id: OfferId, p: TermsPost, intervalSec: nat, now: int): State
    requires p.seqNo >= 0 && p.validUntil.Some?
  {
    var t := Terms(p.seqNo, p.price, now, p.validUntil.value);
    var ttl := Ttl(p.validUntil.value, intervalSec, now);
    m.(store := SetTerms(m.store, id, t, ttl, now + ttl, now), accepted := m.accepted + [Accepted(id, t, intervalSec)])
  }

  function WriteTerms(m: State, id: OfferId, p: TermsPost, intervalSec: nat, now: int): State
    requires p.seqNo >= 0 && p.validUntil.Some?
  {
    ListTerms(WriteSeq(m, id, p.seqNo), id, p, intervalSec, now)
  }

  function HandleTerms(m: State, id: OfferId, p: TermsPost, limited: bool, now: int): (State, Option<Error>) {
    var refusal := TermsRefusal(m, id, p, limited, now);
    if refusal.Some? then (m, refusal) else (WriteTerms(m, id, p, m.offers[id].intervalSec, now), None)
  }

  function HandleRevoke(m: State, id: OfferId, p: RevokePost): (State, Option<Error>) {
    if id !in m.offers then (m, Some(UnknownOffer))
    else if p.signer != m.offers[id].provider then (m, Some(SigMismatch))
    else if p.offerId != id || p.signedAt.None? then (m, Some(Validation))
    else (m.(offers := m.offers[id := m.offers[id].(revoked := true)], store := DropOffer(m.store, id)), None)
  }

  function AvailRefusal(m: State, id: OfferId, p: AvailPost, limited: bool, now: int): Option<Error> {
    if id !in m.offers then Some(UnknownOffer)
    else if limited then Some(RateLimited)
    else if m.offers[id].revoked then Some(Revoked)
    else if m.offers[id].expiresAt <= now then Some(Expired)
    else if p.signer != m.offers[id].provider then Some(SigMismatch)
    else if p.offerId != id || p.seqNo < 0 || p.seqNo > MAX_SAFE then Some(Validation)
    else if p.signedAt.None? || p.validUntil.None? then Some(Validation)
    else if p.signedAt.value > now + MAX_FUTURE_MS then Some(Validation)
    else if p.validUntil.value - p.signedAt.value > MAX_VALIDITY_MS then Some(Validation)
    else if id in m.store.availSeqs && p.seqNo <= m.store.availSeqs[id] then Some(SeqRegression)
    else None
  }

  /** The busy flag of an accepted post. */
  function WriteFlag(m: State, id: OfferId, validUntil: int, now: int): State {
    m.(store := SetBusy(m.store, id, MinInt(validUntil - now, MAX_VALIDITY_MS), now),
       flagged := m.flagged + [Flagged(id, now, validUntil)])
  }

  /** A taken flag whose validUntil has passed is refused, but only after its number was used up. */
  function HandleAvail(m: State, id: OfferId, p: AvailPost, limited: bool, now: int): (State, Option<Error>) {
    var refusal := AvailRefusal(m, id, p, limited, now);
    if refusal.Some? then (m, refusal)
    else
      var counted := m.store.(availSeqs := m.store.availSeqs[id := p.seqNo]);
      if p.available then (m.(store := counted.(busy := counted.busy - {id})), None)
      else if p.validUntil.value <= now then (m.(store := counted), Some(Validation))
      else (WriteFlag(m.(store := counted), id, p.validUntil.value, now), None)
  }

  // ------------------------------------------------------------ the service

  class MarketService {
    const redis: Redis
    var offers: map<OfferId, Row>
    ghost var accepted: seq<Accepted>
    ghost var flagged: seq<Flagged>

    constructor ()
      ensures fresh(redis) && Value() == State(map[], EMPTY, [], [])
    {
      redis := new Redis();
      offers, accepted, flagged := map[], [], [];
    }

    ghost function Value(): State
      reads this, redis
    {
      State(offers, redis.Value(), accepted, flagged)
    }

    method PostTerms(id: OfferId, p: TermsPost, limited: bool, now: int) returns (error: Option<Error>)
      modifies this, redis
      ensures (Value(), error) == HandleTerms(old(Value()), id, p, limited, now)
    {
      if id !in offers {
        return Some(UnknownOffer);
      }
      var row := offers[id];
      if limited {
        return Some(RateLimited);
      }
      if row.revoked {
        return Some(Revoked);
      }
      if row.expiresAt <= now {
        return Some(Expired);
      }
      if p.signer != row.provider {
        return Some(SigMismatch);
      }
      if p.offerId != id || p.unit != "GLM" || !ValidPrice(p.price) {
        return Some(Validation);
      }
      if p.seqNo < 0 || p.seqNo > MAX_SAFE {
        return Some(Validation);
      }
      if p.signedAt.None? || p.validUntil.None? {
        return Some(Validation);
      }
      var signedAt, validUntil := p.signedAt.value, p.validUntil.value;
      if signedAt > now + MAX_FUTURE_MS {
        return Some(Validation);
      }
      if validUntil - signedAt > MAX_VALIDITY_MS {
        return Some(TermsTooLong);
      }
      if validUntil <= now {
        return Some(Validation);
      }
      if p.coresFree.Some? && p.coresFree.value < 0 {
        return Some(Validation);
      }
      if id in redis.seqs && p.seqNo <= redis.seqs[id] {
        return Some(SeqRegression);
      }
      redis.PutSeq(id, p.seqNo);
      var capMs := (2 * row.intervalSec + 30) * 1000;
      var ttlMs := if validUntil - now < capMs then validUntil - now else capMs;
      var terms := Terms(p.seqNo, p.price, now, validUntil);
      redis.PutTerms(id, terms, ttlMs, now + ttlMs, now);
      accepted := accepted + [Accepted(id, terms, row.intervalSec)];
      return None;
    }

    method PostRevoke(id: OfferId, p: RevokePost) returns (error: Option<Error>)
      modifies this, redis
      ensures (Value(), error) == HandleRevoke(old(Value()), id, p)
    {
      if id !in offers {
        return Some(UnknownOffer);
      }
      if p.signer != offers[id].provider {
        return Some(SigMismatch);
      }
      if p.offerId != id || p.signedAt.None? {
        return Some(Validation);
      }
      offers := offers[id := offers[id].(revoked := true)];
      redis.Drop(id);
      return None;
    }

    method PostAvailability(id: OfferId, p: AvailPost, limited: bool, now: int) returns (error: Option<Error>)
      modifies this, redis
      ensures (Value(), error) == HandleAvail(old(Value()), id, p, limited, now)
    {
      if id !in offers {
        return Some(UnknownOffer);
      }
      var row := offers[id];
      if limited {
        return Some(RateLimited);
      }
      if row.revoked {
        return Some(Revoked);
      }
      if row.expiresAt <= now {
        return Some(Expired);
      }
      if p.signer != row.provider {
        return Some(SigMismatch);
      }
      if p.offerId != id || p.seqNo < 0 || p.seqNo > MAX_SAFE || p.signedAt.None? || p.validUntil.None? {
        return Some(Validation);
      }
      var signedAt, validUntil := p.signedAt.value, p.validUntil.value;
      if signedAt > now + MAX_FUTURE_MS || validUntil - signedAt > MAX_VALIDITY_MS {
        return Some(Validation);
      }
      if id in redis.availSeqs && p.seqNo <= redis.availSeqs[id] {
        return Some(SeqRegression);
      }
      redis.PutAvailSeq(id, p.seqNo);
      if p.available {
        redis.ClearBusy(id);
        return None;
      }
      if validUntil <= now {
        return Some(Validation);
      }
      redis.FlagBusy(id, if validUntil - now < MAX_VALIDITY_MS then validUntil - now else MAX_VALIDITY_MS, now);
      flagged := flagged + [Flagged(id, now, validUntil)];
      return None;
    }
  }
}
