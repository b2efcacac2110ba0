/** The ephemeral offer state in Redis: terms, sequence counters, busy flags and the live index. */
module OfferStore {
  import opened Hashing
  import opened KeyLifetime

  type OfferId = Digest

  datatype Terms = Terms(seqNo: nat, price: string, receivedAt: int, validUntil: int)

  /** A key's value and the last instant it can be read. */
  datatype Record = Record(terms: Terms, expiresAt: int)

  datatype Store = Store(
    terms: map<OfferId, Record>,
    seqs: map<OfferId, nat>,
    busy: map<OfferId, int>,
    availSeqs: map<OfferId, nat>,
    live: map<OfferId, int>,
    prices: map<OfferId, string>)

  const EMPTY := Store(map[], map[], map[], map[], map[], map[])

  // ------------------------------------------------------------ the commands as functions

  function SetTerms(s: Store, id: OfferId, t: Terms, px: int, expiry: int, now: int): Store {
    s.(terms := s.terms[id := Record(t, now + AtLeast1(px))], live := s.live[id := expiry],
      prices := s.prices[id := t.price])
  }

  /** `getTerms`. */
  function GetTerms(s: Store, id: OfferId, now: int): Option<Terms> {
    if id in s.terms && Unexpired(s.terms[id].expiresAt, now) then Some(s.terms[id].terms) else None
  }

  function DropOffer(s: Store, id: OfferId): Store {
    Store(s.terms - {id}, s.seqs - {id}, s.busy - {id}, s.availSeqs - {id}, s.live - {id}, s.prices - {id})
  }

  function SetBusy(s: Store, id: OfferId, px: int, now: int): Store {
    s.(busy := s.busy[id := now + AtLeast1(px)])
  }

  function IsBusy(s: Store, id: OfferId, now: int): bool {
    id in s.busy && Unexpired(s.busy[id], now)
  }

  /** ZREMRANGEBYSCORE: drops index entries that ended before now. */
  function Prune(s: Store, now: int): Store {
    s.(live := map id | id in s.live && now <= s.live[id] :: s.live[id])
  }

  /** The offers the index holds at now, with the prices they are listed at. */
  function LiveRows(s: Store, now: int): set<(OfferId, string)> {
    set id | id in s.live && now <= s.live[id] && id in s.prices :: (id, s.prices[id])
  }

  /** Redis removing a key of its own accord, at any time after it expired. */
  function Evict(s: Store, id: OfferId, now: int): Store {
    s.(terms := if id in s.terms && !Unexpired(s.terms[id].expiresAt, now) then s.terms - {id} else s.terms,
       busy := if id in s.busy && !Unexpired(s.busy[id], now) then s.busy - {id} else s.busy)
  }

  // ------------------------------------------------------------ agreement of the index with the terms

  /** From now on, an offer is in the index with its price exactly as long as its terms can be read. */
  ghost predicate Agrees(s: Store, now: int) {
    && (forall id :: id in s.terms && now <= s.terms[id].expiresAt ==>
          && id in s.live && s.live[id] == s.terms[id].expiresAt
          && id in s.prices && s.prices[id] == s.terms[id].terms.price)
    && (forall id :: id in s.live && now <= s.live[id] ==> id in s.terms && s.terms[id].expiresAt == s.live[id])
  }

  /** `liveOffers` lists exactly the offers with readable terms, each at the price of those terms. */
  lemma {:induction false} LiveRowsAreReadableTerms(s: Store, now: int, id: OfferId, price: string)
    requires Agrees(s, now)
    ensures (id, price) in LiveRows(s, now) <==> GetTerms(s, id, now).Some? && GetTerms(s, id, now).value.price == price
  {
  }

  lemma {:induction false} AgreesLater(s: Store, now: int, later: int)
    requires Agrees(s, now) && now <= later
    ensures Agrees(s, later)
  {
  }

  /** Writing terms whose index score is the end of their own key keeps the agreement, whatever was there. */
  lemma {:induction false} SetTermsAgrees(s: Store, id: OfferId, t: Terms, px: int, now: int)
    requires Agrees(s, now) && px >= 1
    ensures Agrees(SetTerms(s, id, t, px, now + px, now), now)
  {
  }

  /**
   Exactly then: a score other than the end of the key's life breaks the agreement, as one computed before
   an await from an earlier reading of the clock would.
   */
  lemma {:induction false} SetTermsAgreesIff(s: Store, id: OfferId, t: Terms, px: int, expiry: int, now: int)
    requires Agrees(s, now) && px >= 1
    ensures Agrees(SetTerms(s, id, t, px, expiry, now), now) <==> expiry == now + px
  {
    if expiry == now + px {
      SetTermsAgrees(s, id, t, px, now);
    } else {
      ScoreOff(SetTerms(s, id, t, px, expiry, now), id, now);
    }
  }

  lemma {:induction false} ScoreOff(s: Store, id: OfferId, now: int)
    requires id in s.terms && now <= s.terms[id].expiresAt
    requires id in s.live ==> s.live[id] != s.terms[id].expiresAt
    ensures !Agrees(s, now)
  {
  }

  lemma {:induction false} DropAgrees(s: Store, id: OfferId, now: int)
    requires Agrees(s, now)
    ensures Agrees(DropOffer(s, id), now)
  {
  }

  lemma {:induction false} PruneAgrees(s: Store, now: int)
    requires Agrees(s, now)
    ensures Agrees(Prune(s, now), now) && LiveRows(Prune(s, now), now) == LiveRows(s, now)
  {
  }

  lemma {:induction false} EvictAgrees(s: Store, id: OfferId, now: int)
    requires Agrees(s, now)
    ensures Agrees(Evict(s, id, now), now)
    ensures forall k :: GetTerms(Evict(s, id, now), k, now) == GetTerms(s, k, now)
    ensures forall k :: IsBusy(Evict(s, id, now), k, now) == IsBusy(s, k, now)
  {
  }

  // ------------------------------------------------------------ the client

  class Redis {
    var terms: map<OfferId, Record>
    var seqs: map<OfferId, nat>
    var busy: map<OfferId, int>
    var availSeqs: map<OfferId, nat>
    var live: map<OfferId, int>
    var prices: map<OfferId, string>

    constructor ()
      ensures Value() == EMPTY
    {
      terms, seqs, busy, availSeqs, live, prices := map[], map[], map[], map[], map[], map[];
    }

    ghost function Value(): Store
      reads this
    {
      Store(terms, seqs, busy, availSeqs, live, prices)
    }

    method PutTerms(id: OfferId, t: Terms, px: int, expiry: int, now: int)
      modifies this
      ensures Value() == SetTerms(old(Value()), id, t, px, expiry, now)
    {
      terms := terms[id := Record(t, now + (if px < 1 then 1 else px))];
      live := live[id := expiry];
      prices := prices[id := t.price];
    }

    method Drop(id: OfferId)
      modifies this
      ensures Value() == DropOffer(old(Value()), id)
    {
      terms, seqs, busy, availSeqs := terms - {id}, seqs - {id}, busy - {id}, availSeqs - {id};
      live := live - {id};
      prices := prices - {id};
    }

    method PutSeq(id: OfferId, n: nat)
      modifies this
      ensures Value() == old(Value()).(seqs := old(Value()).seqs[id := n])
    {
      seqs := seqs[id := n];
    }

    method PutAvailSeq(id: OfferId, n: nat)
      modifies this
      ensures Value() == old(Value()).(availSeqs := old(Value()).availSeqs[id := n])
    {
      availSeqs := availSeqs[id := n];
    }

    method FlagBusy(id: OfferId, px: int, now: int)
      modifies this
      ensures Value() == SetBusy(old(Value()), id, px, now)
    {
      busy := busy[id := now + (if px < 1 then 1 else px)];
    }

    method ClearBusy(id: OfferId)
      modifies this
      ensures Value() == old(Value()).(busy := old(Value()).busy - {id})
    {
      busy := busy - {id};
    }

    /** `liveOffers`: prunes, reads the ids left, and pairs each with its price where it has one. */
    method LiveOffers(now: int) returns (rows: seq<(OfferId, string)>)
      modifies this
      ensures Value() == Prune(old(Value()), now)
      ensures forall row :: row in rows <==> row in LiveRows(old(Value()), now)
      ensures forall i, j :: 0 <= i < j < |rows| ==> rows[i].0 != rows[j].0
    {
      live := map id | id in live && now <= live[id] :: live[id];
      var left := live.Keys;
      rows := [];
      while left != {}
        invariant left <= live.Keys
        invariant forall row :: row in rows <==> row in LiveRows(old(Value()), now) && row.0 !in left
        invariant forall i, j :: 0 <= i < j < |rows| ==> rows[i].0 != rows[j].0
        decreases left
      {
        var id :| id in left;
        left := left - {id};
        if id in prices {
          forall i | 0 <= i < |rows| ensures rows[i].0 != id {
            assert rows[i] in rows;
          }
          rows := rows + [(id, prices[id])];
        }
      }
    }
  }
}
