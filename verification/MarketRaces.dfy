/**
 The offer handlers with their awaits: a post is checked in one step and written in others. What comes
 in between can undo what the checks were for; each write keeps it exactly under the check made again.
 */
module MarketRaces {
  import opened Hashing
  import opened Chain
  import opened OfferStore
  import opened Market
  import opened MarketRuns

  /** Two heartbeats, both checked before either writes. */
  ghost predicate BothPass(m: State, id: OfferId, p: TermsPost, q: TermsPost, now: int) {
    && TermsRefusal(m, id, p, false, now).None? && TermsRefusal(m, id, q, false, now).None?
    && p.seqNo < q.seqNo
  }

  /** The higher number is written first, then the lower one; then the terms, in the order of the numbers. */
  function HighNumberFirst(m: State, id: OfferId, p: TermsPost, q: TermsPost, intervalSec: nat, now: int): State
    requires p.seqNo >= 0 && q.seqNo >= 0 && p.validUntil.Some? && q.validUntil.Some?
  {
    var counted := WriteSeq(WriteSeq(m, id, q.seqNo), id, p.seqNo);
    ListTerms(ListTerms(counted, id, p, intervalSec, now), id, q, intervalSec, now)
  }

  /** The counter ends below the number of the stored terms, and the heartbeat that carries it is accepted once more. */
  lemma {:induction false} CounterLowered(m: State, id: OfferId, p: TermsPost, q: TermsPost, now: int)
    requires BothPass(m, id, p, q, now)
    ensures var n := HighNumberFirst(m, id, p, q, m.offers[id].intervalSec, now);
      && n.store.seqs[id] == p.seqNo < q.seqNo == n.store.terms[id].terms.seqNo
      && !BelowCounter(n.store)
      && HandleTerms(n, id, q, false, now).1.None?
      && !NumbersGrow(HandleTerms(n, id, q, false, now).0.accepted)
  {
    var n := HighNumberFirst(m, id, p, q, m.offers[id].intervalSec, now);
    var again := HandleTerms(n, id, q, false, now).0.accepted;
    var k := |n.accepted|;
    assert again[k - 1].id == id == again[k].id && again[k - 1].terms.seqNo == again[k].terms.seqNo;
  }

  /** Two such heartbeats, for an offer just published. */
  lemma {:induction false} BothCanPass(id: OfferId, provider: Address)
    returns (published: Timed, p: TermsPost, q: TermsPost)
    ensures IsRun(START, 0, [published]) && BothPass(After(START, 0, [published]), id, p, q, 10)
  {
    var row := Row(provider, 100, false, 60);
    published := Timed(AddOffer(id, row), 0);
    p := TermsPost(provider, id, "GLM", "1", 1, Some(5), Some(20), None);
    q := p.(seqNo := 2);
    assert [published][1..] == [];
    assert After(START, 0, [published]) == START.(offers := map[id := row]);
    assert WholePart("1");
  }

  /** Writing a number keeps stored terms at or below the counter exactly if the offer's own are. */
  lemma {:induction false} WriteSeqKeepsIff(m: State, id: OfferId, seqNo: nat)
    requires BelowCounter(m.store)
    ensures BelowCounter(WriteSeq(m, id, seqNo).store) <==>
      (id in m.store.terms ==> m.store.terms[id].terms.seqNo <= seqNo)
  {
    var n := WriteSeq(m, id, seqNo).store;
    if id in m.store.terms && m.store.terms[id].terms.seqNo > seqNo {
      assert id in n.terms;
    }
  }

  /** Writing terms does exactly if the counter is there and has reached their number. */
  lemma {:induction false} ListTermsKeepsIff(m: State, id: OfferId, p: TermsPost, intervalSec: nat, now: int)
    requires BelowCounter(m.store) && p.seqNo >= 0 && p.validUntil.Some?
    ensures BelowCounter(ListTerms(m, id, p, intervalSec, now).store) <==>
      id in m.store.seqs && p.seqNo <= m.store.seqs[id]
  {
    var n := ListTerms(m, id, p, intervalSec, now).store;
    assert id in n.terms && n.terms[id].terms.seqNo == p.seqNo;
  }

  /** A taken flag checked before a revocation and written after it leaves a revoked offer with a readable flag. */
  lemma {:induction false} FlagAfterRevocation(m: State, id: OfferId, p: AvailPost, r: RevokePost, now: int)
    requires AvailRefusal(m, id, p, false, now).None? && !p.available && now < p.validUntil.value
    requires HandleRevoke(m, id, r).1.None?
    ensures var n := WriteFlag(HandleRevoke(m, id, r).0, id, p.validUntil.value, now);
      && id in n.offers && n.offers[id].revoked
      && IsBusy(n.store, id, now) && !OnlyCurrent(n)
  {
    var n := WriteFlag(HandleRevoke(m, id, r).0, id, p.validUntil.value, now);
    assert id in n.store.busy && !NoEntry(n.store, id);
  }

  /** The flag keeps revoked offers without keys exactly if the offer is not revoked when it is written. */
  lemma {:induction false} FlagKeepsCurrentIff(m: State, id: OfferId, validUntil: int, now: int)
    requires OnlyCurrent(m)
    ensures OnlyCurrent(WriteFlag(m, id, validUntil, now)) <==> id in m.offers && !m.offers[id].revoked
  {
    var n := WriteFlag(m, id, validUntil, now);
    assert id in n.store.busy;
    if !(id in m.offers && !m.offers[id].revoked) {
      assert !NoEntry(n.store, id);
    }
  }
}
