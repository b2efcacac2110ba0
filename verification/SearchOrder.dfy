/** What the search serves, said of its items: which are kept, in which order they come, how they are cut into pages. */
module SearchOrder {
  import opened Arith
  import opened Order
  import opened Hashing
  import opened Query

  // ------------------------------------------------------------ the order

  /** Cheaper offers first, unpriced ones last. */
  predicate CheaperFirst(a: Enriched, b: Enriched) {
    b.price.None? || (a.price.Some? && a.price.value <= b.price.value)
  }

  /** The key of a sort mode allows a in front of b. */
  ghost predicate KeyAllows(H: Hash, s: SortBy, seed: Bytes, a: Enriched, b: Enriched) {
    match s
    case ByPrice => CheaperFirst(a, b)
    case ByScoreFull => a.row.scoreFull >= b.row.scoreFull
    case ByScoreSingle => a.row.scoreSingle >= b.row.scoreSingle
    case ByRamBandwidth => true
    case ByDagHash => true
    case AtRandom => H(seed + a.row.id) == H(seed + b.row.id) || ComesFirst(H(seed + a.row.id), H(seed + b.row.id))
  }

  predicate KeyTies(H: Hash, s: SortBy, seed: Bytes, a: Enriched, b: Enriched) {
    match s
    case ByPrice => a.price == b.price
    case ByScoreFull => a.row.scoreFull == b.row.scoreFull
    case ByScoreSingle => a.row.scoreSingle == b.row.scoreSingle
    case ByRamBandwidth => true
    case ByDagHash => true
    case AtRandom => H(seed + a.row.id) == H(seed + b.row.id)
  }

  /** The key does not go down, and where it ties the ids ascend. */
  ghost predicate InOrder(H: Hash, s: SortBy, seed: Bytes, a: Enriched, b: Enriched) {
    && KeyAllows(H, s, seed, a, b)
    && (KeyTies(H, s, seed, a, b) ==> ComesFirst(a.row.id, b.row.id))
  }

  lemma {:induction false} BeforeIff(H: Hash, s: SortBy, seed: Bytes, a: Enriched, b: Enriched)
    ensures Before(H, s, seed, a, b) <==> InOrder(H, s, seed, a, b)
  {
    var x, y := RandomKey(H, seed, a.row.id), RandomKey(H, seed, b.row.id);
    LessIff(a.row.id, b.row.id);
    LessIff(x, y);
    LessTotal(x, y);
  }

  lemma {:induction false} SortedInOrder(H: Hash, s: SortBy, seed: Bytes, es: seq<Enriched>, i: nat, j: nat)
    requires DistinctIds(es) && i < j < |es|
    ensures var sorted := Sort(Comparator(H, s, seed), es); InOrder(H, s, seed, sorted[i], sorted[j])
  {
    var before := Comparator(H, s, seed);
    var sorted := Sort(before, es);
    ComparatorOrders(H, s, seed, es);
    SortAscends(before, es);
    assert before(sorted[i], sorted[j]);
    BeforeIff(H, s, seed, sorted[i], sorted[j]);
  }

  /** All items met by following the cursors are in order, by the first request's seed. */
  lemma {:induction false} FollowedInOrder(H: Hash, s: SortBy, seeds: nat -> Bytes, limit: nat, es: seq<Enriched>,
                                           i: nat, j: nat)
    requires limit > 0 && DistinctIds(es) && i < j < |es|
    ensures Sized(Arrangement(H, s, es), |es|)
    ensures var all := Follow(Arrangement(H, s, es), |es|, None, seeds, 0, limit);
      |all| == |es| && InOrder(H, s, seeds(0), all[i], all[j])
  {
    FollowAll(Arrangement(H, s, es), |es|, seeds, limit);
    SortedInOrder(H, s, seeds(0), es, i, j);
  }

  // ------------------------------------------------------------ the pages

  /** The page a request is answered with: its size, its cursor, its items. */
  lemma {:induction false} PageIs<T>(arranged: Bytes -> seq<T>, cursor: Option<Cursor>, newSeed: Bytes, limit: nat)
    ensures var page := GetPage(arranged, cursor, newSeed, limit);
      var seed := if cursor.Some? then cursor.value.seed else newSeed;
      var offset := if cursor.Some? then cursor.value.offset else 0;
      var n := |arranged(seed)|;
      && |page.items| == (if offset >= n then 0 else Min(limit, n - offset))
      && (forall i :: 0 <= i < |page.items| ==> page.items[i] == arranged(seed)[offset + i])
      && (page.next.Some? <==> offset + limit < n)
      && (page.next.Some? ==> page.next.value == Cursor(seed, offset + limit))
  {
  }

  /** The items of one page of the handler's answer are in order. */
  lemma {:induction false} ServedInOrder(H: Hash, f: Filter, s: SortBy, cursor: Option<Cursor>, newSeed: Bytes,
                                         limit: Option<int>, candidates: seq<Candidate>, now: int, i: nat, j: nat)
    requires forall k, l :: 0 <= k < l < |candidates| ==> candidates[k].id != candidates[l].id
    requires i < j < |GetPage(Arrangement(H, s, EnrichAll(f, now, candidates)), cursor, newSeed,
      PageLimit(limit)).items|
    ensures var page := GetPage(Arrangement(H, s, EnrichAll(f, now, candidates)), cursor, newSeed, PageLimit(limit));
      InOrder(H, s, if cursor.Some? then cursor.value.seed else newSeed, page.items[i], page.items[j])
  {
    var es := EnrichAll(f, now, candidates);
    EnrichAllDistinct(f, now, candidates);
    PageIs(Arrangement(H, s, es), cursor, newSeed, PageLimit(limit));
    var seed := if cursor.Some? then cursor.value.seed else newSeed;
    var offset := if cursor.Some? then cursor.value.offset else 0;
    SortedInOrder(H, s, seed, es, offset + i, offset + j);
  }

  // ------------------------------------------------------------ what is kept

  /** How old terms may be, in milliseconds. */
  predicate YoungEnough(f: Freshness, receivedAt: int, intervalSec: nat, now: int) {
    match f
    case Any => true
    case Strict => now <= receivedAt + 1000 * intervalSec
    case Normal => now <= receivedAt + 2000 * intervalSec + 30_000
  }

  /** A candidate is kept exactly if its terms are young enough, cheap enough and, where asked for, not taken. */
  lemma {:induction false} KeptIff(f: Filter, now: int, c: Candidate)
    ensures Enrich(f, now, c).Some? <==>
      match c.terms
      case None => f.freshness == Any && f.priceMax.None?
      case Some(t) =>
        && YoungEnough(f.freshness, t.receivedAt, c.intervalSec, now)
        && (f.priceMax.Some? ==> Millionths(t.price) as real <= f.priceMax.value)
        && (f.availability == Free ==> !c.busyFlag)
    ensures Enrich(f, now, c).Some? ==>
      var e := Enrich(f, now, c).value;
      && e.row == c && e.live == c.terms.Some? && e.busy == (c.terms.Some? && c.busyFlag)
      && e.price == if c.terms.Some? then Some(Millionths(c.terms.value.price)) else None
  {
  }

  // ------------------------------------------------------------ prices

  /** The value of digits is what they stand for: each place counts ten of the next. */
  lemma {:induction false} DigitsCount(a: string, b: string)
    ensures DigitsValue(a + b) == DigitsValue(a) * Power(10, |b|) + DigitsValue(b)
  {
    if b == "" {
      assert a + b == a;
    } else {
      var n := |b| - 1;
      DigitsCount(a, b[..n]);
      assert (a + b)[..|a + b| - 1] == a + b[..n];
      assert Power(10, |b|) == 10 * Power(10, n);
      Tenfold(DigitsValue(a), Power(10, n), DigitsValue(b[..n]));
    }
  }

  lemma {:induction false} Tenfold(a: nat, p: nat, b: nat)
    ensures 10 * (a * p + b) == a * (10 * p) + 10 * b
  {
    assert a * (10 * p) == 10 * (a * p);
  }

  lemma {:induction false} DigitsSpeltOut()
    ensures DigitsValue("0") == 0 && DigitsValue("1") == 1 && DigitsValue("2") == 2 && DigitsValue("3") == 3
    ensures DigitsValue("4") == 4 && DigitsValue("5") == 5 && DigitsValue("6") == 6 && DigitsValue("7") == 7
    ensures DigitsValue("8") == 8 && DigitsValue("9") == 9
  {
    assert DigitsValue("") == 0;
  }

  lemma {:induction false} PointFound(whole: string, decimals: string)
    requires '.' !in whole
    ensures PointAt(whole) == |whole| && PointAt(whole + "." + decimals) == |whole|
  {
    var s := whole + "." + decimals;
    if whole != "" {
      assert whole[0] in whole;
      PointFound(whole[1..], decimals);
      assert s[0] == whole[0] && s[1..] == whole[1..] + "." + decimals;
    }
  }

  /** A price with d decimals, d at most 6, is its digits times 10^(6 - d) millionths. */
  lemma {:induction false} MillionthsIs(whole: string, decimals: string)
    requires '.' !in whole && |decimals| <= 6
    ensures Millionths(whole) == DigitsValue(whole) * 1_000_000
    ensures Millionths(whole + "." + decimals) == DigitsValue(whole + decimals) * Power(10, 6 - |decimals|)
  {
    var s := whole + "." + decimals;
    PointFound(whole, decimals);
    assert s[..|whole|] == whole && s[|whole| + 1..] == decimals;
    DigitsCount(whole, decimals);
    SixDigits(|decimals|);
    Spread(DigitsValue(whole), Power(10, |decimals|), DigitsValue(decimals), Power(10, 6 - |decimals|), 1_000_000);
  }

  lemma {:induction false} Spread(v: nat, p: nat, x: nat, q: nat, r: nat)
    requires p * q == r
    ensures (v * p + x) * q == v * r + x * q
  {
    assert (v * p) * q == v * (p * q);
  }

  lemma {:induction false} SixDigits(d: nat)
    requires d <= 6
    ensures Power(10, d) * Power(10, 6 - d) == 1_000_000
  {
    if d == 0 {
      assert Power(10, 6) == 1_000_000 by {
        assert Power(10, 3) == 1000 by { assert Power(10, 1) == 10 * Power(10, 0); }
        assert Power(10, 4) == 10_000;
      }
    } else {
      SixDigits(d - 1);
      assert Power(10, 6 - (d - 1)) == 10 * Power(10, 6 - d);
    }
  }
}
