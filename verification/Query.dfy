/** The offer search: enrichment and filters, the deterministic order, and cursor paging. */
module Query {
  import opened Arith
  import opened Order
  import opened Hashing
  import opened OfferStore

  datatype Freshness = Strict | Normal | Any

  datatype Availability = Free | All

  datatype SortBy = ByPrice | ByScoreFull | ByScoreSingle | ByRamBandwidth | ByDagHash | AtRandom

  /** A candidate row with the terms read for it; id is the text of its offer id. */
  datatype Candidate = Candidate(
    id: Bytes, intervalSec: nat, scoreFull: int, scoreSingle: int, terms: Option<Terms>, busyFlag: bool)

  datatype Enriched = Enriched(row: Candidate, price: Option<nat>, live: bool, busy: bool)

  /** The filters applied to the candidates; a price ceiling is in millionths. */
  datatype Filter = Filter(freshness: Freshness, availability: Availability, priceMax: Option<real>)

  // ------------------------------------------------------------ prices

  function DigitsValue(s: string): nat {
    if s == "" then 0
    else 10 * DigitsValue(s[..|s| - 1]) + if '0' <= s[|s| - 1] <= '9' then s[|s| - 1] as int - '0' as int else 0
  }

  function PointAt(s: string): (k: nat)
    ensures k <= |s|
  {
    if s == "" || s[0] == '.' then 0 else 1 + PointAt(s[1..])
  }

  /** `Number(minPricePerHour)` in millionths: 8 characters leave at most six decimals. */
  function Millionths(price: string): nat {
    var k := PointAt(price);
    if k == |price| then DigitsValue(price) * 1_000_000
    else
      var decimals := price[k + 1..];
      DigitsValue(price[..k]) * 1_000_000 + DigitsValue(decimals) * Power(10, if |decimals| < 6 then 6 - |decimals|
        else 0)
  }

  // ------------------------------------------------------------ enrichment and filters

  predicate Fresh(f: Freshness, ageMs: int, intervalSec: nat) {
    if f == Strict then ageMs <= intervalSec * 1000 else ageMs <= 2 * (intervalSec * 1000) + 30_000
  }

  /** What one turn of the loop pushes, if anything. */
  function Enrich(f: Filter, now: int, c: Candidate): Option<Enriched> {
    var price := if c.terms.Some? then Some(Millionths(c.terms.value.price)) else None;
    var isFresh := c.terms.Some? && Fresh(f.freshness, now - c.terms.value.receivedAt, c.intervalSec);
    var busy := c.terms.Some? && c.busyFlag;
    if f.freshness != Any && !isFresh then None
    else if f.priceMax.Some? && (price.None? || price.value as real > f.priceMax.value) then None
    else if f.availability == Free && busy then None
    else Some(Enriched(c, price, c.terms.Some?, busy))
  }

  function EnrichAll(f: Filter, now: int, cs: seq<Candidate>): seq<Enriched> {
    if cs == [] then []
    else
      var n := |cs| - 1;
      var e := Enrich(f, now, cs[n]);
      EnrichAll(f, now, cs[..n]) + if e.Some? then [e.value] else []
  }

  /** A row kept under a freshness is kept, the same, under every weaker one. */
  lemma {:induction false} FreshnessNests(f: Filter, now: int, c: Candidate)
    ensures Enrich(f.(freshness := Strict), now, c).Some? ==>
      Enrich(f.(freshness := Normal), now, c) == Enrich(f.(freshness := Strict), now, c)
    ensures Enrich(f.(freshness := Normal), now, c).Some? ==>
      Enrich(f.(freshness := Any), now, c) == Enrich(f.(freshness := Normal), now, c)
  {
    if c.terms.Some? && Fresh(Strict, now - c.terms.value.receivedAt, c.intervalSec) {
      assert c.intervalSec * 1000 <= 2 * (c.intervalSec * 1000) + 30_000;
    }
  }

  /** Exactly the candidates that pass are kept, each as often as it was a candidate. */
  lemma {:induction false} EnrichAllKeeps(f: Filter, now: int, cs: seq<Candidate>, e: Enriched)
    ensures e in EnrichAll(f, now, cs) <==> e.row in cs && Enrich(f, now, e.row) == Some(e)
    decreases |cs|
  {
    if cs != [] {
      var n := |cs| - 1;
      EnrichAllKeeps(f, now, cs[..n], e);
      assert cs == cs[..n] + [cs[n]];
      var last := Enrich(f, now, cs[n]);
      if last.Some? {
        assert last.value.row == cs[n];
      }
    }
  }

  predicate DistinctIds(es: seq<Enriched>) {
    forall i, j :: 0 <= i < j < |es| ==> es[i].row.id != es[j].row.id
  }

  lemma {:induction false} EnrichAllDistinct(f: Filter, now: int, cs: seq<Candidate>)
    requires forall i, j :: 0 <= i < j < |cs| ==> cs[i].id != cs[j].id
    ensures DistinctIds(EnrichAll(f, now, cs))
    decreases |cs|
  {
    if cs != [] {
      var n := |cs| - 1;
      var es := EnrichAll(f, now, cs[..n]);
      EnrichAllDistinct(f, now, cs[..n]);
      forall i | 0 <= i < |es| ensures es[i].row.id != cs[n].id {
        assert es[i] in es;
        EnrichAllKeeps(f, now, cs[..n], es[i]);
        var k :| 0 <= k < n && cs[..n][k] == es[i].row;
        assert cs[k].id != cs[n].id;
      }
    }
  }

  // ------------------------------------------------------------ the order

  function ScoreOf(s: SortBy, c: Candidate): int {
    if s == ByScoreFull then c.scoreFull else if s == ByScoreSingle then c.scoreSingle else 0
  }

  /** The random order's key: a hash of the query's seed and the id. */
  function RandomKey(H: Hash, seed: Bytes, id: Bytes): Digest { H(seed + id) }

  /** The comparator's answer "a first": by the sort key, and by id where the keys agree. */
  predicate Before(H: Hash, s: SortBy, seed: Bytes, a: Enriched, b: Enriched) {
    if s == ByPrice && a.price != b.price then
      a.price.Some? && (b.price.None? || a.price.value < b.price.value)
    else if s != ByPrice && s != AtRandom && ScoreOf(s, a.row) != ScoreOf(s, b.row) then
      ScoreOf(s, a.row) > ScoreOf(s, b.row)
    else if s == AtRandom && RandomKey(H, seed, a.row.id) != RandomKey(H, seed, b.row.id) then
      Less(RandomKey(H, seed, a.row.id), RandomKey(H, seed, b.row.id))
    else Less(a.row.id, b.row.id)
  }

  function Comparator(H: Hash, s: SortBy, seed: Bytes): (Enriched, Enriched) -> bool {
    (a, b) => Before(H, s, seed, a, b)
  }

  lemma {:induction false} BeforeTransitive(H: Hash, s: SortBy, seed: Bytes, a: Enriched, b: Enriched, c: Enriched)
    requires Before(H, s, seed, a, b) && Before(H, s, seed, b, c)
    ensures Before(H, s, seed, a, c)
  {
    if Less(a.row.id, b.row.id) && Less(b.row.id, c.row.id) {
      LessTransitive(a.row.id, b.row.id, c.row.id);
    }
    if s == AtRandom {
      var x, y, z := RandomKey(H, seed, a.row.id), RandomKey(H, seed, b.row.id), RandomKey(H, seed, c.row.id);
      LessTotal(x, y);
      LessTotal(x, z);
      if Less(x, y) && Less(y, z) {
        LessTransitive(x, y, z);
      }
    }
  }

  lemma {:induction false} BeforeTotal(H: Hash, s: SortBy, seed: Bytes, a: Enriched, b: Enriched)
    ensures !(Before(H, s, seed, a, b) && Before(H, s, seed, b, a))
    ensures a.row.id != b.row.id ==> Before(H, s, seed, a, b) || Before(H, s, seed, b, a)
  {
    LessTotal(a.row.id, b.row.id);
    LessTotal(RandomKey(H, seed, a.row.id), RandomKey(H, seed, b.row.id));
  }

  /** In every sort mode the comparator is a strict order that decides between any two offers. */
  lemma {:induction false} ComparatorOrders(H: Hash, s: SortBy, seed: Bytes, es: seq<Enriched>)
    requires DistinctIds(es)
    ensures Transitive(Comparator(H, s, seed)) && Asymmetric(Comparator(H, s, seed))
    ensures Comparable(Comparator(H, s, seed), es)
  {
    var before := Comparator(H, s, seed);
    forall a: Enriched, b: Enriched, c: Enriched | before(a, b) && before(b, c) ensures before(a, c) {
      BeforeTransitive(H, s, seed, a, b, c);
    }
    forall a: Enriched, b: Enriched | before(a, b) ensures !before(b, a) {
      BeforeTotal(H, s, seed, a, b);
    }
    forall i, j | 0 <= i < |es| && 0 <= j < |es| && i != j ensures before(es[i], es[j]) || before(es[j], es[i]) {
      assert i < j ==> es[i].row.id != es[j].row.id;
      assert j < i ==> es[j].row.id != es[i].row.id;
      BeforeTotal(H, s, seed, es[i], es[j]);
    }
  }

  /** The sorted result is the one arrangement of the offers the comparator agrees with. */
  lemma {:induction false} OneOrder(H: Hash, s: SortBy, seed: Bytes, es: seq<Enriched>, other: seq<Enriched>)
    requires DistinctIds(es) && |other| == |es| && multiset(other) == multiset(es)
    ensures Ascending(Comparator(H, s, seed), other) <==> other == Sort(Comparator(H, s, seed), es)
  {
    var before := Comparator(H, s, seed);
    ComparatorOrders(H, s, seed, es);
    SortAscends(before, es);
    SortPermutes(before, es);
    if Ascending(before, other) {
      AscendingUnique(before, other, Sort(before, es));
    }
  }

  // ------------------------------------------------------------ paging

  datatype Cursor = Cursor(seed: Bytes, offset: nat)

  datatype Page<T> = Page(items: seq<T>, next: Option<Cursor>)

  /** `Math.min(Math.max(1, limit), 100)`, 20 when none is given. */
  function PageLimit(limit: Option<int>): (n: nat)
    ensures 1 <= n <= 100
    ensures limit.Some? && 1 <= limit.value <= 100 ==> n == limit.value
    ensures limit.Some? && limit.value < 1 ==> n == 1
    ensures limit.Some? && limit.value > 100 ==> n == 100
    ensures limit.None? ==> n == 20
  {
    var l := if limit.Some? then limit.value else 20;
    if l < 1 then 1 else if l > 100 then 100 else l
  }

  function Slice<T>(s: seq<T>, from: nat, to: nat): seq<T>
    requires from <= to
  {
    s[if from < |s| then from else |s| .. if to < |s| then to else |s|]
  }

  /** The page of an ordered list at an offset. */
  function Serve<T>(sorted: seq<T>, seed: Bytes, offset: nat, limit: nat): Page<T> {
    Page(Slice(sorted, offset, offset + limit),
         if offset + limit < |sorted| then Some(Cursor(seed, offset + limit)) else None)
  }

  /** The filtered offers as a request with a given seed arranges them. */
  function Arrangement(H: Hash, s: SortBy, es: seq<Enriched>): Bytes -> seq<Enriched> {
    seed => Sort(Comparator(H, s, seed), es)
  }

  /** One request: a cursor brings its seed along, the first request takes a new one. */
  function GetPage<T>(arranged: Bytes -> seq<T>, cursor: Option<Cursor>, newSeed: Bytes, limit: nat): Page<T> {
    var seed := if cursor.Some? then cursor.value.seed else newSeed;
    Serve(arranged(seed), seed, if cursor.Some? then cursor.value.offset else 0, limit)
  }

  /** Every seed arranges the same n offers. */
  ghost predicate Sized<T>(arranged: Bytes -> seq<T>, n: nat) { forall seed :: |arranged(seed)| == n }

  /** All items met by following nextCursor; seeds(k) is the seed the k-th request would make up. */
  ghost function Follow<T>(arranged: Bytes -> seq<T>, n: nat, cursor: Option<Cursor>, seeds: nat -> Bytes, k: nat,
                           limit: nat)
    : seq<T>
    requires limit > 0 && Sized(arranged, n)
    decreases if cursor.Some? && cursor.value.offset > n then 0
              else n + 1 - (if cursor.Some? then cursor.value.offset else 0)
  {
    var page := GetPage(arranged, cursor, seeds(k), limit);
    page.items + if page.next.None? then [] else Follow(arranged, n, page.next, seeds, k + 1, limit)
  }

  /** A full page with more beyond it. */
  lemma {:induction false} ServeMore<T>(sorted: seq<T>, seed: Bytes, offset: nat, limit: nat)
    requires offset + limit < |sorted|
    ensures Serve(sorted, seed, offset, limit) ==
      Page(sorted[offset..offset + limit], Some(Cursor(seed, offset + limit)))
  {
  }

  /** The last page. */
  lemma {:induction false} ServeLast<T>(sorted: seq<T>, seed: Bytes, offset: nat, limit: nat)
    requires offset <= |sorted| <= offset + limit
    ensures Serve(sorted, seed, offset, limit) == Page(sorted[offset..], None)
  {
  }

  lemma {:induction false} FollowStep<T>(arranged: Bytes -> seq<T>, n: nat, seed: Bytes, offset: nat,
                                         seeds: nat -> Bytes, k: nat, limit: nat, page: Page<T>)
    requires limit > 0 && Sized(arranged, n) && page == Serve(arranged(seed), seed, offset, limit)
    ensures Follow(arranged, n, Some(Cursor(seed, offset)), seeds, k, limit) ==
      page.items + if page.next.None? then [] else Follow(arranged, n, page.next, seeds, k + 1, limit)
  {
  }

  lemma {:induction false} Joined<T>(all: seq<T>, page: seq<T>, rest: seq<T>, sorted: seq<T>, from: nat, to: nat)
    requires from <= to <= |sorted| && all == page + rest
    requires page == sorted[from..to] && rest == sorted[to..]
    ensures all == sorted[from..]
  {
  }

  lemma {:induction false} FollowOn<T>(arranged: Bytes -> seq<T>, n: nat, seed: Bytes, offset: nat, seeds: nat -> Bytes,
                                       k: nat, limit: nat, sorted: seq<T>)
    requires limit > 0 && Sized(arranged, n) && sorted == arranged(seed) && offset + limit < |sorted| == n
    requires Follow(arranged, n, Some(Cursor(seed, offset + limit)), seeds, k + 1, limit) == sorted[offset + limit..]
    ensures Follow(arranged, n, Some(Cursor(seed, offset)), seeds, k, limit) == sorted[offset..]
  {
    ServeMore(sorted, seed, offset, limit);
    FollowStep(arranged, n, seed, offset, seeds, k, limit,
               Page(sorted[offset..offset + limit], Some(Cursor(seed, offset + limit))));
    Joined(Follow(arranged, n, Some(Cursor(seed, offset)), seeds, k, limit), sorted[offset..offset + limit],
           sorted[offset + limit..], sorted, offset, offset + limit);
  }

  lemma {:induction false} FollowEnds<T>(arranged: Bytes -> seq<T>, n: nat, seed: Bytes, offset: nat,
                                         seeds: nat -> Bytes, k: nat, limit: nat, sorted: seq<T>)
    requires limit > 0 && Sized(arranged, n) && sorted == arranged(seed) && offset <= |sorted| == n <= offset + limit
    ensures Follow(arranged, n, Some(Cursor(seed, offset)), seeds, k, limit) == sorted[offset..]
  {
    ServeLast(sorted, seed, offset, limit);
    FollowStep(arranged, n, seed, offset, seeds, k, limit, Page(sorted[offset..], None));
  }

  lemma {:induction false} FollowIsRest<T>(arranged: Bytes -> seq<T>, n: nat, seed: Bytes, offset: nat,
                                           seeds: nat -> Bytes, k: nat, limit: nat, sorted: seq<T>)
    requires limit > 0 && Sized(arranged, n) && sorted == arranged(seed) && offset <= |sorted| == n
    ensures Follow(arranged, n, Some(Cursor(seed, offset)), seeds, k, limit) == sorted[offset..]
    decreases n - offset
  {
    if offset + limit < n {
      FollowIsRest(arranged, n, seed, offset + limit, seeds, k + 1, limit, sorted);
      FollowOn(arranged, n, seed, offset, seeds, k, limit, sorted);
    } else {
      FollowEnds(arranged, n, seed, offset, seeds, k, limit, sorted);
    }
  }

  lemma {:induction false} FollowAll<T>(arranged: Bytes -> seq<T>, n: nat, seeds: nat -> Bytes, limit: nat)
    requires limit > 0 && Sized(arranged, n)
    ensures Follow(arranged, n, None, seeds, 0, limit) == arranged(seeds(0))
  {
    FollowIsRest(arranged, n, seeds(0), 0, seeds, 0, limit, arranged(seeds(0)));
    assert GetPage(arranged, None, seeds(0), limit) == GetPage(arranged, Some(Cursor(seeds(0), 0)), seeds(0), limit);
  }

  /**
   Following nextCursor from the start over an unchanged candidate set gives the filtered offers in
   the order of the first request's seed, each exactly once, whatever seeds later requests would draw.
   */
  lemma {:induction false} PagingIsComplete(H: Hash, s: SortBy, seeds: nat -> Bytes, limit: nat, es: seq<Enriched>)
    requires limit > 0 && DistinctIds(es)
    ensures Sized(Arrangement(H, s, es), |es|)
    ensures var all := Follow(Arrangement(H, s, es), |es|, None, seeds, 0, limit);
      && multiset(all) == multiset(es)
      && Ascending(Comparator(H, s, seeds(0)), all)
      && DistinctIds(all)
  {
    var before := Comparator(H, s, seeds(0));
    FollowAll(Arrangement(H, s, es), |es|, seeds, limit);
    ComparatorOrders(H, s, seeds(0), es);
    SortAscends(before, es);
    SortPermutes(before, es);
    SortedDistinct(H, s, seeds(0), es);
  }

  lemma {:induction false} SortedDistinct(H: Hash, s: SortBy, seed: Bytes, es: seq<Enriched>)
    requires DistinctIds(es)
    ensures DistinctIds(Sort(Comparator(H, s, seed), es))
  {
    var before := Comparator(H, s, seed);
    var sorted := Sort(before, es);
    ComparatorOrders(H, s, seed, es);
    SortAscends(before, es);
    SortPermutes(before, es);
    forall i, j | 0 <= i < j < |sorted| ensures sorted[i].row.id != sorted[j].row.id {
      assert before(sorted[i], sorted[j]);
      assert sorted[i] != sorted[j];
      assert sorted[i] in multiset(sorted) && sorted[j] in multiset(sorted);
      var p :| 0 <= p < |es| && es[p] == sorted[i];
      var q :| 0 <= q < |es| && es[q] == sorted[j];
      assert p != q;
    }
  }

  // ------------------------------------------------------------ the handler

  /** `getOffers` from the candidate rows on. */
  method GetOffers(H: Hash, f: Filter, s: SortBy, cursor: Option<Cursor>, newSeed: Bytes, limit: Option<int>,
                   candidates: seq<Candidate>, now: int) returns (page: Page<Enriched>)
    ensures page == GetPage(Arrangement(H, s, EnrichAll(f, now, candidates)), cursor, newSeed, PageLimit(limit))
  {
    var enriched: seq<Enriched> := [];
    for i := 0 to |candidates|
      invariant enriched == EnrichAll(f, now, candidates[..i])
    {
      assert candidates[..i + 1][..i] == candidates[..i];
      var row := candidates[i];
      var isFresh := false;
      var price: Option<nat> := None;
      if row.terms.Some? {
        var age := now - row.terms.value.receivedAt;
        var intervalMs := row.intervalSec * 1000;
        isFresh := if f.freshness == Strict then age <= intervalMs else age <= 2 * intervalMs + 30_000;
        price := Some(Millionths(row.terms.value.price));
      }
      if f.freshness != Any && !isFresh {
        continue;
      }
      if f.priceMax.Some? && (price.None? || price.value as real > f.priceMax.value) {
        continue;
      }
      var busy := row.terms.Some? && row.busyFlag;
      if f.availability == Free && busy {
        continue;
      }
      enriched := enriched + [Enriched(row, price, row.terms.Some?, busy)];
    }
    assert candidates[..|candidates|] == candidates;
    var size := PageLimit(limit);
    var seed := if cursor.Some? then cursor.value.seed else newSeed;
    var offset := if cursor.Some? then cursor.value.offset else 0;
    var sorted := Sort(Comparator(H, s, seed), enriched);
    var items := Slice(sorted, offset, offset + size);
    var next := if offset + size < |enriched| then Some(Cursor(seed, offset + size)) else None;
    return Page(items, next);
  }
}
