/** The fixed-window rate limiter. */
module RateLimit {
  import opened Arith
  import opened KeyLifetime

  /** A counter key names the caller and the start of the aligned window. */
  datatype CounterKey = CounterKey(key: string, windowStart: int)

  datatype Counter = Counter(n: nat, expiresAt: int)

  type Counters = map<CounterKey, Counter>

  function WindowStart(now: nat, window: nat): nat
    requires window > 0
  {
    now / window * window
  }

  /** INCR, which starts over where there is no unexpired counter, and PEXPIRE on the first of a window. */
  function Bump(s: Counters, k: CounterKey, now: nat, window: nat): Counters {
    var n := Read(s, k, now) + 1;
    s[k := Counter(n, if n == 1 then now + window else s[k].expiresAt)]
  }

  function Read(s: Counters, k: CounterKey, now: nat): (n: nat)
    ensures n > 0 ==> k in s
  {
    if k in s && Unexpired(s[k].expiresAt, now) then s[k].n else 0
  }

  /** A call counts one more on its own counter while that can be read, and starts it anew for a window if not. */
  lemma {:induction false} CountsOneMore(s: Counters, k: CounterKey, now: nat, window: nat)
    ensures var t := Bump(s, k, now, window);
      && k in t && (forall j :: j != k ==> (j in t <==> j in s) && (j in s ==> t[j] == s[j]))
      && (k !in s || s[k].expiresAt < now ==> t[k] == Counter(1, now + window))
      && (k in s && now <= s[k].expiresAt && s[k].n > 0 ==> t[k] == Counter(s[k].n + 1, s[k].expiresAt))
  {
  }

  class Limiter {
    var counters: Counters

    constructor ()
      ensures counters == map[]
    {
      counters := map[];
    }

    /** `rateLimit`: 0 to admit, otherwise the milliseconds until the window ends. */
    method Limit(key: string, max: nat, window: nat, now: nat) returns (retry: int)
      requires window > 0
      modifies this
      ensures var k := CounterKey(key, WindowStart(now, window));
        && counters == Bump(old(counters), k, now, window)
        && retry == if Read(old(counters), k, now) < max then 0 else k.windowStart + window - now
    {
      var windowStart := now / window * window;
      var rk := CounterKey(key, windowStart);
      if rk in counters && Unexpired(counters[rk].expiresAt, now) {
        counters := counters[rk := counters[rk].(n := counters[rk].n + 1)];
      } else {
        counters := counters[rk := Counter(1, 0)];
      }
      var n := counters[rk].n;
      if n == 1 {
        counters := counters[rk := Counter(1, now + window)];
      }
      return if n > max then windowStart + window - now else 0;
    }
  }

  // ------------------------------------------------------------ traces

  /** Calls of every key in the order they were made; each key has one window length. */
  datatype Call = Call(key: string, now: nat)

  ghost predicate Monotone(calls: seq<Call>) {
    forall i, j :: 0 <= i < j < |calls| ==> calls[i].now <= calls[j].now
  }

  function KeyOf(window: string -> nat, c: Call): CounterKey
    requires window(c.key) > 0
  {
    CounterKey(c.key, WindowStart(c.now, window(c.key)))
  }

  ghost predicate Positive(window: string -> nat) { forall k :: window(k) > 0 }

  ghost function After(calls: seq<Call>, window: string -> nat): Counters
    requires Positive(window)
  {
    if calls == [] then map[]
    else
      var n := |calls| - 1;
      Bump(After(calls[..n], window), KeyOf(window, calls[n]), calls[n].now, window(calls[n].key))
  }

  /** How many of the calls share a counter key. */
  ghost function Hits(calls: seq<Call>, window: string -> nat, k: CounterKey): nat
    requires Positive(window)
  {
    if calls == [] then 0
    else Hits(calls[..|calls| - 1], window, k) + if KeyOf(window, calls[|calls| - 1]) == k then 1 else 0
  }

  ghost predicate Admitted(calls: seq<Call>, window: string -> nat, max: string -> nat, i: nat)
    requires Positive(window) && i < |calls|
  {
    Read(After(calls[..i], window), KeyOf(window, calls[i]), calls[i].now) < max(calls[i].key)
  }

  lemma {:induction false} WindowContains(now: nat, window: nat)
    requires window > 0
    ensures WindowStart(now, window) <= now < WindowStart(now, window) + window
  {
    assert now == now / window * window + now % window;
  }

  /** A counter holds the number of its window's calls and outlives its window. */
  lemma {:induction false} CounterCounts(calls: seq<Call>, window: string -> nat, k: CounterKey)
    requires Positive(window) && Monotone(calls)
    ensures var s := After(calls, window);
      if Hits(calls, window, k) == 0 then k !in s
      else k in s && s[k].n == Hits(calls, window, k) && s[k].expiresAt >= k.windowStart + window(k.key)
    decreases |calls|
  {
    if calls != [] {
      var n := |calls| - 1;
      CounterCounts(calls[..n], window, k);
      var c := calls[n];
      WindowContains(c.now, window(c.key));
    }
  }

  /** A counter never expires inside its own window. */
  lemma {:induction false} CounterOutlivesWindow(calls: seq<Call>, window: string -> nat, k: CounterKey, now: nat)
    requires Positive(window) && Monotone(calls)
    requires k in After(calls, window) && now < k.windowStart + window(k.key)
    ensures Unexpired(After(calls, window)[k].expiresAt, now)
  {
    CounterCounts(calls, window, k);
  }

  /** A call is admitted exactly when fewer than max calls of its key came before it in its window. */
  lemma {:induction false} AdmittedIff(calls: seq<Call>, window: string -> nat, max: string -> nat, i: nat)
    requires Positive(window) && Monotone(calls) && i < |calls|
    ensures Admitted(calls, window, max, i) <==>
      Hits(calls[..i], window, KeyOf(window, calls[i])) < max(calls[i].key)
  {
    var k := KeyOf(window, calls[i]);
    CounterCounts(calls[..i], window, k);
    WindowContains(calls[i].now, window(calls[i].key));
  }

  /** The calls of a key admitted at an instant from lo on and before hi. */
  ghost function AdmittedIn(calls: seq<Call>, window: string -> nat, max: string -> nat, key: string, lo: int, hi: int,
                            upTo: nat): nat
    requires Positive(window) && upTo <= |calls|
  {
    if upTo == 0 then 0
    else
      var c := calls[upTo - 1];
      AdmittedIn(calls, window, max, key, lo, hi, upTo - 1)
      + if c.key == key && lo <= c.now < hi && Admitted(calls, window, max, upTo - 1) then 1 else 0
  }

  lemma {:induction false} WindowOf(now: nat, window: nat, start: nat, q: nat)
    requires window > 0 && start == q * window
    ensures WindowStart(now, window) == start <==> start <= now < start + window
  {
    WindowContains(now, window);
    if start <= now < start + window {
      QuotientUnique(now, window, q, now - start);
    }
  }

  lemma {:induction false} WindowCount(calls: seq<Call>, window: string -> nat, max: string -> nat, key: string, q: nat,
                                       upTo: nat)
    requires Positive(window) && Monotone(calls) && upTo <= |calls|
    ensures var start := q * window(key);
      AdmittedIn(calls, window, max, key, start, start + window(key), upTo) ==
      Min(max(key), Hits(calls[..upTo], window, CounterKey(key, start)))
    decreases upTo
  {
    if upTo > 0 {
      var start := q * window(key);
      var c := calls[upTo - 1];
      WindowCount(calls, window, max, key, q, upTo - 1);
      AdmittedIff(calls, window, max, upTo - 1);
      assert calls[..upTo][..upTo - 1] == calls[..upTo - 1];
      if c.key == key {
        WindowOf(c.now, window(key), start, q);
      }
    }
  }

  /** Never more than max admissions of a key in one of its aligned windows. */
  lemma {:induction false} AtMostMaxPerWindow(calls: seq<Call>, window: string -> nat, max: string -> nat, key: string,
                                              q: nat)
    requires Positive(window) && Monotone(calls)
    ensures AdmittedIn(calls, window, max, key, q * window(key), q * window(key) + window(key), |calls|) <= max(key)
  {
    WindowCount(calls, window, max, key, q, |calls|);
  }

  lemma {:induction false} AdmittedSplits(calls: seq<Call>, window: string -> nat, max: string -> nat, key: string,
                                          lo: int, mid: int, hi: int, upTo: nat)
    requires Positive(window) && upTo <= |calls| && lo <= mid <= hi
    ensures AdmittedIn(calls, window, max, key, lo, hi, upTo) ==
      AdmittedIn(calls, window, max, key, lo, mid, upTo) + AdmittedIn(calls, window, max, key, mid, hi, upTo)
    decreases upTo
  {
    if upTo > 0 {
      AdmittedSplits(calls, window, max, key, lo, mid, hi, upTo - 1);
    }
  }

  lemma {:induction false} AdmittedGrows(calls: seq<Call>, window: string -> nat, max: string -> nat, key: string,
                                         lo: int, lo': int, hi: int, hi': int, upTo: nat)
    requires Positive(window) && upTo <= |calls| && lo' <= lo && hi <= hi'
    ensures AdmittedIn(calls, window, max, key, lo, hi, upTo) <= AdmittedIn(calls, window, max, key, lo', hi', upTo)
    decreases upTo
  {
    if upTo > 0 {
      AdmittedGrows(calls, window, max, key, lo, lo', hi, hi', upTo - 1);
    }
  }

  /** Never more than 2 * max admissions of a key in any interval of one window's length. */
  lemma {:induction false} AtMostTwiceMax(calls: seq<Call>, window: string -> nat, max: string -> nat, key: string,
                                          t: nat)
    requires Positive(window) && Monotone(calls)
    ensures AdmittedIn(calls, window, max, key, t, t + window(key), |calls|) <= 2 * max(key)
  {
    var w := window(key);
    var q := t / w;
    var start := q * w;
    WindowContains(t, w);
    var next := (q + 1) * w;
    assert next == start + w;
    AdmittedSplits(calls, window, max, key, t, next, t + w, |calls|);
    AdmittedGrows(calls, window, max, key, t, start, next, next, |calls|);
    AdmittedGrows(calls, window, max, key, next, next, t + w, next + w, |calls|);
    AtMostMaxPerWindow(calls, window, max, key, q);
    AtMostMaxPerWindow(calls, window, max, key, q + 1);
  }

  // ------------------------------------------------------------ exactly when a sliding window would hold

  /** max calls at t and max calls at b. */
  function Burst(key: string, max: nat, t: nat, b: nat): (calls: seq<Call>)
    ensures |calls| == 2 * max
  {
    seq(2 * max, i requires 0 <= i < 2 * max => Call(key, if i < max then t else b))
  }

  lemma {:induction false} BurstHits(key: string, max: nat, t: nat, b: nat, window: string -> nat, k: CounterKey,
                                     n: nat)
    requires Positive(window) && n <= 2 * max
    ensures Hits(Burst(key, max, t, b)[..n], window, k) ==
      (if KeyOf(window, Call(key, t)) == k then Min(n, max) else 0)
      + (if KeyOf(window, Call(key, b)) == k && n > max then n - max else 0)
  {
    var calls := Burst(key, max, t, b);
    if n > 0 {
      BurstHits(key, max, t, b, window, k, n - 1);
      assert calls[..n][..n - 1] == calls[..n - 1];
    }
  }

  lemma {:induction false} NoneAdmitted(calls: seq<Call>, window: string -> nat, max: string -> nat, key: string,
                                        lo: int, hi: int, upTo: nat)
    requires Positive(window) && upTo <= |calls|
    requires forall i :: 0 <= i < |calls| ==> !(lo <= calls[i].now < hi)
    ensures AdmittedIn(calls, window, max, key, lo, hi, upTo) == 0
  {
    if upTo > 0 {
      NoneAdmitted(calls, window, max, key, lo, hi, upTo - 1);
    }
  }

  /** An instant inside an aligned window, and the start of the next one. */
  lemma {:induction false} NextBoundary(t: nat, w: nat) returns (q: nat, start: nat, b: nat)
    requires w > 0 && t % w != 0
    ensures start == q * w && b == (q + 1) * w == start + w
    ensures start < t < b < t + w
    ensures WindowStart(t, w) == start && WindowStart(b, w) == b
  {
    q := t / w;
    start := q * w;
    b := (q + 1) * w;
    assert t == start + t % w;
    WindowOf(b, w, b, q + 1);
  }

  /** Of the two halves of a burst, the one in a window fills it. */
  lemma {:induction false} BurstCount(window: string -> nat, max: string -> nat, key: string, t: nat, b: nat, q: nat)
    requires Positive(window) && Monotone(Burst(key, max(key), t, b))
    requires (WindowStart(t, window(key)) == q * window(key)) != (WindowStart(b, window(key)) == q * window(key))
    ensures var start, calls := q * window(key), Burst(key, max(key), t, b);
      AdmittedIn(calls, window, max, key, start, start + window(key), |calls|) == max(key)
  {
    var m, calls := max(key), Burst(key, max(key), t, b);
    BurstHits(key, m, t, b, window, CounterKey(key, q * window(key)), 2 * m);
    assert calls[..2 * m] == calls;
    WindowCount(calls, window, max, key, q, |calls|);
  }

  /** Where t is not a window's start, 2 * max calls are admitted within one window's length from t. */
  lemma {:induction false} BurstAdmitted(window: string -> nat, max: string -> nat, key: string, t: nat)
    returns (calls: seq<Call>)
    requires Positive(window) && t % window(key) != 0
    ensures Monotone(calls)
    ensures AdmittedIn(calls, window, max, key, t, t + window(key), |calls|) == 2 * max(key)
  {
    var w, m := window(key), max(key);
    var q, start, b := NextBoundary(t, w);
    calls := Burst(key, m, t, b);
    BurstCount(window, max, key, t, b, q);
    BurstCount(window, max, key, t, b, q + 1);
    NoneAdmitted(calls, window, max, key, start, t, |calls|);
    NoneAdmitted(calls, window, max, key, t + w, b + w, |calls|);
    AdmittedSplits(calls, window, max, key, start, t, b, |calls|);
    AdmittedSplits(calls, window, max, key, b, t + w, b + w, |calls|);
    AdmittedSplits(calls, window, max, key, t, b, t + w, |calls|);
  }

  /** No trace gets more than max admissions of the key in the window's length from t on. */
  ghost predicate SlidingBound(window: string -> nat, max: string -> nat, key: string, t: nat)
    requires Positive(window)
  {
    forall calls :: Monotone(calls) ==> AdmittedIn(calls, window, max, key, t, t + window(key), |calls|) <= max(key)
  }

  lemma {:induction false} AlignedBound(calls: seq<Call>, window: string -> nat, max: string -> nat, key: string,
                                        t: nat)
    requires Positive(window) && Monotone(calls) && (max(key) == 0 || t % window(key) == 0)
    ensures AdmittedIn(calls, window, max, key, t, t + window(key), |calls|) <= max(key)
  {
    if max(key) == 0 {
      AtMostTwiceMax(calls, window, max, key, t);
    } else {
      var q := t / window(key);
      assert t == q * window(key);
      AtMostMaxPerWindow(calls, window, max, key, q);
    }
  }

  /** The bound of a sliding window holds from t on exactly if nothing is ever admitted or t starts a fixed window. */
  lemma {:induction false} SlidingBoundIff(window: string -> nat, max: string -> nat, key: string, t: nat)
    requires Positive(window)
    ensures SlidingBound(window, max, key, t) <==> max(key) == 0 || t % window(key) == 0
  {
    if max(key) == 0 || t % window(key) == 0 {
      forall calls | Monotone(calls)
        ensures AdmittedIn(calls, window, max, key, t, t + window(key), |calls|) <= max(key)
      {
        AlignedBound(calls, window, max, key, t);
      }
    } else {
      var calls := BurstAdmitted(window, max, key, t);
    }
  }

  /** A caller that waits the returned delay comes back in a later window. */
  lemma {:induction false} RetryLandsLater(now: nat, window: nat, later: nat)
    requires window > 0 && later >= now + (WindowStart(now, window) + window - now)
    ensures WindowStart(later, window) >= WindowStart(now, window) + window
  {
    var q, l := now / window, later / window;
    var e := l - q;
    assert later == l * window + later % window;
    assert e * window == l * window - q * window;
    assert e <= 0 ==> e * window <= 0;
    assert (e - 1) * window == e * window - window && (e >= 1 ==> (e - 1) * window >= 0);
  }

  /** The delay a limited caller is told ends exactly where the window does. */
  lemma {:induction false} RetryIsNextWindow(now: nat, window: nat)
    requires window > 0
    ensures var retry := WindowStart(now, window) + window - now;
      0 < retry <= window && (now + retry) % window == 0 && WindowStart(now + retry, window) == now + retry
  {
    var q := now / window;
    assert now == q * window + now % window;
    assert WindowStart(now, window) + window == (q + 1) * window;
    QuotientUnique((q + 1) * window, window, q + 1, 0);
  }

  /** No counter is kept longer than its window and the next one. */
  lemma {:induction false} CounterEnds(calls: seq<Call>, window: string -> nat, k: CounterKey)
    requires Positive(window) && Monotone(calls) && k in After(calls, window)
    ensures After(calls, window)[k].expiresAt < k.windowStart + 2 * window(k.key)
    decreases |calls|
  {
    if calls != [] {
      var n := |calls| - 1;
      var c := calls[n];
      WindowContains(c.now, window(c.key));
      if k in After(calls[..n], window) {
        CounterEnds(calls[..n], window, k);
      }
    }
  }
}
