/** Retry-After over whole call sequences: app/ratelimit.py of both demo runs. */
module RetryAdvice {
  import opened Prelude
  import opened RecencyLists
  import opened SlidingWindow
  import opened BucketEviction
  import L = LruWindow

  // ---- The bucketed limiter ----------------------------------------------------------------------

  /** The hits of a bucket are in order, none later than `upTo`, and no more than the allowance. */
  ghost predicate Orderly(b: Bucket, allowance: int, upTo: real) {
    Sorted(b.hits) && (forall t :: t in b.hits ==> t <= upTo) && |b.hits| <= allowance
  }

  lemma StaysOrderly(window: int, b: Bucket, allowance: int, upTo: real, now: real)
    requires Orderly(b, Max(1, allowance), upTo) && upTo <= now
    ensures Orderly(Hit(b, window, allowance, now).0, Max(1, allowance), now)
  {
    L.HitKeepsClean(window, b, allowance, now);
    HitsWithinAllowance(window, b, allowance, now);
  }

  lemma OwnOrderly(window: int, m: Buckets, c: Call, after: Buckets, d: Decision, allowance: int, upTo: real)
    requires Consumes(m, window, c.id, c.allowance, c.now, after, d) && Max(1, c.allowance) == allowance
    requires c.id in m ==> Orderly(m[c.id], allowance, upTo) && upTo <= c.now
    ensures c.id in after && Orderly(after[c.id], allowance, c.now)
  {
    ConsumesOwn(window, m, c, after, d);
    StaysOrderly(window, Start(m, c), c.allowance, if c.id in m then upTo else c.now, c.now);
  }

  /** With one allowance for the bucket, every table of a run holds it in order. */
  lemma {:induction false} AlwaysOrderly(window: int, calls: seq<Call>, ms: seq<Buckets>, ds: seq<Decision>,
                                         n: nat, id: BucketId, allowance: int)
    requires Serves(window, calls, ms, ds) && n <= |calls| && FixedAllowance(calls, id, allowance)
    ensures id in ms[n] ==> Orderly(ms[n][id], allowance, Last(calls, n))
  {
    if n > 0 {
      AlwaysOrderly(window, calls, ms, ds, n - 1, id, allowance);
      assert ServesOne(window, calls, ms, ds, n - 1);
      if calls[n - 1].id == id {
        OwnOrderly(window, ms[n - 1], calls[n - 1], ms[n], ds[n - 1], allowance, Last(calls, n - 1));
      } else {
        OtherBucket(window, ms[n - 1], calls[n - 1], ms[n], ds[n - 1], id);
      }
    }
  }

  ghost predicate NotCalled(calls: seq<Call>, lo: nat, hi: nat, id: BucketId)
    requires hi <= |calls|
  {
    forall x :: lo <= x < hi ==> calls[x].id != id
  }

  /** Between two of its calls a bucket does not change; it can only go. */
  lemma {:induction false} Untouched(window: int, calls: seq<Call>, ms: seq<Buckets>, ds: seq<Decision>,
                                     lo: nat, hi: nat, id: BucketId)
    requires Serves(window, calls, ms, ds) && lo <= hi <= |calls| && NotCalled(calls, lo, hi, id)
    ensures id in ms[hi] ==> id in ms[lo] && ms[hi][id] == ms[lo][id]
    decreases hi - lo
  {
    if lo < hi {
      Untouched(window, calls, ms, ds, lo, hi - 1, id);
      assert ServesOne(window, calls, ms, ds, hi - 1);
      OtherBucket(window, ms[hi - 1], calls[hi - 1], ms[hi], ds[hi - 1], id);
    }
  }

  lemma FirstHitIn(hits: seq<real>, cutoff: real)
    requires Sorted(hits) && Pruned(hits, cutoff) != []
    ensures Pruned(hits, cutoff)[0] > cutoff
  {
    var k := PrunedSuffix(hits, cutoff);
  }

  /** A denial on an orderly bucket says how long to wait, also when nothing is waited. */
  lemma {:induction false} AdviceOnBucket(window: int, b: Bucket, allowance: int, now: real, k: nat)
    requires window >= 1 && Orderly(b, Max(1, allowance), now) && !Hit(b, window, allowance, now).1.allowed
    ensures var (b', d) := Hit(b, window, allowance, now);
      && 1 <= d.retryAfter <= window
      && (Hit(b', window, allowance, now + k as real).1.allowed <==> k >= d.retryAfter)
  {
    PrunedShorter(b.hits, now - window as real);
    RetryAfterExact(window, b, allowance, now, k);
    if k == 0 {
      DeniedThenAdmitted(window, b, allowance, now, 0);
      FirstHitIn(b.hits, now - window as real);
    }
  }

  lemma AllowanceAlone(b: Bucket, window: int, a: int, a': int, now: real)
    requires Max(1, a) == Max(1, a')
    ensures Hit(b, window, a, now) == Hit(b, window, a', now)
  {
  }

  /**
   The advice of a denial, in any run: after k whole seconds, whatever other buckets do
   meanwhile, the next call of the bucket is admitted exactly when the advice has been
   followed or the bucket has been evicted.
   */
  lemma {:induction false} RetryAfterServed(window: int, calls: seq<Call>, ms: seq<Buckets>, ds: seq<Decision>,
                         i: nat, j: nat, k: nat, allowance: int)
    requires window >= 1 && Serves(window, calls, ms, ds) && i < j < |calls|
    requires calls[j].id == calls[i].id && NotCalled(calls, i + 1, j, calls[i].id)
    requires FixedAllowance(calls, calls[i].id, allowance)
    requires !ds[i].allowed && calls[j].now == calls[i].now + k as real
    ensures 1 <= ds[i].retryAfter <= window
    ensures ds[j].allowed <==> k >= ds[i].retryAfter || !Listed(RosterAfter(calls, j), calls[i].id)
  {
    var c, c' := calls[i], calls[j];
    AlwaysOrderly(window, calls, ms, ds, i, c.id, allowance);
    OwnHit(window, calls, ms, ds, i);
    OwnHit(window, calls, ms, ds, j);
    AdviceOnBucket(window, Start(ms[i], c), c.allowance, c.now, k);
    ListedInTable(window, calls, ms, ds, j, c.id);
    if c.id in ms[j] {
      Untouched(window, calls, ms, ds, i + 1, j, c.id);
      AllowanceAlone(ms[j][c.id], window, c.allowance, c'.allowance, c'.now);
    } else {
      EmptyAdmits(window, Start(ms[j], c'), c'.allowance, c'.now);
    }
  }

  /** For a recognised key there is no exception. */
  lemma {:induction false} KeyRetryAfter(window: int, calls: seq<Call>, ms: seq<Buckets>, ds: seq<Decision>,
                      i: nat, j: nat, k: nat, allowance: int)
    requires window >= 1 && Serves(window, calls, ms, ds) && i < j < |calls|
    requires calls[j].id == calls[i].id && NotCalled(calls, i + 1, j, calls[i].id) && calls[i].id.KeyBucket?
    requires FixedAllowance(calls, calls[i].id, allowance)
    requires !ds[i].allowed && calls[j].now == calls[i].now + k as real
    ensures ds[j].allowed <==> k >= ds[i].retryAfter
  {
    RetryAfterServed(window, calls, ms, ds, i, j, k, allowance);
    OwnHit(window, calls, ms, ds, i);
    KeyBucketsKept(window, calls, ms, ds, j, calls[i].id);
    StaysIn(ms, i + 1, j, calls[i].id);
    ListedInTable(window, calls, ms, ds, j, calls[i].id);
  }

  lemma {:induction false} StaysIn(ms: seq<Buckets>, lo: nat, hi: nat, id: BucketId)
    requires lo <= hi < |ms| && Kept(ms, hi, id) && id in ms[lo]
    ensures id in ms[hi]
    decreases hi - lo
  {
    if lo < hi {
      StaysIn(ms, lo, hi - 1, id);
    }
  }

  /** With an allowance that has shrunk the advice can be too short: two live hits, room for one, and only one leaves. */
  lemma ShrunkAllowance(b: Bucket)
    requires b == Bucket([0.0, 0.5], 2, 0.5)
    ensures var (b', d) := Hit(b, 10, 1, 1.0);
      !d.allowed && d.retryAfter == 9 && !Hit(b', 10, 1, 1.0 + 9.0).1.allowed
  {
    DeniedThenAdmitted(10, b, 1, 1.0, 9);
  }

  // ---- From requests to calls --------------------------------------------------------------------

  datatype Arrival = Arrival(request: Request, now: real)

  /** The calls the middleware makes for a sequence of requests. */
  function Routed(q: Quotas, enabled: bool, arrivals: seq<Arrival>): seq<Call> {
    if arrivals == [] then []
    else
      var n := |arrivals| - 1;
      Routed(q, enabled, arrivals[..n]) +
      match Route(q, enabled, arrivals[n].request)
      case None => []
      case Some((id, allowance)) => [Call(id, allowance, arrivals[n].now)]
  }

  lemma {:induction false} RoutedFrom(q: Quotas, enabled: bool, arrivals: seq<Arrival>, i: nat) returns (r: Request)
    requires i < |Routed(q, enabled, arrivals)|
    ensures enabled
    ensures var c := Routed(q, enabled, arrivals)[i]; Route(q, true, r) == Some((c.id, c.allowance))
  {
    var n := |arrivals| - 1;
    if i < |Routed(q, enabled, arrivals[..n])| {
      r := RoutedFrom(q, enabled, arrivals[..n], i);
    } else {
      r := arrivals[n].request;
    }
  }

  /** What requests ask for under one set of quotas never varies for a bucket. */
  lemma {:induction false} RoutedFixed(q: Quotas, enabled: bool, arrivals: seq<Arrival>, i: nat)
    requires i < |Routed(q, enabled, arrivals)|
    ensures var calls := Routed(q, enabled, arrivals);
      FixedAllowance(calls, calls[i].id, Max(1, calls[i].allowance))
  {
    var calls := Routed(q, enabled, arrivals);
    var r := RoutedFrom(q, enabled, arrivals, i);
    forall j | 0 <= j < |calls| && calls[j].id == calls[i].id
      ensures calls[j].allowance == calls[i].allowance
    {
      var r' := RoutedFrom(q, enabled, arrivals, j);
      RouteFixesAllowance(q, true, r, r');
    }
  }

  /** The advice of a denied request, for whatever mix of requests. */
  lemma {:induction false} RequestRetryAfter(q: Quotas, enabled: bool, arrivals: seq<Arrival>, window: int, ms: seq<Buckets>,
                          ds: seq<Decision>, i: nat, j: nat, k: nat)
    requires window >= 1 && Serves(window, Routed(q, enabled, arrivals), ms, ds)
    requires var calls := Routed(q, enabled, arrivals);
      && i < j < |calls| && calls[j].id == calls[i].id && NotCalled(calls, i + 1, j, calls[i].id)
      && !ds[i].allowed && calls[j].now == calls[i].now + k as real
    ensures 1 <= ds[i].retryAfter <= window
    ensures var calls := Routed(q, enabled, arrivals);
      ds[j].allowed <==> k >= ds[i].retryAfter || !Listed(RosterAfter(calls, j), calls[i].id)
  {
    var calls := Routed(q, enabled, arrivals);
    RoutedFixed(q, enabled, arrivals, i);
    RetryAfterServed(window, calls, ms, ds, i, j, k, Max(1, calls[i].allowance));
  }

  // ---- The table of recent keys --------------------------------------------------------------------

  ghost predicate KeyNotCalled(calls: seq<L.LruCall>, lo: nat, hi: nat, key: L.Key)
    requires hi <= |calls|
  {
    forall x :: lo <= x < hi ==> calls[x].key != key
  }

  lemma {:induction false} KeyUntouched(window: int, calls: seq<L.LruCall>, ts: seq<L.Table>, ds: seq<Decision>,
                                        lo: nat, hi: nat, key: L.Key)
    requires window >= 1 && L.Serves(window, calls, ts, ds) && lo <= hi <= |calls| && KeyNotCalled(calls, lo, hi, key)
    ensures key in ts[hi].hits ==> key in ts[lo].hits && ts[hi].hits[key] == ts[lo].hits[key]
    decreases hi - lo
  {
    if lo < hi {
      KeyUntouched(window, calls, ts, ds, lo, hi - 1, key);
      L.CleanStep(window, calls, ts, ds, hi - 1);
      L.OtherKey(ts[hi - 1], window, calls[hi - 1], key);
    }
  }

  /** In a run, a call does to its key's deque what the bucketed limiter does to a bucket. */
  lemma {:induction false} CallIsHit(window: int, calls: seq<L.LruCall>, ts: seq<L.Table>, ds: seq<Decision>, n: nat)
    requires window >= 1 && L.Serves(window, calls, ts, ds) && n < |calls|
    ensures var c := calls[n];
      var hits := L.HitsOf(ts[n], c.key);
      var (b, d) := Hit(Bucket(hits, c.limit, c.now), window, c.limit, c.now);
      && c.limit >= 1 && Sorted(hits) && (forall h :: h in hits ==> h <= c.now)
      && ds[n] == d && c.key in ts[n + 1].hits && ts[n + 1].hits[c.key] == b.hits
  {
    var c := calls[n];
    L.CleanStep(window, calls, ts, ds, n);
    assert L.ServesOne(window, calls, ts, ds, n);
    L.SameAsBucket(ts[n], window, c.key, c.limit, c.now, c.now);
  }

  lemma EmptyAdmits(window: int, b: Bucket, allowance: int, now: real)
    requires b.hits == []
    ensures Hit(b, window, allowance, now).1.allowed
  {
  }

  /** AdviceOnBucket for deques, one of which may have been dropped since. */
  lemma {:induction false} AdviceOnHits(window: int, hits: seq<real>, limit: int, now: real, k: nat, later: seq<real>, known: bool)
    requires window >= 1 && limit >= 1 && Orderly(Bucket(hits, limit, now), limit, now)
    requires var (b, d) := Hit(Bucket(hits, limit, now), window, limit, now);
      !d.allowed && later == if known then b.hits else []
    ensures var d := Hit(Bucket(hits, limit, now), window, limit, now).1;
      && 1 <= d.retryAfter <= window
      && var at := now + k as real;
         Hit(Bucket(later, limit, at), window, limit, at).1.allowed <==> k >= d.retryAfter || !known
  {
    var b := Bucket(hits, limit, now);
    var at := now + k as real;
    AdviceOnBucket(window, b, limit, now, k);
    if known {
      SeenAlone(Hit(b, window, limit, now).0, Bucket(later, limit, at), window, limit, at);
    } else {
      EmptyAdmits(window, Bucket(later, limit, at), limit, at);
    }
  }

  /** A decision looks only at the hits. */
  lemma SeenAlone(b: Bucket, b': Bucket, window: int, allowance: int, now: real)
    requires b.hits == b'.hits
    ensures Hit(b, window, allowance, now) == Hit(b', window, allowance, now)
  {
  }

  /**
   The same for the table of recent keys: the next call of a denied key is admitted
   exactly when the advice has been followed or the key has fallen out of the table.
   */
  lemma {:induction false} LruRetryAfterServed(window: int, calls: seq<L.LruCall>, ts: seq<L.Table>, ds: seq<Decision>,
                            i: nat, j: nat, k: nat)
    requires window >= 1 && L.Serves(window, calls, ts, ds) && i < j < |calls|
    requires calls[j].key == calls[i].key && KeyNotCalled(calls, i + 1, j, calls[i].key)
    requires forall x :: 0 <= x < |calls| && calls[x].key == calls[i].key ==> calls[x].limit == calls[i].limit
    requires !ds[i].allowed && calls[j].now == calls[i].now + k as real
    ensures 1 <= ds[i].retryAfter <= window
    ensures ds[j].allowed <==>
      k >= ds[i].retryAfter || calls[i].key !in Newest(L.Recency(calls, j), L.MAX_LRU_KEYS)
  {
    var c := calls[i];
    CallIsHit(window, calls, ts, ds, i);
    CallIsHit(window, calls, ts, ds, j);
    L.WithinLimit(window, calls, ts, ds, i, c.key, c.limit);
    L.HoldsNewest(window, calls, ts, ds, j, c.key);
    KeyUntouched(window, calls, ts, ds, i + 1, j, c.key);
    AdviceOnHits(window, L.HitsOf(ts[i], c.key), c.limit, c.now, k, L.HitsOf(ts[j], c.key), c.key in ts[j].hits);
  }
}
