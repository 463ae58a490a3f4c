/**
 runs/demo-greenfield/workspace/app/ratelimit.py: a sliding window per recent key.

 The table is an ordered dictionary of deques; on its own deque a key is treated
 as a bucket of the other limiter is, and the oldest keys go when it overflows.
 */
module LruWindow {
  import opened Prelude
  import opened RecencyLists
  import opened SlidingWindow

  // The same sliding window kept in an OrderedDict, from which the least recently
  // used key is dropped when it overflows.

  // Client keys are salted digests, compared only for equality.
  type Key = nat

  // The OrderedDict: its keys oldest first, and their deques.
  datatype Table = Table(order: seq<Key>, hits: map<Key, seq<real>>)

  const MAX_LRU_KEYS: nat := 20000

  ghost predicate Valid(t: Table) {
    && Distinct(t.order) && ToSet(t.order) == t.hits.Keys
    && forall k :: k in t.hits ==> t.hits[k] != []
  }

  function Touched(t: Table, key: Key, hits: seq<real>): Table {
    Table(Recalled(t.order, key), t.hits[key := hits])
  }

  function HitsOf(t: Table, key: Key): seq<real> {
    if key in t.hits then t.hits[key] else []
  }

  /** Drop empty deques, then the oldest keys, until the table fits. */
  function DropEmpty(t: Table): Table {
    Table(Filter(t.order, k => k in t.hits && t.hits[k] != []), map k | k in t.hits && t.hits[k] != [] :: t.hits[k])
  }

  function PopOldest(t: Table): Table
    decreases |t.order|
  {
    if |t.order| <= MAX_LRU_KEYS then t else PopOldest(Table(t.order[1..], t.hits - {t.order[0]}))
  }

  function Trimmed(t: Table): Table {
    if |t.order| <= MAX_LRU_KEYS then t else PopOldest(DropEmpty(t))
  }

  function Consumed(t: Table, window: int, key: Key, limit: int, now: real): (Table, Decision)
    requires limit >= 1
  {
    var live := Pruned(HitsOf(t, key), now - window as real);
    if |live| >= limit then
      (Touched(t, key, live), Decision(false, Max(1, Ceil(window as real - (now - live[0])))))
    else
      (Trimmed(Touched(t, key, live + [now])), Decision(true, 0))
  }

  lemma OneLess(start: map<Key, seq<real>>, gone: seq<Key>, i: nat)
    requires i < |gone|
    ensures (start - ToSet(gone[..i])) - {gone[i]} == start - ToSet(gone[..i + 1])
  {
    assert gone[..i + 1] == gone[..i] + [gone[i]];
    assert ToSet(gone[..i + 1]) == ToSet(gone[..i]) + {gone[i]};
  }

  lemma StaleGone(start: map<Key, seq<real>>, order: seq<Key>, stale: seq<Key>)
    requires ToSet(order) == start.Keys && forall k :: k in stale <==> k in order && k in start && start[k] == []
    ensures start - ToSet(stale) == map k | k in start && start[k] != [] :: start[k]
  {
    forall k
      ensures k in stale <==> k in start && start[k] == []
    {
      assert k in order <==> k in ToSet(order);
    }
  }

  class RateLimitMiddleware {
    const window: int
    var order: seq<Key>
    var hits: map<Key, seq<real>>

    constructor (window: int)
      ensures this.window == window && Contents() == Table([], map[])
    {
      this.window := window;
      order, hits := [], map[];
    }

    function Contents(): Table
      reads this
    {
      Table(order, hits)
    }

    /** _prune_locked */
    method Trim()
      requires ToSet(order) == hits.Keys
      modifies this
      ensures Contents() == Trimmed(old(Contents()))
    {
      if |order| <= MAX_LRU_KEYS {
        return;
      }
      DropStale();
      ghost var dropped := Contents();
      while |order| > MAX_LRU_KEYS
        invariant PopOldest(Contents()) == PopOldest(dropped)
        decreases |order|
      {
        hits := hits - {order[0]};
        order := order[1..];
      }
    }

    method DropStale()
      requires ToSet(order) == hits.Keys
      modifies this
      ensures Contents() == DropEmpty(old(Contents()))
    {
      var start := hits;
      var stale := Filter(order, k => k in start && start[k] == []);
      order := Filter(order, k => k in start && start[k] != []);
      for i := 0 to |stale|
        invariant hits == start - ToSet(stale[..i])
        invariant order == old(DropEmpty(Contents()).order)
      {
        OneLess(start, stale, i);
        hits := hits - {stale[i]};
      }
      assert stale[..|stale|] == stale;
      StaleGone(start, old(order), stale);
    }

    /** The limit comes from validated settings, which keep it at least 1. */
    method Consume(key: Key, limit: int, now: real) returns (d: Decision)
      requires limit >= 1 && ToSet(order) == hits.Keys
      modifies this
      ensures (Contents(), d) == Consumed(old(Contents()), window, key, limit, now)
    {
      var live := HitsOf(Contents(), key);
      order := Recalled(order, key);  // insert if new, then move_to_end
      while live != [] && now - live[0] >= window as real
        invariant Pruned(live, now - window as real) == Pruned(old(HitsOf(Contents(), key)), now - window as real)
        decreases |live|
      {
        live := live[1..];
      }
      if |live| >= limit {
        hits := hits[key := live];
        return Decision(false, Max(1, Ceil(window as real - (now - live[0]))));
      }
      hits := hits[key := live + [now]];
      forall k
        ensures k in ToSet(order) <==> k in hits.Keys
      {
        assert k in old(order) <==> k in ToSet(old(order));
      }
      Trim();
      d := Decision(true, 0);
    }
  }

  // ---- What a call does -----------------------------------------------------------------

  /** What the bucketed limiter would do with this key's deque. */
  function AsBucket(t: Table, window: int, key: Key, limit: int, now: real, seen: real): (Bucket, Decision) {
    Hit(Bucket(HitsOf(t, key), limit, seen), window, limit, now)
  }

  lemma SameAdvice(oldest: real, window: int, now: real)
    requires window >= 1 && now - window as real < oldest <= now
    ensures Max(1, Ceil(window as real - (now - oldest))) == RetryAfter(oldest, window, now)
  {
    assert window as real - (now - oldest) == oldest + window as real - now;
  }

  /** On its own deque a call behaves exactly like the bucketed limiter. */
  lemma SameAsBucket(t: Table, window: int, key: Key, limit: int, now: real, seen: real)
    requires window >= 1 && limit >= 1 && Valid(t)
    requires Sorted(HitsOf(t, key)) && forall h :: h in HitsOf(t, key) ==> h <= now
    ensures var (t', d) := Consumed(t, window, key, limit, now);
      var (b, dd) := AsBucket(t, window, key, limit, now, seen);
      d == dd && Valid(t') && key in t'.hits && t'.hits[key] == b.hits
  {
    var hits := HitsOf(t, key);
    var live := Pruned(hits, now - window as real);
    var k := PrunedSuffix(hits, now - window as real);
    if |live| >= limit {
      assert live[0] == hits[k] && hits[k] in hits;
      SameAdvice(live[0], window, now);
      TouchedValid(t, key, live);
    } else {
      TouchedValid(t, key, live + [now]);
      TrimmedKeeps(Touched(t, key, live + [now]), key);
    }
  }

  lemma TouchedValid(t: Table, key: Key, hits: seq<real>)
    requires Valid(t) && hits != []
    ensures Valid(Touched(t, key, hits))
    ensures var order := Touched(t, key, hits).order; order != [] && order[|order| - 1] == key
  {
    var others := Without(t.order, key);
    assert key !in others;
    var order := others + [key];
    forall i, j | 0 <= i < j < |order|
      ensures order[i] != order[j]
    {
      assert order[i] in others;
    }
    forall k
      ensures k in order <==> k in t.hits || k == key
    {
      assert k in t.order <==> k in ToSet(t.order);
    }
  }

  lemma NothingEmpty(t: Table)
    requires Valid(t)
    ensures DropEmpty(t) == t
  {
    var full := (k: Key) => k in t.hits && t.hits[k] != [];
    forall k | k in t.order
      ensures full(k)
    {
      assert k in ToSet(t.order);
    }
    FilterWhole<Key>(t.order, full);
    AllKept(t.hits);
  }

  lemma AllKept(hits: map<Key, seq<real>>)
    requires forall k :: k in hits ==> hits[k] != []
    ensures (map k | k in hits && hits[k] != [] :: hits[k]) == hits
  {
  }

  /** Dropping the oldest keeps the table valid and everything else as it was, the newest included. */
  lemma {:induction false} PopKeeps(t: Table, key: Key)
    requires Valid(t) && t.order != [] && t.order[|t.order| - 1] == key
    ensures var t' := PopOldest(t);
      && Valid(t') && t'.hits.Keys <= t.hits.Keys
      && (forall k :: k in t'.hits ==> t'.hits[k] == t.hits[k])
      && key in t'.hits
    decreases |t.order|
  {
    if |t.order| > MAX_LRU_KEYS {
      var rest := Table(t.order[1..], t.hits - {t.order[0]});
      DistinctTail(t.order);
      forall k
        ensures k in rest.order <==> k in rest.hits
      {
        assert t.order == [t.order[0]] + t.order[1..];
        assert k in t.order <==> k in ToSet(t.order);
      }
      PopKeeps(rest, key);
    }
    assert key in ToSet(t.order);
  }

  lemma TrimmedKeeps(t: Table, key: Key)
    requires Valid(t) && t.order != [] && t.order[|t.order| - 1] == key
    ensures var t' := Trimmed(t);
      && Valid(t') && t'.hits.Keys <= t.hits.Keys
      && (forall k :: k in t'.hits ==> t'.hits[k] == t.hits[k])
      && key in t'.hits
  {
    NothingEmpty(t);
    PopKeeps(t, key);
  }

  /** A key the table does not hold is admitted, whatever its history. */
  lemma AbsentAdmitted(window: int, t: Table, c: LruCall)
    requires c.limit >= 1 && c.key !in t.hits
    ensures Consumed(t, window, c.key, c.limit, c.now).1.allowed
  {
  }

  // ---- Sequences of calls -----------------------------------------------------------------

  datatype LruCall = LruCall(key: Key, limit: int, now: real)

  ghost predicate ServesOne(window: int, calls: seq<LruCall>, ts: seq<Table>, ds: seq<Decision>, i: nat)
    requires i < |calls| == |ds| && |ts| == |calls| + 1
  {
    calls[i].limit >= 1 && (ts[i + 1], ds[i]) == Consumed(ts[i], window, calls[i].key, calls[i].limit, calls[i].now)
  }

  ghost predicate Serves(window: int, calls: seq<LruCall>, ts: seq<Table>, ds: seq<Decision>) {
    && |ts| == |calls| + 1 && |ds| == |calls|
    && ts[0] == Table([], map[])
    && (forall i :: 0 <= i < |calls| ==> ServesOne(window, calls, ts, ds, i))
    && (forall i, j :: 0 <= i < j < |calls| ==> calls[i].now <= calls[j].now)
  }

  function Times(calls: seq<LruCall>, ds: seq<Decision>, n: nat, key: Key): seq<real>
    requires n <= |calls| == |ds|
  {
    if n == 0 then []
    else Times(calls, ds, n - 1, key) + if calls[n - 1].key == key && ds[n - 1].allowed then [calls[n - 1].now] else []
  }

  function LastSeen(calls: seq<LruCall>, n: nat, key: Key): real
    requires n <= |calls|
  {
    if n == 0 then 0.0 else if calls[n - 1].key == key then calls[n - 1].now else LastSeen(calls, n - 1, key)
  }

  ghost predicate Kept(ts: seq<Table>, n: nat, key: Key)
    requires n < |ts|
  {
    forall i :: 0 <= i < n && key in ts[i].hits ==> key in ts[i + 1].hits
  }

  ghost predicate Tracked(window: int, t: Table, key: Key, limit: int, seen: real, times: seq<real>, upTo: real) {
    && Valid(t)
    && if key in t.hits then Faithful(window, Bucket(t.hits[key], limit, seen), times, upTo) else times == []
  }

  lemma OtherKey(t: Table, window: int, c: LruCall, key: Key)
    requires window >= 1 && c.limit >= 1 && Valid(t) && key != c.key
    requires Sorted(HitsOf(t, c.key)) && forall h :: h in HitsOf(t, c.key) ==> h <= c.now
    ensures var t' := Consumed(t, window, c.key, c.limit, c.now).0;
      && Valid(t')
      && (key in t'.hits ==> key in t.hits && t'.hits[key] == t.hits[key])
      && (key in t.hits && |t.hits.Keys + {c.key}| <= MAX_LRU_KEYS ==> key in t'.hits)
  {
    var live := Pruned(HitsOf(t, c.key), c.now - window as real);
    var k := PrunedSuffix(HitsOf(t, c.key), c.now - window as real);
    var touched := Touched(t, c.key, live + [c.now]);
    TouchedValid(t, c.key, live + [c.now]);
    if |live| >= c.limit {
      TouchedValid(t, c.key, live);
    } else {
      TrimmedKeeps(touched, c.key);
      DistinctCard(touched.order);
      assert touched.hits.Keys == t.hits.Keys + {c.key};
    }
  }

  /** A deque found in the table is sorted and not in the future, whichever key it belongs to. */
  ghost predicate Clean(t: Table, upTo: real) {
    Valid(t) && forall k :: k in t.hits ==> Sorted(t.hits[k]) && forall h :: h in t.hits[k] ==> h <= upTo
  }

  lemma {:induction false} AlwaysClean(window: int, calls: seq<LruCall>, ts: seq<Table>, ds: seq<Decision>, n: nat)
    requires window >= 1 && Serves(window, calls, ts, ds) && n <= |calls|
    ensures Valid(ts[n])
    ensures forall m :: n <= m < |calls| ==> Clean(ts[n], calls[m].now)
    ensures n > 0 ==> Clean(ts[n], calls[n - 1].now)
  {
    if n > 0 {
      AlwaysClean(window, calls, ts, ds, n - 1);
      var c := calls[n - 1];
      assert ServesOne(window, calls, ts, ds, n - 1);
      CallKeepsClean(window, ts[n - 1], c);
    }
  }

  lemma CallKeepsClean(window: int, t: Table, c: LruCall)
    requires window >= 1 && c.limit >= 1 && Clean(t, c.now)
    ensures Clean(Consumed(t, window, c.key, c.limit, c.now).0, c.now)
  {
    var t' := Consumed(t, window, c.key, c.limit, c.now).0;
    SameAsBucket(t, window, c.key, c.limit, c.now, c.now);
    HitKeepsClean(window, Bucket(HitsOf(t, c.key), c.limit, c.now), c.limit, c.now);
    forall key | key in t'.hits
      ensures Sorted(t'.hits[key]) && forall h :: h in t'.hits[key] ==> h <= c.now
    {
      if key != c.key {
        OtherKey(t, window, c, key);
      }
    }
  }

  lemma HitKeepsClean(window: int, b: Bucket, limit: int, now: real)
    requires Sorted(b.hits) && forall h :: h in b.hits ==> h <= now
    ensures var after := Hit(b, window, limit, now).0.hits;
      Sorted(after) && forall h :: h in after ==> h <= now
  {
    var k := PrunedSuffix(b.hits, now - window as real);
    LaterHits(b.hits, k, now);
    SortedWithNow(b.hits[k..], now);
  }

  lemma LaterHits(hits: seq<real>, k: nat, now: real)
    requires k <= |hits| && Sorted(hits) && forall h :: h in hits ==> h <= now
    ensures Sorted(hits[k..]) && forall h :: h in hits[k..] ==> h <= now
  {
    assert forall h :: h in hits[k..] ==> h in hits;
  }

  lemma SortedWithNow(live: seq<real>, now: real)
    requires Sorted(live) && forall h :: h in live ==> h <= now
    ensures Sorted(live + [now]) && forall h :: h in live + [now] ==> h <= now
  {
    assert forall i :: 0 <= i < |live| ==> live[i] in live;
  }

  // The time of the latest call among the first n, or `first` if there is none.
  function LastCall(calls: seq<LruCall>, n: nat, first: real): real
    requires n <= |calls|
  {
    if n == 0 then first else calls[n - 1].now
  }

  lemma {:induction false} TracksHistory(window: int, calls: seq<LruCall>, ts: seq<Table>, ds: seq<Decision>, n: nat, key: Key, limit: int)
    requires window >= 1 && Serves(window, calls, ts, ds) && n <= |calls| && Kept(ts, n, key)
    ensures forall first :: Tracked(window, ts[n], key, limit, LastSeen(calls, n, key), Times(calls, ds, n, key), LastCall(calls, n, first))
  {
    if n > 0 {
      TracksHistory(window, calls, ts, ds, n - 1, key, limit);
      AlwaysClean(window, calls, ts, ds, n - 1);
      var c := calls[n - 1];
      assert ServesOne(window, calls, ts, ds, n - 1);
      var seen, times := LastSeen(calls, n - 1, key), Times(calls, ds, n - 1, key);
      var upTo := LastCall(calls, n - 1, c.now);
      assert Tracked(window, ts[n - 1], key, limit, seen, times, upTo);
      if c.key == key {
        Relimit(window, ts[n - 1], key, limit, c.limit, seen, times, upTo);
        OwnStep(window, ts[n - 1], c, seen, times, upTo, ts[n], ds[n - 1]);
        Relimit(window, ts[n], key, c.limit, limit, c.now, Extended(times, c, ds[n - 1]), c.now);
      } else {
        OtherStep(window, ts[n - 1], c, key, limit, seen, times, upTo, ts[n]);
        assert times + [] == times;
      }
    }
  }

  lemma Relimit(window: int, t: Table, key: Key, limit: int, limit': int, seen: real, times: seq<real>, upTo: real)
    requires Tracked(window, t, key, limit, seen, times, upTo)
    ensures Tracked(window, t, key, limit', seen, times, upTo)
  {
  }

  predicate HasRoom(window: int, times: seq<real>, c: LruCall) {
    CountIn(times, c.now - window as real, c.now) < c.limit
  }

  function Extended(times: seq<real>, c: LruCall, d: Decision): seq<real> {
    times + if d.allowed then [c.now] else []
  }

  lemma OwnStep(window: int, t: Table, c: LruCall, seen: real, times: seq<real>, upTo: real, t': Table, d: Decision)
    requires window >= 1 && c.limit >= 1 && Clean(t, c.now)
    requires Tracked(window, t, c.key, c.limit, seen, times, upTo) && (c.key in t.hits ==> upTo <= c.now)
    requires (t', d) == Consumed(t, window, c.key, c.limit, c.now)
    ensures Tracked(window, t', c.key, c.limit, c.now, Extended(times, c, d), c.now)
    ensures d.allowed <==> HasRoom(window, times, c)
  {
    SameAsBucket(t, window, c.key, c.limit, c.now, seen);
    OwnBucket(window, Bucket(HitsOf(t, c.key), c.limit, seen), c, times, upTo, c.key in t.hits);
  }

  /** The bucketed limiter's refinement, on this key's deque or on an empty one. */
  lemma OwnBucket(window: int, b: Bucket, c: LruCall, times: seq<real>, upTo: real, known: bool)
    requires window >= 1 && c.limit >= 1
    requires if known then Faithful(window, b, times, upTo) && upTo <= c.now else b.hits == [] && times == []
    ensures var (after, d) := Hit(b, window, c.limit, c.now);
      && Faithful(window, Bucket(after.hits, c.limit, c.now), Extended(times, c, d), c.now)
      && (d.allowed <==> HasRoom(window, times, c))
  {
    if known {
      HitLimited(window, b, c, times, upTo);
    } else {
      EmptyHit(window, b, c.limit, c.now);
      EmptyHit(window, Bucket([], c.limit, c.now), c.limit, c.now);
      HitLimited(window, Bucket([], c.limit, c.now), c, [], c.now);
    }
  }

  lemma EmptyHit(window: int, b: Bucket, limit: int, now: real)
    requires limit >= 1 && b.hits == []
    ensures Hit(b, window, limit, now) == (Bucket([now], limit, now), Decision(true, 0))
  {
    assert [] + [now] == [now];
  }

  lemma HitLimited(window: int, b: Bucket, c: LruCall, times: seq<real>, upTo: real)
    requires window >= 1 && c.limit >= 1 && Faithful(window, b, times, upTo) && upTo <= c.now
    ensures var (after, d) := Hit(b, window, c.limit, c.now);
      && Faithful(window, Bucket(after.hits, c.limit, c.now), Extended(times, c, d), c.now)
      && (d.allowed <==> HasRoom(window, times, c))
  {
    var (after, d) := Hit(b, window, c.limit, c.now);
    HitIsExact(window, b, times, upTo, c.limit, c.now, after, d);
  }

  lemma OtherStep(window: int, t: Table, c: LruCall, key: Key, limit: int, seen: real, times: seq<real>, upTo: real, t': Table)
    requires window >= 1 && c.limit >= 1 && Clean(t, c.now) && key != c.key
    requires Tracked(window, t, key, limit, seen, times, upTo) && upTo <= c.now
    requires t' == Consumed(t, window, c.key, c.limit, c.now).0 && (key in t.hits ==> key in t'.hits)
    ensures Tracked(window, t', key, limit, seen, times, c.now)
  {
    OtherKey(t, window, c, key);
    StillTracked(window, t, t', key, limit, seen, times, upTo, c.now);
  }

  lemma StillTracked(window: int, t: Table, t': Table, key: Key, limit: int, seen: real, times: seq<real>, upTo: real, now: real)
    requires Tracked(window, t, key, limit, seen, times, upTo) && upTo <= now && Valid(t')
    requires key in t'.hits <==> key in t.hits
    requires key in t.hits ==> t'.hits[key] == t.hits[key]
    ensures Tracked(window, t', key, limit, seen, times, now)
  {
  }

  /** Refinement: for a key that has not been dropped, admission is exactly room in the full-history window. */
  lemma AdmitsExactly(window: int, calls: seq<LruCall>, ts: seq<Table>, ds: seq<Decision>, n: nat)
    requires window >= 1 && Serves(window, calls, ts, ds) && n < |calls| && Kept(ts, n, calls[n].key)
    ensures ds[n].allowed <==> HasRoom(window, Times(calls, ds, n, calls[n].key), calls[n])
  {
    var c := calls[n];
    TracksHistory(window, calls, ts, ds, n, c.key, c.limit);
    AlwaysClean(window, calls, ts, ds, n);
    assert ServesOne(window, calls, ts, ds, n);
    OwnStep(window, ts[n], c, LastSeen(calls, n, c.key), Times(calls, ds, n, c.key), LastCall(calls, n, c.now),
            ts[n + 1], ds[n]);
  }

  // ---- Which keys survive -----------------------------------------------------------------

  /** The keys called so far, each once, least recently called first. */
  function Recency(calls: seq<LruCall>, n: nat): seq<Key>
    requires n <= |calls|
  {
    if n == 0 then [] else Recalled(Recency(calls, n - 1), calls[n - 1].key)
  }

  lemma {:induction false} PopLeavesNewest(t: Table)
    ensures PopOldest(t).order == Newest(t.order, MAX_LRU_KEYS)
    decreases |t.order|
  {
    if |t.order| > MAX_LRU_KEYS {
      PopLeavesNewest(Table(t.order[1..], t.hits - {t.order[0]}));
    }
  }

  lemma OrderStep(t: Table, window: int, c: LruCall, all: seq<Key>)
    requires window >= 1 && c.limit >= 1 && Clean(t, c.now)
    requires HoldsNewestOf(t, all)
    ensures HoldsNewestOf(Consumed(t, window, c.key, c.limit, c.now).0, Recalled(all, c.key))
  {
    RecalledDistinct(all, c.key);
    var live := Pruned(HitsOf(t, c.key), c.now - window as real);
    var touched := Touched(t, c.key, live + [c.now]);
    TouchNewest(all, c.key, MAX_LRU_KEYS);
    if |live| >= c.limit {
      assert c.key in t.hits;
      assert c.key in ToSet(t.order);
      assert c.key in t.order;
    } else {
      TouchedValid(t, c.key, live + [c.now]);
      NothingEmpty(touched);
      PopLeavesNewest(touched);
    }
  }

  lemma {:induction false} OrderIsRecency(window: int, calls: seq<LruCall>, ts: seq<Table>, ds: seq<Decision>, n: nat)
    requires window >= 1 && Serves(window, calls, ts, ds) && n <= |calls|
    ensures HoldsNewestOf(ts[n], Recency(calls, n))
  {
    if n > 0 {
      OrderIsRecency(window, calls, ts, ds, n - 1);
      OrderNext(window, calls, ts, ds, n - 1, Recency(calls, n - 1));
    }
  }

  lemma OrderNext(window: int, calls: seq<LruCall>, ts: seq<Table>, ds: seq<Decision>, n: nat, all: seq<Key>)
    requires window >= 1 && Serves(window, calls, ts, ds) && n < |calls| && HoldsNewestOf(ts[n], all)
    ensures HoldsNewestOf(ts[n + 1], Recalled(all, calls[n].key))
  {
    CleanStep(window, calls, ts, ds, n);
    OrderStep(ts[n], window, calls[n], all);
  }

  ghost predicate HoldsNewestOf(t: Table, all: seq<Key>) {
    Distinct(all) && t.order == Newest(all, MAX_LRU_KEYS)
  }

  lemma CleanStep(window: int, calls: seq<LruCall>, ts: seq<Table>, ds: seq<Decision>, n: nat)
    requires window >= 1 && Serves(window, calls, ts, ds) && n < |calls|
    ensures Clean(ts[n], calls[n].now) && calls[n].limit >= 1
    ensures ts[n + 1] == Consumed(ts[n], window, calls[n].key, calls[n].limit, calls[n].now).0
  {
    AlwaysClean(window, calls, ts, ds, n);
    assert ServesOne(window, calls, ts, ds, n);
  }

  /** The table holds exactly the most recently called keys. */
  lemma HoldsNewest(window: int, calls: seq<LruCall>, ts: seq<Table>, ds: seq<Decision>, n: nat, key: Key)
    requires window >= 1 && Serves(window, calls, ts, ds) && n <= |calls|
    ensures key in ts[n].hits <==> key in Newest(Recency(calls, n), MAX_LRU_KEYS)
  {
    OrderIsRecency(window, calls, ts, ds, n);
    AlwaysClean(window, calls, ts, ds, n);
    assert key in ToSet(ts[n].order) <==> key in ts[n].order;
  }

  /** Whenever the key has been called before, it is still among the most recent ones. */
  ghost predicate StaysRecent(calls: seq<LruCall>, n: nat, key: Key)
    requires n <= |calls|
  {
    forall i :: 0 <= i <= n && key in Recency(calls, i) ==> key in Newest(Recency(calls, i), MAX_LRU_KEYS)
  }

  /** A key is never dropped exactly when it never falls behind that many other keys. */
  lemma {:induction false} KeptExactly(window: int, calls: seq<LruCall>, ts: seq<Table>, ds: seq<Decision>, n: nat, key: Key)
    requires window >= 1 && Serves(window, calls, ts, ds) && n <= |calls|
    ensures Kept(ts, n, key) <==> StaysRecent(calls, n, key)
  {
    if n > 0 {
      KeptExactly(window, calls, ts, ds, n - 1, key);
      HoldsNewest(window, calls, ts, ds, n - 1, key);
      HoldsNewest(window, calls, ts, ds, n, key);
      StaysRecentStep(calls, n, key);
      KeptStep(ts, n, key);
      if StaysRecent(calls, n - 1, key) {
        assert key in Recency(calls, n - 1) ==> key in Newest(Recency(calls, n - 1), MAX_LRU_KEYS);
      }
      NewestWithin(Recency(calls, n - 1), key, MAX_LRU_KEYS);
    }
  }

  lemma KeptStep(ts: seq<Table>, n: nat, key: Key)
    requires 0 < n < |ts|
    ensures Kept(ts, n, key) <==> (Kept(ts, n - 1, key) && (key in ts[n - 1].hits ==> key in ts[n].hits))
  {
  }

  lemma StaysRecentStep(calls: seq<LruCall>, n: nat, key: Key)
    requires 0 < n <= |calls|
    ensures var kept := Newest(Recency(calls, n), MAX_LRU_KEYS);
      StaysRecent(calls, n, key) <==> (StaysRecent(calls, n - 1, key) && (key in Recency(calls, n - 1) ==> key in kept))
  {
    var last := calls[n - 1].key;
    NewestLast(Recency(calls, n - 1), last, MAX_LRU_KEYS);
    assert key in Recency(calls, n) <==> key in Recency(calls, n - 1) || key == last;
    if StaysRecent(calls, n - 1, key) && key in Recency(calls, n) {
      assert StaysRecent(calls, n, key) ==> key in Newest(Recency(calls, n), MAX_LRU_KEYS);
    }
  }

  /** With one limit per key, no deque ever holds more hits than its key's limit. */
  lemma {:induction false} WithinLimit(window: int, calls: seq<LruCall>, ts: seq<Table>, ds: seq<Decision>, n: nat, key: Key, limit: int)
    requires window >= 1 && limit >= 1 && Serves(window, calls, ts, ds) && n <= |calls|
    requires forall i :: 0 <= i < n && calls[i].key == key ==> calls[i].limit == limit
    ensures |HitsOf(ts[n], key)| <= limit
  {
    if n > 0 {
      WithinLimit(window, calls, ts, ds, n - 1, key, limit);
      CleanStep(window, calls, ts, ds, n - 1);
      CallWithinLimit(window, ts[n - 1], calls[n - 1], key, limit);
    }
  }

  lemma CallWithinLimit(window: int, t: Table, c: LruCall, key: Key, limit: int)
    requires window >= 1 && c.limit >= 1 && Clean(t, c.now) && (c.key == key ==> c.limit == limit)
    requires |HitsOf(t, key)| <= limit
    ensures |HitsOf(Consumed(t, window, c.key, c.limit, c.now).0, key)| <= limit
  {
    if c.key == key {
      SameAsBucket(t, window, c.key, c.limit, c.now, c.now);
      HitsWithinAllowance(window, Bucket(HitsOf(t, key), c.limit, c.now), c.limit, c.now);
    } else {
      OtherKey(t, window, c, key);
    }
  }
}
