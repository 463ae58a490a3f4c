/** runs/demo-brownfield/workspace/app/ratelimit.py: a sliding-window limiter. */
module SlidingWindow {
  import opened Prelude

  // One window per bucket, kept as a pruned deque of admission times, with eviction
  // of address buckets. Times are reals; calls are sequential.

  // The prefix and the digest of a bucket id; digests are opaque.
  datatype BucketId = KeyBucket(digest: nat) | CreateBucket(digest: nat) | ReadBucket(digest: nat)

  datatype Bucket = Bucket(hits: seq<real>, allowance: int, lastSeen: real)

  datatype Decision = Decision(allowed: bool, retryAfter: int)

  type Buckets = map<BucketId, Bucket>

  const MAX_TRACKED_KEYS: nat := 10000

  function Max(a: int, b: int): int {
    if a < b then b else a
  }

  function Min(a: int, b: int): int {
    if a < b then a else b
  }

  /** The least integer that is not below x. */
  function Ceil(x: real): (r: int)
    ensures r as real - 1.0 < x <= r as real
  {
    -((-x).Floor)
  }

  // ---- Eviction --------------------------------------------------------------------

  /** Key buckets are never evicted. */
  predicate Evictable(id: BucketId) {
    !id.KeyBucket?
  }

  /** The order of the strings "get:ip:..." and "post:ip:...". */
  predicate IdBefore(a: BucketId, b: BucketId) {
    (a.ReadBucket? && b.CreateBucket?) ||
    (((a.ReadBucket? && b.ReadBucket?) || (a.CreateBucket? && b.CreateBucket?)) && a.digest < b.digest)
  }

  /** The order of strings, character by character. */
  predicate TextBefore(a: string, b: string) {
    b != "" && (a == "" || a[0] < b[0] || (a[0] == b[0] && TextBefore(a[1..], b[1..])))
  }

  /** How the source spells a bucket, given how it spells digests. */
  function Spelled(id: BucketId, spell: nat -> string): string {
    match id
    case KeyBucket(digest) => "post:key:" + spell(digest)
    case CreateBucket(digest) => "post:ip:" + spell(digest)
    case ReadBucket(digest) => "get:ip:" + spell(digest)
  }

  lemma {:induction false} SamePrefix(p: string, a: string, b: string)
    ensures TextBefore(p + a, p + b) <==> TextBefore(a, b)
  {
    if p == "" {
      assert p + a == a && p + b == b;
    } else {
      assert (p + a)[1..] == p[1..] + a && (p + b)[1..] == p[1..] + b;
      SamePrefix(p[1..], a, b);
    }
  }

  /** Address buckets are ordered as their spellings are, when digests are. */
  lemma OrderedAsSpelled(a: BucketId, b: BucketId, spell: nat -> string)
    requires Evictable(a) && Evictable(b)
    requires forall x, y :: x < y <==> TextBefore(spell(x), spell(y))
    ensures IdBefore(a, b) <==> TextBefore(Spelled(a, spell), Spelled(b, spell))
  {
    SamePrefix("post:ip:", spell(a.digest), spell(b.digest));
    SamePrefix("get:ip:", spell(a.digest), spell(b.digest));
  }

  predicate SeenBefore(m: Buckets, a: BucketId, b: BucketId)
    requires a in m && b in m
  {
    m[a].lastSeen < m[b].lastSeen || (m[a].lastSeen == m[b].lastSeen && IdBefore(a, b))
  }

  ghost predicate IsOldest(m: Buckets, id: BucketId) {
    id in m && Evictable(id) && forall b :: b in m && Evictable(b) && b != id ==> SeenBefore(m, id, b)
  }

  /** `after` is m without its n least recently seen evictable buckets, or without all of them. */
  ghost predicate Evicts(m: Buckets, n: nat, after: Buckets)
    decreases n
  {
    if n == 0 || (forall b :: b in m ==> !Evictable(b)) then after == m
    else exists id :: IsOldest(m, id) && Evicts(m - {id}, n - 1, after)
  }

  ghost predicate MakesRoom(m: Buckets, after: Buckets) {
    if |m| < MAX_TRACKED_KEYS then after == m else Evicts(m, |m| - MAX_TRACKED_KEYS + 1, after)
  }

  lemma {:induction false} EvictsKeeps(m: Buckets, n: nat, after: Buckets)
    requires Evicts(m, n, after)
    ensures after.Keys <= m.Keys
    ensures forall b :: b in after ==> after[b] == m[b]
    ensures forall b :: b in m && !Evictable(b) ==> b in after
    decreases n
  {
    if n != 0 && !(forall b :: b in m ==> !Evictable(b)) {
      var id :| IsOldest(m, id) && Evicts(m - {id}, n - 1, after);
      EvictsKeeps(m - {id}, n - 1, after);
    }
  }

  // ---- One call --------------------------------------------------------------------

  /** Drop from the left what has left the window. */
  function Pruned(hits: seq<real>, cutoff: real): seq<real> {
    if hits != [] && hits[0] <= cutoff then Pruned(hits[1..], cutoff) else hits
  }

  function RetryAfter(oldest: real, window: int, now: real): int {
    var remaining := oldest + window as real - now;
    Max(1, Min(if remaining > 0.0 then Ceil(remaining) else 1, Ceil(window as real)))
  }

  /** What a call does to its own bucket once the bucket exists. */
  function Hit(b: Bucket, window: int, allowance: int, now: real): (Bucket, Decision) {
    var effective := Max(1, allowance);
    var live := Pruned(b.hits, now - window as real);
    if |live| >= effective then
      (Bucket(live, effective, now), Decision(false, RetryAfter(live[0], window, now)))
    else
      (Bucket(live + [now], effective, now), Decision(true, 0))
  }

  function Fresh(allowance: int, now: real): Bucket {
    Bucket([], Max(1, allowance), now)
  }

  /** One call of consume: room is made only for a bucket not tracked yet. */
  ghost predicate Consumes(m: Buckets, window: int, id: BucketId, allowance: int, now: real, after: Buckets, d: Decision) {
    if id in m then
      var (b, dd) := Hit(m[id], window, allowance, now);
      after == m[id := b] && d == dd
    else exists room ::
      && MakesRoom(m, room)
      && var (b, dd) := Hit(Fresh(allowance, now), window, allowance, now);
         after == room[id := b] && d == dd
  }

  class RateLimiter {
    const window: int
    var buckets: Buckets

    constructor (windowSeconds: int)
      ensures window == Max(1, windowSeconds) && buckets == map[]
    {
      window := Max(1, windowSeconds);
      buckets := map[];
    }

    method FindOldest() returns (oldest: BucketId)
      requires exists b :: b in buckets && Evictable(b)
      ensures IsOldest(buckets, oldest)
    {
      oldest :| oldest in buckets && Evictable(oldest);
      var todo := (set b | b in buckets && Evictable(b)) - {oldest};
      ghost var seen := {oldest};
      while todo != {}
        invariant forall b :: b in buckets && Evictable(b) <==> b in todo + seen
        invariant oldest in seen
        invariant forall b :: b in seen && b != oldest ==> SeenBefore(buckets, oldest, b)
        decreases todo
      {
        var b :| b in todo;
        todo := todo - {b};
        if b != oldest && !SeenBefore(buckets, oldest, b) {
          oldest := b;
        }
        seen := seen + {b};
      }
    }

    /** _evict_locked */
    method Evict()
      modifies this
      ensures MakesRoom(old(buckets), buckets)
    {
      if |buckets| < MAX_TRACKED_KEYS {
        return;
      }
      var excess := |buckets| - MAX_TRACKED_KEYS + 1;
      ghost var start := buckets;
      while excess > 0 && exists b :: b in buckets && Evictable(b)
        invariant excess >= 0
        invariant forall after :: Evicts(buckets, excess, after) ==> Evicts(start, |start| - MAX_TRACKED_KEYS + 1, after)
        decreases excess
      {
        var oldest := FindOldest();
        ghost var before, n := buckets, excess;
        buckets := buckets - {oldest};
        excess := excess - 1;
        assert forall after :: Evicts(buckets, excess, after) ==> Evicts(before, n, after);
      }
      assert Evicts(buckets, excess, buckets);
    }

    method Consume(id: BucketId, allowance: int, now: real) returns (d: Decision)
      modifies this
      ensures Consumes(old(buckets), window, id, allowance, now, buckets, d)
    {
      var effective := Max(1, allowance);
      var cutoff := now - window as real;
      if id !in buckets {
        Evict();
        buckets := buckets[id := Bucket([], effective, now)];
      }
      ghost var entered := buckets;
      var hits := buckets[id].hits;
      while hits != [] && hits[0] <= cutoff
        invariant Pruned(hits, cutoff) == Pruned(entered[id].hits, cutoff)
        decreases |hits|
      {
        hits := hits[1..];
      }
      if |hits| >= effective {
        var oldest := hits[0];
        var remaining := oldest + window as real - now;
        var retryAfter := if remaining > 0.0 then Ceil(remaining) else 1;
        retryAfter := Max(1, Min(retryAfter, Ceil(window as real)));
        buckets := buckets[id := Bucket(hits, effective, now)];
        return Decision(false, retryAfter);
      }
      buckets := buckets[id := Bucket(hits + [now], effective, now)];
      d := Decision(true, 0);
    }
  }

  // ---- Sequences of calls -------------------------------------------------------------

  datatype Call = Call(id: BucketId, allowance: int, now: real)

  ghost predicate ServesOne(window: int, calls: seq<Call>, ms: seq<Buckets>, ds: seq<Decision>, i: nat)
    requires i < |calls| == |ds| && |ms| == |calls| + 1
  {
    Consumes(ms[i], window, calls[i].id, calls[i].allowance, calls[i].now, ms[i + 1], ds[i])
  }

  /** The states and decisions of a limiter over a sequence of calls with a clock that never goes back. */
  ghost predicate Serves(window: int, calls: seq<Call>, ms: seq<Buckets>, ds: seq<Decision>) {
    && |ms| == |calls| + 1 && |ds| == |calls|
    && ms[0] == map[]
    && (forall i :: 0 <= i < |calls| ==> ServesOne(window, calls, ms, ds, i))
    && (forall i, j :: 0 <= i < j < |calls| ==> calls[i].now <= calls[j].now)
  }

  /** The full history of a bucket: when its hits were admitted among the first n calls. */
  function Times(calls: seq<Call>, ds: seq<Decision>, n: nat, id: BucketId): seq<real>
    requires n <= |calls| == |ds|
  {
    if n == 0 then []
    else Times(calls, ds, n - 1, id) + if calls[n - 1].id == id && ds[n - 1].allowed then [calls[n - 1].now] else []
  }

  /** How many of the times lie in the half-open window (lo, hi]. */
  function CountIn(times: seq<real>, lo: real, hi: real): nat {
    if times == [] then 0
    else CountIn(times[..|times| - 1], lo, hi) + if lo < times[|times| - 1] <= hi then 1 else 0
  }

  /** The bucket was not evicted by any of the first n calls. */
  ghost predicate Kept(ms: seq<Buckets>, n: nat, id: BucketId)
    requires n < |ms|
  {
    forall i :: 0 <= i < n && id in ms[i] ==> id in ms[i + 1]
  }

  ghost predicate Sorted(times: seq<real>) {
    forall i, j :: 0 <= i < j < |times| ==> times[i] <= times[j]
  }

  lemma {:induction false} CountSplit(times: seq<real>, k: nat, lo: real, hi: real)
    requires k <= |times|
    requires forall i :: 0 <= i < k ==> times[i] <= lo
    requires forall i :: k <= i < |times| ==> lo < times[i] <= hi
    ensures CountIn(times, lo, hi) == |times| - k
  {
    if times != [] {
      var n := |times| - 1;
      CountSplit(times[..n], if k <= n then k else n, lo, hi);
    }
  }

  lemma {:induction false} PrunedSuffix(hits: seq<real>, cutoff: real) returns (k: nat)
    requires Sorted(hits)
    ensures k <= |hits| && Pruned(hits, cutoff) == hits[k..]
    ensures forall i :: 0 <= i < k ==> hits[i] <= cutoff
    ensures forall i :: k <= i < |hits| ==> hits[i] > cutoff
  {
    if hits != [] && hits[0] <= cutoff {
      var j := PrunedSuffix(hits[1..], cutoff);
      k := j + 1;
      assert hits[1..][j..] == hits[k..];
      assert forall i :: 1 <= i < |hits| ==> hits[i] == hits[1..][i - 1];
    } else {
      k := 0;
    }
  }

  /** The deque is the recent end of the history: what it lacks had left the window by the last call. */
  ghost predicate Faithful(window: int, b: Bucket, times: seq<real>, upTo: real) {
    && Sorted(times) && (forall t :: t in times ==> t <= upTo)
    && b.lastSeen <= upTo
    && |b.hits| <= |times| && b.hits == times[|times| - |b.hits|..]
    && forall i :: 0 <= i < |times| - |b.hits| ==> times[i] <= b.lastSeen - window as real
  }

  /** Pruning a faithful deque leaves exactly the part of the history inside the window. */
  lemma LiveIsWindow(window: int, b: Bucket, times: seq<real>, upTo: real, now: real) returns (gone: nat)
    requires Faithful(window, b, times, upTo) && upTo <= now
    ensures gone <= |times| && Pruned(b.hits, now - window as real) == times[gone..]
    ensures forall i :: 0 <= i < gone ==> times[i] <= now - window as real
    ensures forall i :: gone <= i < |times| ==> now - window as real < times[i] <= now
  {
    var cutoff := now - window as real;
    var k := PrunedSuffix(b.hits, cutoff);
    var skip := |times| - |b.hits|;
    gone := skip + k;
    forall i | 0 <= i < |times|
      ensures i < gone ==> times[i] <= cutoff
      ensures gone <= i ==> cutoff < times[i] <= now
    {
      assert times[i] in times;
      if i >= skip {
        assert times[i] == b.hits[i - skip];
      }
    }
  }

  lemma StillFaithful(window: int, times: seq<real>, gone: nat, allowance: int, now: real, admitted: bool)
    requires Sorted(times) && (forall t :: t in times ==> t <= now) && gone <= |times|
    requires forall i :: 0 <= i < gone ==> times[i] <= now - window as real
    ensures var hits := times[gone..] + if admitted then [now] else [];
      Faithful(window, Bucket(hits, allowance, now), times + if admitted then [now] else [], now)
  {
    var all := times + if admitted then [now] else [];
    assert all[gone..] == times[gone..] + if admitted then [now] else [];
    forall i, j | 0 <= i < j < |all|
      ensures all[i] <= all[j]
    {
      assert all[i] in times;
    }
  }

  /** On a faithful bucket a call admits exactly when the full history has room in the window. */
  lemma HitIsExact(window: int, b: Bucket, times: seq<real>, upTo: real, allowance: int, now: real, after: Bucket, d: Decision)
    requires window >= 1 && Faithful(window, b, times, upTo) && upTo <= now
    requires (after, d) == Hit(b, window, allowance, now)
    ensures d.allowed <==> CountIn(times, now - window as real, now) < Max(1, allowance)
    ensures Faithful(window, after, times + if d.allowed then [now] else [], now)
  {
    var gone := LiveIsWindow(window, b, times, upTo, now);
    CountSplit(times, gone, now - window as real, now);
    StillFaithful(window, times, gone, Max(1, allowance), now, d.allowed);
    HitLeaves(window, b, allowance, now);
  }

  lemma HitLeaves(window: int, b: Bucket, allowance: int, now: real)
    ensures var (after, d) := Hit(b, window, allowance, now);
      var live := Pruned(b.hits, now - window as real);
      && after == Bucket(live + if d.allowed then [now] else [], Max(1, allowance), now)
      && (d.allowed <==> |live| < Max(1, allowance))
  {
    var live := Pruned(b.hits, now - window as real);
    assert live + [] == live;
  }

  lemma EmptyFaithful(window: int, allowance: int, now: real)
    ensures Faithful(window, Fresh(allowance, now), [], now)
  {
  }

  /** A bucket in the table is faithful to the history; one not in the table has none. */
  ghost predicate Tracked(window: int, m: Buckets, id: BucketId, times: seq<real>, upTo: real) {
    if id in m then Faithful(window, m[id], times, upTo) else times == []
  }

  function Extended(times: seq<real>, c: Call, d: Decision): seq<real> {
    times + if d.allowed then [c.now] else []
  }

  /** Fewer than the allowance of the earlier admissions lie in the window that ends now. */
  predicate HasRoom(window: int, times: seq<real>, c: Call) {
    CountIn(times, c.now - window as real, c.now) < Max(1, c.allowance)
  }

  /** The bucket a call works on: the one in the table, or a fresh one. */
  function Start(m: Buckets, c: Call): Bucket {
    if c.id in m then m[c.id] else Fresh(c.allowance, c.now)
  }

  lemma ConsumesOwn(window: int, m: Buckets, c: Call, after: Buckets, d: Decision)
    requires Consumes(m, window, c.id, c.allowance, c.now, after, d)
    ensures c.id in after && (after[c.id], d) == Hit(Start(m, c), window, c.allowance, c.now)
  {
  }

  /** A call on its own bucket: the decision is exact and the bucket stays faithful. */
  lemma OwnBucket(window: int, m: Buckets, c: Call, b': Bucket, d: Decision, times: seq<real>, upTo: real)
    requires window >= 1 && (b', d) == Hit(Start(m, c), window, c.allowance, c.now)
    requires Tracked(window, m, c.id, times, upTo) && (c.id in m ==> upTo <= c.now)
    ensures d.allowed <==> HasRoom(window, times, c)
    ensures Faithful(window, b', Extended(times, c, d), c.now)
  {
    if c.id in m {
      HitIsExact(window, m[c.id], times, upTo, c.allowance, c.now, b', d);
    } else {
      EmptyFaithful(window, c.allowance, c.now);
      HitIsExact(window, Fresh(c.allowance, c.now), [], c.now, c.allowance, c.now, b', d);
    }
  }

  lemma {:induction false} OwnHit(window: int, calls: seq<Call>, ms: seq<Buckets>, ds: seq<Decision>, n: nat)
    requires Serves(window, calls, ms, ds) && n < |calls|
    ensures var c := calls[n];
      c.id in ms[n + 1] && (ms[n + 1][c.id], ds[n]) == Hit(Start(ms[n], c), window, c.allowance, c.now)
  {
    assert ServesOne(window, calls, ms, ds, n);
    ConsumesOwn(window, ms[n], calls[n], ms[n + 1], ds[n]);
  }

  function Last(calls: seq<Call>, n: nat): real
    requires n <= |calls|
  {
    if n == 0 then 0.0 else calls[n - 1].now
  }

  lemma {:induction false} TracksHistory(window: int, calls: seq<Call>, ms: seq<Buckets>, ds: seq<Decision>, n: nat, id: BucketId)
    requires window >= 1 && Serves(window, calls, ms, ds) && n <= |calls| && Kept(ms, n, id)
    ensures Tracked(window, ms[n], id, Times(calls, ds, n, id), Last(calls, n))
  {
    if n > 0 {
      TracksHistory(window, calls, ms, ds, n - 1, id);
      var c := calls[n - 1];
      assert ServesOne(window, calls, ms, ds, n - 1);
      var times := Times(calls, ds, n - 1, id);
      if c.id == id {
        ConsumesOwn(window, ms[n - 1], c, ms[n], ds[n - 1]);
        OwnBucket(window, ms[n - 1], c, ms[n][id], ds[n - 1], times, Last(calls, n - 1));
      } else {
        OtherBucket(window, ms[n - 1], c, ms[n], ds[n - 1], id);
        assert times + [] == times;
        if id in ms[n] {
          LaterFaithful(window, ms[n][id], times, Last(calls, n - 1), c.now);
        }
      }
    }
  }

  lemma LaterFaithful(window: int, b: Bucket, times: seq<real>, upTo: real, later: real)
    requires Faithful(window, b, times, upTo) && upTo <= later
    ensures Faithful(window, b, times, later)
  {
  }

  /** A call does nothing to another bucket except, possibly, evict it. */
  lemma OtherBucket(window: int, m: Buckets, c: Call, after: Buckets, d: Decision, id: BucketId)
    requires Consumes(m, window, c.id, c.allowance, c.now, after, d) && id != c.id
    ensures id in after ==> id in m && after[id] == m[id]
    ensures id in m && !Evictable(id) ==> id in after
    ensures id in m && (c.id in m || |m| < MAX_TRACKED_KEYS) ==> id in after
  {
    if c.id !in m {
      var room :| MakesRoom(m, room) &&
        var (b, dd) := Hit(Fresh(c.allowance, c.now), window, c.allowance, c.now); after == room[c.id := b] && d == dd;
      if |m| >= MAX_TRACKED_KEYS {
        EvictsKeeps(m, |m| - MAX_TRACKED_KEYS + 1, room);
      }
    }
  }

  lemma {:induction false} KeyBucketsKept(window: int, calls: seq<Call>, ms: seq<Buckets>, ds: seq<Decision>, n: nat, id: BucketId)
    requires Serves(window, calls, ms, ds) && n <= |calls| && id.KeyBucket?
    ensures Kept(ms, n, id)
  {
    forall i | 0 <= i < n && id in ms[i]
      ensures id in ms[i + 1]
    {
      assert ServesOne(window, calls, ms, ds, i);
      if calls[i].id != id {
        OtherBucket(window, ms[i], calls[i], ms[i + 1], ds[i], id);
      }
    }
  }

  /**
   Refinement: for a bucket that has not been evicted, the pruned deque admits a hit
   exactly when fewer than the allowance of its earlier admissions lie in the window.
   */
  lemma AdmitsExactly(window: int, calls: seq<Call>, ms: seq<Buckets>, ds: seq<Decision>, n: nat)
    requires window >= 1 && Serves(window, calls, ms, ds) && n < |calls| && Kept(ms, n, calls[n].id)
    ensures var c := calls[n];
      ds[n].allowed <==> HasRoom(window, Times(calls, ds, n, c.id), c)
  {
    var c := calls[n];
    TracksHistory(window, calls, ms, ds, n, c.id);
    assert ServesOne(window, calls, ms, ds, n);
    ConsumesOwn(window, ms[n], c, ms[n + 1], ds[n]);
    OwnBucket(window, ms[n], c, ms[n + 1][c.id], ds[n], Times(calls, ds, n, c.id), Last(calls, n));
  }

  /** Key buckets refine the full history under any other traffic. */
  lemma KeyBucketsExact(window: int, calls: seq<Call>, ms: seq<Buckets>, ds: seq<Decision>, n: nat)
    requires window >= 1 && Serves(window, calls, ms, ds) && n < |calls| && calls[n].id.KeyBucket?
    ensures var c := calls[n];
      ds[n].allowed <==> HasRoom(window, Times(calls, ds, n, c.id), c)
  {
    KeyBucketsKept(window, calls, ms, ds, n, calls[n].id);
    AdmitsExactly(window, calls, ms, ds, n);
  }

  function IdsOf(calls: seq<Call>, n: nat): set<BucketId>
    requires n <= |calls|
  {
    set i | 0 <= i < n :: calls[i].id
  }

  lemma {:induction false} TrackedWereCalled(window: int, calls: seq<Call>, ms: seq<Buckets>, ds: seq<Decision>, n: nat)
    requires Serves(window, calls, ms, ds) && n <= |calls|
    ensures ms[n].Keys <= IdsOf(calls, n)
  {
    if n > 0 {
      TrackedWereCalled(window, calls, ms, ds, n - 1);
      assert ServesOne(window, calls, ms, ds, n - 1);
      forall id | id in ms[n]
        ensures id in IdsOf(calls, n)
      {
        if id != calls[n - 1].id {
          OtherBucket(window, ms[n - 1], calls[n - 1], ms[n], ds[n - 1], id);
        }
      }
    }
  }

  /** While no more distinct buckets have been used than can be tracked, nothing is evicted. */
  lemma FewBucketsKept(window: int, calls: seq<Call>, ms: seq<Buckets>, ds: seq<Decision>, n: nat, id: BucketId)
    requires Serves(window, calls, ms, ds) && n <= |calls| && |IdsOf(calls, n)| <= MAX_TRACKED_KEYS
    ensures Kept(ms, n, id)
  {
    forall i | 0 <= i < n && id in ms[i]
      ensures id in ms[i + 1]
    {
      assert ServesOne(window, calls, ms, ds, i);
      if calls[i].id != id {
        if calls[i].id !in ms[i] {
          TrackedWereCalled(window, calls, ms, ds, i);
          assert ms[i].Keys + {calls[i].id} <= IdsOf(calls, n);
          SubsetCard(ms[i].Keys + {calls[i].id}, IdsOf(calls, n));
        }
        OtherBucket(window, ms[i], calls[i], ms[i + 1], ds[i], id);
      }
    }
  }

  /** A bucket the table does not hold is admitted, whatever its history. */
  lemma AbsentAdmitted(window: int, m: Buckets, c: Call, after: Buckets, d: Decision)
    requires window >= 1 && Consumes(m, window, c.id, c.allowance, c.now, after, d) && c.id !in m
    ensures d.allowed && after[c.id].hits == [c.now]
  {
    ConsumesOwn(window, m, c, after, d);
  }

  ghost predicate FixedAllowance(calls: seq<Call>, id: BucketId, allowance: int) {
    forall i :: 0 <= i < |calls| && calls[i].id == id ==> Max(1, calls[i].allowance) == allowance
  }

  lemma {:induction false} TimesSorted(calls: seq<Call>, ds: seq<Decision>, n: nat, id: BucketId)
    requires n <= |calls| == |ds|
    requires forall i, j :: 0 <= i < j < |calls| ==> calls[i].now <= calls[j].now
    ensures Sorted(Times(calls, ds, n, id))
    ensures forall t, k :: t in Times(calls, ds, n, id) && n <= k + 1 <= |calls| && k >= 0 ==> t <= calls[k].now
  {
    if n > 0 {
      TimesSorted(calls, ds, n - 1, id);
      var before := Times(calls, ds, n - 1, id);
      assert forall k :: 0 <= k < |before| ==> before[k] in before;
    }
  }

  lemma {:induction false} CountAtLeast(times: seq<real>, i: nat, lo: real, hi: real)
    requires i <= |times| && forall k :: i <= k < |times| ==> lo < times[k] <= hi
    ensures CountIn(times, lo, hi) >= |times| - i
  {
    if i < |times| {
      CountAtLeast(times[..|times| - 1], i, lo, hi);
    }
  }

  /**
   The limit holds on every window: admissions less than a window apart never
   number more than the allowance, wherever the window starts.
   */
  lemma {:induction false} NoWindowOverflows(window: int, calls: seq<Call>, ms: seq<Buckets>, ds: seq<Decision>,
                                             n: nat, id: BucketId, allowance: int, i: nat, j: nat)
    requires window >= 1 && Serves(window, calls, ms, ds) && n <= |calls| && Kept(ms, n, id)
    requires FixedAllowance(calls, id, allowance)
    requires i <= j < |Times(calls, ds, n, id)|
    requires Times(calls, ds, n, id)[j] - Times(calls, ds, n, id)[i] < window as real
    ensures j - i + 1 <= allowance
    decreases n
  {
    var before := Times(calls, ds, n - 1, id);
    if j < |before| {
      NoWindowOverflows(window, calls, ms, ds, n - 1, id, allowance, i, j);
    } else {
      LastFits(window, calls, ms, ds, n - 1, allowance, i);
    }
  }

  lemma LastFits(window: int, calls: seq<Call>, ms: seq<Buckets>, ds: seq<Decision>, n: nat, allowance: int, i: nat)
    requires window >= 1 && Serves(window, calls, ms, ds) && n < |calls| && Kept(ms, n, calls[n].id)
    requires ds[n].allowed && Max(1, calls[n].allowance) == allowance
    requires var before := Times(calls, ds, n, calls[n].id);
      i <= |before| && (i < |before| ==> calls[n].now - before[i] < window as real)
    ensures |Times(calls, ds, n, calls[n].id)| - i + 1 <= allowance
  {
    TimesSorted(calls, ds, n, calls[n].id);
    AdmitsExactly(window, calls, ms, ds, n);
    RecentCounted(Times(calls, ds, n, calls[n].id), calls[n].now, window, i);
  }

  /** Every admission from the i-th on is inside the window of a hit less than a window after it. */
  lemma RecentCounted(times: seq<real>, now: real, window: int, i: nat)
    requires Sorted(times) && (forall t :: t in times ==> t <= now) && window >= 1
    requires i <= |times| && (i < |times| ==> now - times[i] < window as real)
    ensures CountIn(times, now - window as real, now) >= |times| - i
  {
    forall k | i <= k < |times|
      ensures now - window as real < times[k] <= now
    {
      assert times[k] in times;
    }
    CountAtLeast(times, i, now - window as real, now);
  }

  // ---- Retry-After ---------------------------------------------------------------------

  /**
   Exactly when the advice on a denial is right: after k whole seconds, with nothing
   in between, the same request is admitted if and only if the hit that has to leave
   (the oldest, unless the allowance has shrunk) has left the window.
   */
  lemma DeniedThenAdmitted(window: int, b: Bucket, allowance: int, now: real, k: nat)
    requires window >= 1 && Sorted(b.hits) && (forall t :: t in b.hits ==> t <= now)
    requires !Hit(b, window, allowance, now).1.allowed
    ensures var b' := Hit(b, window, allowance, now).0;
      var leaver := b'.hits[|b'.hits| - Max(1, allowance)];
      Hit(b', window, allowance, now + k as real).1.allowed <==> leaver + window as real <= now + k as real
  {
    var b' := Hit(b, window, allowance, now).0;
    var j := PrunedSuffix(b.hits, now - window as real);
    var at := now + k as real;
    var m := PrunedSuffix(b'.hits, at - window as real);
  }

  /**
   With as many live hits as the allowance, which a fixed allowance guarantees,
   Retry-After is the least whole number of seconds, from 1 to the window, after
   which the same request is admitted.
   */
  lemma RetryAfterExact(window: int, b: Bucket, allowance: int, now: real, k: nat)
    requires window >= 1 && Sorted(b.hits) && (forall t :: t in b.hits ==> t <= now)
    requires !Hit(b, window, allowance, now).1.allowed
    requires |Hit(b, window, allowance, now).0.hits| == Max(1, allowance)
    ensures var (b', d) := Hit(b, window, allowance, now);
      && 1 <= d.retryAfter <= window
      && (k >= 1 ==> (Hit(b', window, allowance, now + k as real).1.allowed <==> k >= d.retryAfter))
  {
    DeniedThenAdmitted(window, b, allowance, now, k);
    var j := PrunedSuffix(b.hits, now - window as real);
    var live := Pruned(b.hits, now - window as real);
    assert live[0] == b.hits[j] && b.hits[j] in b.hits;
    var remaining := live[0] + window as real - now;
    assert 0.0 < remaining <= window as real;
  }

  /** A fixed allowance keeps the deque within it. */
  lemma HitsWithinAllowance(window: int, b: Bucket, allowance: int, now: real)
    requires |b.hits| <= Max(1, allowance)
    ensures |Hit(b, window, allowance, now).0.hits| <= Max(1, allowance)
  {
    PrunedShorter(b.hits, now - window as real);
  }

  lemma {:induction false} PrunedShorter(hits: seq<real>, cutoff: real)
    ensures |Pruned(hits, cutoff)| <= |hits|
  {
    if hits != [] && hits[0] <= cutoff {
      PrunedShorter(hits[1..], cutoff);
    }
  }

  // ---- Bucket choice -------------------------------------------------------------------

  datatype Category = Create | Read | Unlimited

  // What check_request looks at: the category, the digest of a presented key, the digest of the peer.
  datatype Request = Request(category: Category, presentedKey: Option<nat>, host: nat)

  datatype Quotas = Quotas(createMax: int, readMax: int, keys: map<nat, int>)

  /** The bucket and allowance of a request; None when it is not limited. */
  function Route(q: Quotas, enabled: bool, r: Request): Option<(BucketId, int)> {
    if !enabled || r.category.Unlimited? then None
    else if r.category.Create? then
      if r.presentedKey.Some? && r.presentedKey.value in q.keys
      then Some((KeyBucket(r.presentedKey.value), q.keys[r.presentedKey.value]))
      else Some((CreateBucket(r.host), q.createMax))
    else Some((ReadBucket(r.host), q.readMax))
  }

  predicate Recognised(q: Quotas, r: Request) {
    r.category.Create? && r.presentedKey.Some? && r.presentedKey.value in q.keys
  }

  /**
   Requests that share a bucket share its allowance. Only recognised keys on creation use
   key buckets, each with its own quota; other creations and reads count against the peer,
   with the quota of their kind.
   */
  lemma RouteFixesAllowance(q: Quotas, enabled: bool, r1: Request, r2: Request)
    ensures Route(q, enabled, r1).None? <==> !enabled || r1.category.Unlimited?
    ensures Route(q, enabled, r1).Some? && Route(q, enabled, r2).Some? ==>
      (Route(q, enabled, r1).value.0 == Route(q, enabled, r2).value.0 ==> Route(q, enabled, r1) == Route(q, enabled, r2))
    ensures Route(q, enabled, r1).Some? ==>
      var (bucket, allowance) := Route(q, enabled, r1).value;
      match bucket
      case KeyBucket(digest) => Recognised(q, r1) && digest == r1.presentedKey.value && allowance == q.keys[digest]
      case CreateBucket(digest) => r1.category.Create? && !Recognised(q, r1) && digest == r1.host && allowance == q.createMax
      case ReadBucket(digest) => r1.category.Read? && digest == r1.host && allowance == q.readMax
  {
  }
}
