/** What the two sliding-window limiters remember over whole call sequences. */
module LimiterRuns {
  import opened Prelude
  import opened RecencyLists
  import opened SlidingWindow
  import opened BucketEviction
  import L = LruWindow

  // ---- Every call sequence is served -----------------------------------------------------------

  lemma {:induction false} OldestAmong(m: Buckets, among: set<BucketId>) returns (oldest: BucketId)
    requires among != {} && forall b :: b in among ==> b in m && Evictable(b)
    ensures oldest in among && forall b :: b in among && b != oldest ==> SeenBefore(m, oldest, b)
    decreases among
  {
    var x :| x in among;
    if among == {x} {
      oldest := x;
    } else {
      oldest := OldestAmong(m, among - {x});
      if SeenBefore(m, x, oldest) {
        forall b | b in among && b != x
          ensures SeenBefore(m, x, b)
        {
          assert b == oldest || SeenBefore(m, oldest, b);
        }
        oldest := x;
      }
    }
  }

  lemma {:induction false} EvictsSome(m: Buckets, n: nat) returns (after: Buckets)
    ensures Evicts(m, n, after)
    decreases n
  {
    if n == 0 || !HasEvictable(m) {
      after := m;
    } else {
      var among := set b | b in m && Evictable(b);
      var some :| some in m && Evictable(some);
      assert some in among;
      var id := OldestAmong(m, among);
      assert IsOldest(m, id);
      after := EvictsSome(m - {id}, n - 1);
    }
  }

  lemma ConsumesSome(window: int, m: Buckets, c: Call) returns (after: Buckets, d: Decision)
    ensures Consumes(m, window, c.id, c.allowance, c.now, after, d)
  {
    if c.id in m {
      var (b, dd) := Hit(m[c.id], window, c.allowance, c.now);
      after, d := m[c.id := b], dd;
    } else {
      var room := m;
      if |m| >= MAX_TRACKED_KEYS {
        room := EvictsSome(m, |m| - MAX_TRACKED_KEYS + 1);
      }
      assert MakesRoom(m, room);
      var (b, dd) := Hit(Fresh(c.allowance, c.now), window, c.allowance, c.now);
      after, d := room[c.id := b], dd;
    }
  }

  ghost predicate Chronological(calls: seq<Call>) {
    forall i, j :: 0 <= i < j < |calls| ==> calls[i].now <= calls[j].now
  }

  lemma {:induction false} Served(window: int, calls: seq<Call>) returns (ms: seq<Buckets>, ds: seq<Decision>)
    requires Chronological(calls)
    ensures Serves(window, calls, ms, ds)
  {
    if calls == [] {
      ms, ds := [map[]], [];
    } else {
      var n := |calls| - 1;
      var ms0, ds0 := Served(window, calls[..n]);
      var after, d := ConsumesSome(window, ms0[n], calls[n]);
      ms, ds := ms0 + [after], ds0 + [d];
      forall i | 0 <= i <= n
        ensures ServesOne(window, calls, ms, ds, i)
      {
        if i < n {
          assert ServesOne(window, calls[..n], ms0, ds0, i);
        }
      }
    }
  }

  // ---- What a bucket remembers -------------------------------------------------------------------

  /** The part of a bucket's history since it was last absent from the table, from calls and decisions. */
  function Remembered(calls: seq<Call>, ds: seq<Decision>, n: nat, id: BucketId): seq<real>
    requires n <= |calls| == |ds|
  {
    if n == 0 || !Listed(RosterAfter(calls, n), id) then []
    else
      Remembered(calls, ds, n - 1, id) +
      if calls[n - 1].id == id && ds[n - 1].allowed then [calls[n - 1].now] else []
  }

  lemma RemembersOwn(window: int, m: Buckets, c: Call, b': Bucket, d: Decision, times: seq<real>, upTo: real, after: Buckets)
    requires window >= 1 && (b', d) == Hit(Start(m, c), window, c.allowance, c.now)
    requires SlidingWindow.Tracked(window, m, c.id, times, upTo) && (c.id in m ==> upTo <= c.now)
    requires c.id in after && after[c.id] == b'
    ensures SlidingWindow.Tracked(window, after, c.id, Extended(times, c, d), c.now)
  {
    OwnBucket(window, m, c, b', d, times, upTo);
  }

  lemma RemembersOther(window: int, m: Buckets, c: Call, d: Decision, after: Buckets, id: BucketId, times: seq<real>, upTo: real)
    requires Consumes(m, window, c.id, c.allowance, c.now, after, d) && id != c.id
    requires SlidingWindow.Tracked(window, m, id, times, upTo) && (id in m ==> upTo <= c.now)
    ensures SlidingWindow.Tracked(window, after, id, if id in after then times else [], c.now)
  {
    OtherBucket(window, m, c, after, d, id);
    if id in after {
      LaterFaithful(window, after[id], times, upTo, c.now);
    }
  }

  lemma {:induction false} TracksRemembered(window: int, calls: seq<Call>, ms: seq<Buckets>, ds: seq<Decision>, n: nat, id: BucketId)
    requires window >= 1 && Serves(window, calls, ms, ds) && n <= |calls|
    ensures SlidingWindow.Tracked(window, ms[n], id, Remembered(calls, ds, n, id), Last(calls, n))
  {
    if n > 0 {
      TracksRemembered(window, calls, ms, ds, n - 1, id);
      ListedInTable(window, calls, ms, ds, n, id);
      NextRemembered(calls, ds, n, id, id in ms[n]);
      RemembersStep(window, calls, ms, ds, n, id, Remembered(calls, ds, n - 1, id), Remembered(calls, ds, n, id));
    }
  }

  lemma {:induction false} NextRemembered(calls: seq<Call>, ds: seq<Decision>, n: nat, id: BucketId, listed: bool)
    requires 0 < n <= |calls| == |ds| && (Listed(RosterAfter(calls, n), id) <==> listed)
    ensures Remembered(calls, ds, n, id) ==
      if !listed then [] else NextTimes(Remembered(calls, ds, n - 1, id), calls[n - 1], ds[n - 1], id)
  {
    var times := Remembered(calls, ds, n - 1, id);
    assert times + [] == times;
  }

  function NextTimes(times: seq<real>, c: Call, d: Decision, id: BucketId): seq<real> {
    if c.id == id then Extended(times, c, d) else times
  }

  lemma {:induction false} RemembersStep(window: int, calls: seq<Call>, ms: seq<Buckets>, ds: seq<Decision>, n: nat, id: BucketId,
                                         times: seq<real>, next: seq<real>)
    requires window >= 1 && Serves(window, calls, ms, ds) && 0 < n <= |calls|
    requires SlidingWindow.Tracked(window, ms[n - 1], id, times, Last(calls, n - 1))
    requires next == if id in ms[n] then NextTimes(times, calls[n - 1], ds[n - 1], id) else []
    ensures SlidingWindow.Tracked(window, ms[n], id, next, calls[n - 1].now)
  {
    OwnHit(window, calls, ms, ds, n - 1);
    var c := calls[n - 1];
    if c.id == id {
      RemembersOwn(window, ms[n - 1], c, ms[n][id], ds[n - 1], times, Last(calls, n - 1), ms[n]);
    } else {
      assert ServesOne(window, calls, ms, ds, n - 1);
      RemembersOther(window, ms[n - 1], c, ds[n - 1], ms[n], id, times, Last(calls, n - 1));
    }
  }

  /** Whatever has been evicted, admission is exactly room among the hits the bucket remembers. */
  lemma {:induction false} AdmitsRemembered(window: int, calls: seq<Call>, ms: seq<Buckets>, ds: seq<Decision>, n: nat)
    requires window >= 1 && Serves(window, calls, ms, ds) && n < |calls|
    ensures ds[n].allowed <==> HasRoom(window, Remembered(calls, ds, n, calls[n].id), calls[n])
  {
    var c := calls[n];
    TracksRemembered(window, calls, ms, ds, n, c.id);
    OwnHit(window, calls, ms, ds, n);
    OwnBucket(window, ms[n], c, ms[n + 1][c.id], ds[n], Remembered(calls, ds, n, c.id), Last(calls, n));
  }

  lemma {:induction false} RememberedEnd(calls: seq<Call>, ds: seq<Decision>, n: nat, id: BucketId) returns (older: seq<real>)
    requires n <= |calls| == |ds|
    ensures Times(calls, ds, n, id) == older + Remembered(calls, ds, n, id)
  {
    if n == 0 || !Listed(RosterAfter(calls, n), id) {
      older := Times(calls, ds, n, id);
      assert older + [] == older;
    } else {
      older := RememberedEnd(calls, ds, n - 1, id);
    }
  }

  lemma {:induction false} CountConcat(older: seq<real>, newer: seq<real>, lo: real, hi: real)
    ensures CountIn(older + newer, lo, hi) == CountIn(older, lo, hi) + CountIn(newer, lo, hi)
  {
    if newer == [] {
      assert older + newer == older;
    } else {
      var n := |newer| - 1;
      assert (older + newer)[..|older| + n] == older + newer[..n];
      CountConcat(older, newer[..n], lo, hi);
    }
  }

  /** Eviction only ever errs towards admission: a denial is always right by the full history. */
  lemma {:induction false} DeniesRightly(window: int, calls: seq<Call>, ms: seq<Buckets>, ds: seq<Decision>, n: nat)
    requires window >= 1 && Serves(window, calls, ms, ds) && n < |calls|
    ensures !ds[n].allowed ==> !HasRoom(window, Times(calls, ds, n, calls[n].id), calls[n])
  {
    var c := calls[n];
    AdmitsRemembered(window, calls, ms, ds, n);
    var older := RememberedEnd(calls, ds, n, c.id);
    CountConcat(older, Remembered(calls, ds, n, c.id), c.now - window as real, c.now);
  }

  // ---- An evicted bucket admits too much --------------------------------------------------------

  function Visitor(i: nat): BucketId {
    ReadBucket(if i == MAX_TRACKED_KEYS + 1 then 0 else i)
  }

  /** One address, as many others as the table holds, and the first again, all within a second. */
  function Crowd(): (calls: seq<Call>)
    ensures |calls| == MAX_TRACKED_KEYS + 2
    ensures forall i :: 0 <= i < |calls| ==> calls[i] == Call(Visitor(i), 1, i as real / 20000.0)
  {
    seq(MAX_TRACKED_KEYS + 2, i requires 0 <= i < MAX_TRACKED_KEYS + 2 => Call(Visitor(i), 1, i as real / 20000.0))
  }

  lemma {:induction false} CrowdRecency(n: nat)
    requires n <= MAX_TRACKED_KEYS + 1
    ensures var all := Recency(Crowd(), n);
      |all| == n && (forall i :: 0 <= i < n ==> all[i] == ReadBucket(i)) && KeysCalled(Crowd(), n) == {}
  {
    if n > 0 {
      CrowdRecency(n - 1);
      WithoutNone(Recency(Crowd(), n - 1), ReadBucket(n - 1));
    }
  }

  lemma {:induction false} CrowdForgotten(ms: seq<Buckets>, ds: seq<Decision>, n: nat)
    requires Serves(1, Crowd(), ms, ds) && n == MAX_TRACKED_KEYS + 1
    ensures ReadBucket(0) !in ms[n]
  {
    CrowdRecency(n);
    CrowdApart();
    HoldsMostRecent(1, Crowd(), ms, ds, n, ReadBucket(0));
    CrowdPlaces(n);
    FirstIsOut(Recency(Crowd(), n), MAX_TRACKED_KEYS);
  }

  lemma CrowdApart()
    ensures NoTies(Crowd())
  {
  }

  lemma {:induction false} CrowdPlaces(n: nat)
    requires n <= MAX_TRACKED_KEYS + 1
    ensures Places(Crowd(), n) == MAX_TRACKED_KEYS
  {
    CrowdRecency(n);
  }

  lemma FirstIsOut(all: seq<BucketId>, places: nat)
    requires |all| == places + 1 && forall i :: 0 <= i < |all| ==> all[i] == ReadBucket(i)
    ensures ReadBucket(0) !in Newest(all, places)
  {
  }

  lemma {:induction false} CrowdTimes(ms: seq<Buckets>, ds: seq<Decision>, n: nat)
    requires Serves(1, Crowd(), ms, ds) && 1 <= n <= MAX_TRACKED_KEYS + 1
    ensures Times(Crowd(), ds, n, ReadBucket(0)) == [0.0]
  {
    if n == 1 {
      assert ServesOne(1, Crowd(), ms, ds, 0);
      AbsentAdmitted(1, ms[0], Crowd()[0], ms[1], ds[0]);
      assert Times(Crowd(), ds, 0, ReadBucket(0)) == [];
    } else {
      CrowdTimes(ms, ds, n - 1);
    }
  }

  /**
   A full table makes the limiter admit what the history forbids: the first address has
   used up its allowance less than a window ago, has been evicted, and is admitted again.
   */
  lemma EvictedOverAdmits() returns (n: nat, ms: seq<Buckets>, ds: seq<Decision>)
    ensures Serves(1, Crowd(), ms, ds) && n == MAX_TRACKED_KEYS + 1
    ensures ds[n].allowed && !HasRoom(1, Times(Crowd(), ds, n, Crowd()[n].id), Crowd()[n])
  {
    n := MAX_TRACKED_KEYS + 1;
    ms, ds := Served(1, Crowd());
    CrowdForgotten(ms, ds, n);
    CrowdTimes(ms, ds, n);
    assert ServesOne(1, Crowd(), ms, ds, n);
    AbsentAdmitted(1, ms[n], Crowd()[n], ms[n + 1], ds[n]);
    OneInWindow(0.0, Crowd()[n].now);
  }

  lemma OneInWindow(t: real, now: real)
    requires t <= now < t + 1.0
    ensures CountIn([t], now - 1.0, now) == 1
  {
    assert [t][..0] == [];
  }

  // ---- The same for the table of recent keys ------------------------------------------------------

  function Guest(i: nat): L.Key {
    if i == L.MAX_LRU_KEYS + 1 then 0 else i
  }

  function LruCrowd(): (calls: seq<L.LruCall>)
    ensures |calls| == L.MAX_LRU_KEYS + 2
    ensures forall i :: 0 <= i < |calls| ==> calls[i] == L.LruCall(Guest(i), 1, i as real / 40000.0)
  {
    seq(L.MAX_LRU_KEYS + 2, i requires 0 <= i < L.MAX_LRU_KEYS + 2 => L.LruCall(Guest(i), 1, i as real / 40000.0))
  }

  lemma {:induction false} LruServed(window: int, calls: seq<L.LruCall>) returns (ts: seq<L.Table>, ds: seq<Decision>)
    requires forall i, j :: 0 <= i < j < |calls| ==> calls[i].now <= calls[j].now
    requires forall c :: c in calls ==> c.limit >= 1
    ensures L.Serves(window, calls, ts, ds)
  {
    if calls == [] {
      ts, ds := [L.Table([], map[])], [];
    } else {
      var n := |calls| - 1;
      assert forall c :: c in calls[..n] ==> c in calls;
      var ts0, ds0 := LruServed(window, calls[..n]);
      assert calls[n] in calls;
      var (after, d) := L.Consumed(ts0[n], window, calls[n].key, calls[n].limit, calls[n].now);
      ts, ds := ts0 + [after], ds0 + [d];
      forall i | 0 <= i <= n
        ensures L.ServesOne(window, calls, ts, ds, i)
      {
        if i < n {
          assert L.ServesOne(window, calls[..n], ts0, ds0, i);
        }
      }
    }
  }

  lemma {:induction false} LruCrowdRecency(n: nat)
    requires n <= L.MAX_LRU_KEYS + 1
    ensures var all := L.Recency(LruCrowd(), n); |all| == n && forall i :: 0 <= i < n ==> all[i] == i
  {
    if n > 0 {
      LruCrowdRecency(n - 1);
      var before := L.Recency(LruCrowd(), n - 1);
      assert LruCrowd()[n - 1].key == n - 1;
      WithoutNone<L.Key>(before, n - 1);
      assert L.Recency(LruCrowd(), n) == before + [n - 1];
    }
  }

  lemma {:induction false} LruCrowdTimes(ts: seq<L.Table>, ds: seq<Decision>, n: nat)
    requires L.Serves(1, LruCrowd(), ts, ds) && 1 <= n <= L.MAX_LRU_KEYS + 1
    ensures L.Times(LruCrowd(), ds, n, 0) == [0.0]
  {
    if n == 1 {
      assert L.ServesOne(1, LruCrowd(), ts, ds, 0);
      L.AbsentAdmitted(1, ts[0], LruCrowd()[0]);
      assert L.Times(LruCrowd(), ds, 0, 0) == [];
    } else {
      LruCrowdTimes(ts, ds, n - 1);
    }
  }

  /** A key that fell behind that many others is admitted beyond its limit. */
  lemma DroppedOverAdmits() returns (n: nat, ts: seq<L.Table>, ds: seq<Decision>)
    ensures L.Serves(1, LruCrowd(), ts, ds) && n == L.MAX_LRU_KEYS + 1
    ensures ds[n].allowed && !L.HasRoom(1, L.Times(LruCrowd(), ds, n, LruCrowd()[n].key), LruCrowd()[n])
  {
    n := L.MAX_LRU_KEYS + 1;
    ts, ds := LruServed(1, LruCrowd());
    LruCrowdRecency(n);
    L.HoldsNewest(1, LruCrowd(), ts, ds, n, 0);
    LruCrowdTimes(ts, ds, n);
    assert L.ServesOne(1, LruCrowd(), ts, ds, n);
    L.AbsentAdmitted(1, ts[n], LruCrowd()[n]);
    OneInWindow(0.0, LruCrowd()[n].now);
  }
}
