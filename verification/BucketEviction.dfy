/**
 Which buckets the sliding-window limiter has evicted, computed from the calls alone.

 A roster holds the key buckets and, in the order in which they would be evicted, the
 address buckets. It follows the table call by call, and in closed form it is the
 newest part of the list of address buckets by recency.
 */
module BucketEviction {
  import opened Prelude
  import opened RecencyLists
  import opened SlidingWindow

  // ---- One call --------------------------------------------------------------------------

  /** A table above its maximum holds at most one address bucket. */
  ghost predicate Tight(m: Buckets) {
    |m| > MAX_TRACKED_KEYS ==> forall a, b :: a in m && b in m && Evictable(a) && Evictable(b) ==> a == b
  }

  ghost predicate HasEvictable(m: Buckets) {
    exists b :: b in m && Evictable(b)
  }

  lemma OldestUnique(m: Buckets, a: BucketId, b: BucketId)
    requires IsOldest(m, a) && IsOldest(m, b)
    ensures a == b
  {
  }

  lemma RemoveOne(m: Buckets, id: BucketId)
    requires id in m
    ensures |m - {id}| == |m| - 1
  {
    assert (m - {id}).Keys == m.Keys - {id};
  }

  /** Making room in a full table costs the oldest address bucket its place, and no other bucket. */
  lemma RoomExactly(m: Buckets, room: Buckets)
    requires Tight(m) && |m| >= MAX_TRACKED_KEYS && MakesRoom(m, room)
    ensures if HasEvictable(m) then exists id :: IsOldest(m, id) && room == m - {id} else room == m
  {
    if HasEvictable(m) {
      var n := |m| - MAX_TRACKED_KEYS + 1;
      var id :| IsOldest(m, id) && Evicts(m - {id}, n - 1, room);
      if n > 1 {
        forall b | b in m - {id}
          ensures !Evictable(b)
        {
        }
      }
      assert room == m - {id};
    }
  }

  ghost predicate Full(m: Buckets, c: Call) {
    c.id !in m && |m| >= MAX_TRACKED_KEYS
  }

  /** The table after a call: its own bucket set, and one less if the table was full. */
  lemma CallChanges(window: int, m: Buckets, c: Call, after: Buckets, d: Decision)
    requires Tight(m) && Consumes(m, window, c.id, c.allowance, c.now, after, d)
    ensures c.id in after && after[c.id].lastSeen == c.now
    ensures Full(m, c) && HasEvictable(m) ==> exists id :: IsOldest(m, id) && after == (m - {id})[c.id := after[c.id]]
    ensures !Full(m, c) || !HasEvictable(m) ==> after == m[c.id := after[c.id]]
  {
    if c.id !in m {
      var room :| MakesRoom(m, room) &&
        var (b, dd) := Hit(Fresh(c.allowance, c.now), window, c.allowance, c.now); after == room[c.id := b] && d == dd;
      if |m| >= MAX_TRACKED_KEYS {
        RoomExactly(m, room);
      }
    }
  }

  /** A bucket goes exactly when a new one comes into a full table in which it is the oldest address bucket. */
  lemma EvictedExactly(window: int, m: Buckets, c: Call, after: Buckets, d: Decision, id: BucketId)
    requires Tight(m) && Consumes(m, window, c.id, c.allowance, c.now, after, d) && id != c.id
    ensures id in m && id !in after <==> Full(m, c) && IsOldest(m, id)
  {
    CallChanges(window, m, c, after, d);
    if Full(m, c) && HasEvictable(m) {
      var gone :| IsOldest(m, gone) && after == (m - {gone})[c.id := after[c.id]];
      if IsOldest(m, id) {
        OldestUnique(m, id, gone);
      }
    }
  }

  lemma StaysTight(window: int, m: Buckets, c: Call, after: Buckets, d: Decision)
    requires Tight(m) && Consumes(m, window, c.id, c.allowance, c.now, after, d)
    ensures Tight(after)
  {
    CallChanges(window, m, c, after, d);
    if Full(m, c) && HasEvictable(m) {
      var gone :| IsOldest(m, gone) && after == (m - {gone})[c.id := after[c.id]];
      TightSwapped(m, gone, c.id, after[c.id]);
    } else if c.id in m {
      assert after.Keys == m.Keys;
    } else {
      TightAdded(m, c.id, after[c.id]);
    }
  }

  lemma TightSwapped(m: Buckets, gone: BucketId, id: BucketId, b: Bucket)
    requires Tight(m) && gone in m && Evictable(gone) && id !in m
    ensures Tight((m - {gone})[id := b])
  {
    RemoveOne(m, gone);
    assert (m - {gone})[id := b].Keys == (m - {gone}).Keys + {id};
    if |m| > MAX_TRACKED_KEYS {
      assert forall a :: a in m - {gone} ==> !Evictable(a);
    }
  }

  lemma TightAdded(m: Buckets, id: BucketId, b: Bucket)
    requires Tight(m) && id !in m && (|m| >= MAX_TRACKED_KEYS ==> !HasEvictable(m))
    ensures Tight(m[id := b])
  {
    assert m[id := b].Keys == m.Keys + {id};
  }

  lemma {:induction false} AlwaysTight(window: int, calls: seq<Call>, ms: seq<Buckets>, ds: seq<Decision>, n: nat)
    requires Serves(window, calls, ms, ds) && n <= |calls|
    ensures Tight(ms[n])
  {
    if n > 0 {
      AlwaysTight(window, calls, ms, ds, n - 1);
      assert ServesOne(window, calls, ms, ds, n - 1);
      StaysTight(window, ms[n - 1], calls[n - 1], ms[n], ds[n - 1]);
    }
  }

  // ---- The buckets in the table, from the calls alone -----------------------------------------

  // An address bucket and when it was last seen.
  datatype Seat = Seat(id: BucketId, at: real)

  predicate Precedes(a: Seat, b: Seat) {
    a.at < b.at || (a.at == b.at && IdBefore(a.id, b.id))
  }

  /** Where the limiter's order of eviction puts a bucket that has just been seen. */
  function Seated(order: seq<Seat>, s: Seat): seq<Seat> {
    var n := |order| - 1;
    if order == [] || Precedes(order[n], s) then order + [s] else Seated(order[..n], s) + [order[n]]
  }

  function Unseated(order: seq<Seat>, id: BucketId): seq<Seat> {
    Filter(order, (s: Seat) => s.id != id)
  }

  predicate SeatOf(order: seq<Seat>, id: BucketId) {
    exists i :: 0 <= i < |order| && order[i].id == id
  }

  // The key buckets, and the address buckets in the order in which they would be evicted.
  datatype Roster = Roster(keys: set<BucketId>, order: seq<Seat>)

  predicate Listed(r: Roster, id: BucketId) {
    id in r.keys || SeatOf(r.order, id)
  }

  function Roomy(r: Roster): seq<Seat> {
    if |r.keys| + |r.order| >= MAX_TRACKED_KEYS && r.order != [] then r.order[1..] else r.order
  }

  function Enrolled(r: Roster, id: BucketId, now: real): Roster {
    if Listed(r, id) then
      if Evictable(id) then Roster(r.keys, Seated(Unseated(r.order, id), Seat(id, now))) else r
    else
      if Evictable(id) then Roster(r.keys, Seated(Roomy(r), Seat(id, now))) else Roster(r.keys + {id}, Roomy(r))
  }

  /** Who is tracked after the first n calls. */
  function RosterAfter(calls: seq<Call>, n: nat): Roster
    requires n <= |calls|
  {
    if n == 0 then Roster({}, []) else Enrolled(RosterAfter(calls, n - 1), calls[n - 1].id, calls[n - 1].now)
  }

  ghost predicate Ranked(order: seq<Seat>) {
    && (forall i :: 0 <= i < |order| ==> Evictable(order[i].id))
    && (forall i, j :: 0 <= i < j < |order| ==> Precedes(order[i], order[j]) && order[i].id != order[j].id)
  }

  /** The roster lists exactly the buckets of the table, with their times. */
  ghost predicate Matches(r: Roster, m: Buckets) {
    && Ranked(r.order)
    && (forall id :: id in r.keys ==> id in m && !Evictable(id))
    && (forall i :: 0 <= i < |r.order| ==> r.order[i].id in m && m[r.order[i].id].lastSeen == r.order[i].at)
    && (forall id :: id in m ==> Listed(r, id))
  }

  function Ids(order: seq<Seat>): (ids: seq<BucketId>)
    ensures |ids| == |order| && forall i :: 0 <= i < |order| ==> ids[i] == order[i].id
  {
    seq(|order|, i requires 0 <= i < |order| => order[i].id)
  }

  lemma MatchesCard(r: Roster, m: Buckets)
    requires Matches(r, m)
    ensures |m| == |r.keys| + |r.order|
  {
    var ids := ToSet(Ids(r.order));
    DistinctCard(Ids(r.order));
    forall id
      ensures id in m <==> id in r.keys + ids
    {
      if SeatOf(r.order, id) {
        var i :| 0 <= i < |r.order| && r.order[i].id == id;
        assert Ids(r.order)[i] == id;
      }
    }
    assert m.Keys == r.keys + ids;
    forall id | id in ids
      ensures id !in r.keys
    {
      var i :| 0 <= i < |r.order| && Ids(r.order)[i] == id;
    }
  }

  lemma FirstIsOldest(r: Roster, m: Buckets)
    requires Matches(r, m) && r.order != []
    ensures IsOldest(m, r.order[0].id)
  {
    forall b | b in m && Evictable(b) && b != r.order[0].id
      ensures SeenBefore(m, r.order[0].id, b)
    {
      assert Listed(r, b);
      var i :| 0 <= i < |r.order| && r.order[i].id == b;
      assert Precedes(r.order[0], r.order[i]);
    }
  }

  lemma NoSeats(r: Roster, m: Buckets)
    requires Matches(r, m) && r.order == []
    ensures !HasEvictable(m)
  {
    forall b | b in m
      ensures !Evictable(b)
    {
      assert Listed(r, b);
    }
  }

  lemma {:induction false} SeatedRanks(order: seq<Seat>, s: Seat)
    requires Ranked(order) && Evictable(s.id) && forall i :: 0 <= i < |order| ==> order[i].id != s.id && order[i].at <= s.at
    ensures Ranked(Seated(order, s)) && |Seated(order, s)| == |order| + 1
    ensures forall x :: x in Seated(order, s) <==> x in order || x == s
  {
    var n := |order| - 1;
    if order != [] && !Precedes(order[n], s) {
      SeatedRanks(order[..n], s);
      var inner := Seated(order[..n], s);
      assert order == order[..n] + [order[n]];
      assert order[n].at == s.at && Precedes(s, order[n]);
      forall i | 0 <= i < |inner|
        ensures Precedes(inner[i], order[n]) && inner[i].id != order[n].id
      {
        assert inner[i] in inner;
        if inner[i] != s {
          var k :| 0 <= k < n && order[k] == inner[i];
        }
      }
    } else if order != [] {
      forall i | 0 <= i < |order|
        ensures Precedes(order[i], s)
      {
        assert i == n || Precedes(order[i], order[n]);
      }
    }
  }

  lemma {:induction false} UnseatedRanks(order: seq<Seat>, id: BucketId)
    requires Ranked(order)
    ensures Ranked(Unseated(order, id))
  {
    if order != [] {
      var rest := Unseated(order[1..], id);
      UnseatedRanks(order[1..], id);
      forall j | 0 <= j < |rest|
        ensures Precedes(order[0], rest[j]) && order[0].id != rest[j].id
      {
        assert rest[j] in rest;
        var k :| 0 <= k < |order[1..]| && order[1..][k] == rest[j];
        assert order[k + 1] == rest[j];
      }
    }
  }

  lemma UnseatFirst(order: seq<Seat>)
    requires Ranked(order) && order != []
    ensures Unseated(order, order[0].id) == order[1..]
  {
    UnseatNone(order[1..], order[0].id);
  }

  lemma {:induction false} UnseatNone(order: seq<Seat>, id: BucketId)
    requires forall i :: 0 <= i < |order| ==> order[i].id != id
    ensures Unseated(order, id) == order
  {
    if order != [] {
      UnseatNone(order[1..], id);
    }
  }

  lemma SeatIn(order: seq<Seat>, id: BucketId)
    ensures SeatOf(order, id) <==> exists s :: s in order && s.id == id
  {
    if i :| 0 <= i < |order| && order[i].id == id {
      assert order[i] in order;
    }
  }

  lemma RemoveMatches(r: Roster, m: Buckets, id: BucketId)
    requires Matches(r, m) && Evictable(id)
    ensures Matches(Roster(r.keys, Unseated(r.order, id)), m - {id})
  {
    var order := Unseated(r.order, id);
    UnseatedRanks(r.order, id);
    forall i | 0 <= i < |order|
      ensures order[i].id in m - {id} && m[order[i].id].lastSeen == order[i].at
    {
      assert order[i] in order;
      var k :| 0 <= k < |r.order| && r.order[k] == order[i];
    }
    forall x | x in m - {id}
      ensures x in r.keys || SeatOf(order, x)
    {
      assert Listed(r, x);
      SeatIn(r.order, x);
      SeatIn(order, x);
    }
  }

  lemma SeatMatches(r: Roster, m: Buckets, id: BucketId, b: Bucket)
    requires Matches(r, m) && Evictable(id) && id !in m && forall i :: 0 <= i < |r.order| ==> r.order[i].at <= b.lastSeen
    ensures Matches(Roster(r.keys, Seated(r.order, Seat(id, b.lastSeen))), m[id := b])
  {
    var seat := Seat(id, b.lastSeen);
    var order, after := Seated(r.order, seat), m[id := b];
    SeatedRanks(r.order, seat);
    forall i | 0 <= i < |order|
      ensures order[i].id in after && after[order[i].id].lastSeen == order[i].at
    {
      assert order[i] in order;
      if order[i] != seat {
        var k :| 0 <= k < |r.order| && r.order[k] == order[i];
      }
    }
    forall x | x in after
      ensures x in r.keys || SeatOf(order, x)
    {
      SeatIn(order, x);
      if x == id {
        assert seat in order;
      } else {
        assert Listed(r, x);
        SeatIn(r.order, x);
      }
    }
  }

  lemma KeyMatches(r: Roster, m: Buckets, id: BucketId, b: Bucket)
    requires Matches(r, m) && !Evictable(id)
    ensures Matches(Roster(r.keys + {id}, r.order), m[id := b])
  {
    var after := m[id := b];
    forall x | x in after
      ensures x in r.keys + {id} || SeatOf(r.order, x)
    {
      assert x == id || Listed(r, x);
    }
  }

  lemma ListedIsIn(r: Roster, m: Buckets, id: BucketId)
    requires Matches(r, m)
    ensures Listed(r, id) <==> id in m
  {
  }

  /** The table after room has been made, and the roster for it. */
  lemma RoomMatches(r: Roster, m: Buckets, c: Call) returns (left: Buckets)
    requires Matches(r, m) && c.id !in m
    ensures Matches(Roster(r.keys, Roomy(r)), left) && left.Keys <= m.Keys
    ensures Full(m, c) && HasEvictable(m) ==> r.order != [] && left == m - {r.order[0].id} && IsOldest(m, r.order[0].id)
    ensures !Full(m, c) || !HasEvictable(m) ==> left == m
  {
    MatchesCard(r, m);
    left := m;
    if r.order == [] {
      NoSeats(r, m);
    } else {
      FirstIsOldest(r, m);
      if Full(m, c) {
        UnseatFirst(r.order);
        RemoveMatches(r, m, r.order[0].id);
        left := m - {r.order[0].id};
      }
    }
  }

  lemma NewMatches(window: int, r: Roster, m: Buckets, c: Call, after: Buckets, d: Decision)
    requires Tight(m) && Matches(r, m) && Consumes(m, window, c.id, c.allowance, c.now, after, d)
    requires c.id !in m && forall i :: 0 <= i < |r.order| ==> r.order[i].at <= c.now
    ensures Matches(Enrolled(r, c.id, c.now), after)
  {
    ListedIsIn(r, m, c.id);
    CallChanges(window, m, c, after, d);
    var left := RoomMatches(r, m, c);
    if Full(m, c) && HasEvictable(m) {
      var gone :| IsOldest(m, gone) && after == (m - {gone})[c.id := after[c.id]];
      OldestUnique(m, gone, r.order[0].id);
    }
    assert after == left[c.id := after[c.id]];
    if Evictable(c.id) {
      SeatMatches(Roster(r.keys, Roomy(r)), left, c.id, after[c.id]);
    } else {
      KeyMatches(Roster(r.keys, Roomy(r)), left, c.id, after[c.id]);
    }
  }

  lemma SeenMatches(window: int, r: Roster, m: Buckets, c: Call, after: Buckets, d: Decision)
    requires Tight(m) && Matches(r, m) && Consumes(m, window, c.id, c.allowance, c.now, after, d)
    requires c.id in m && forall i :: 0 <= i < |r.order| ==> r.order[i].at <= c.now
    ensures Matches(Enrolled(r, c.id, c.now), after)
  {
    ListedIsIn(r, m, c.id);
    CallChanges(window, m, c, after, d);
    if Evictable(c.id) {
      RemoveMatches(r, m, c.id);
      var order := Unseated(r.order, c.id);
      forall i | 0 <= i < |order|
        ensures order[i].at <= c.now
      {
        assert order[i] in order;
      }
      SeatMatches(Roster(r.keys, order), m - {c.id}, c.id, after[c.id]);
      assert (m - {c.id})[c.id := after[c.id]] == after;
    } else {
      KeyMatches(r, m, c.id, after[c.id]);
      assert c.id in r.keys;
      assert r.keys + {c.id} == r.keys;
    }
  }

  ghost predicate SeatsBy(order: seq<Seat>, now: real) {
    forall i :: 0 <= i < |order| ==> order[i].at <= now
  }

  /** No seat is later than any call from the last one on. */
  ghost predicate SeatsSoFar(calls: seq<Call>, n: nat, order: seq<Seat>)
    requires n <= |calls|
  {
    forall k :: n <= k + 1 <= |calls| && k >= 0 ==> SeatsBy(order, calls[k].now)
  }

  lemma {:induction false} SeatedIn(order: seq<Seat>, s: Seat)
    ensures forall x :: x in Seated(order, s) <==> x in order || x == s
  {
    var n := |order| - 1;
    if order != [] && !Precedes(order[n], s) {
      SeatedIn(order[..n], s);
      assert order == order[..n] + [order[n]];
    }
  }

  lemma EnrolledBy(r: Roster, id: BucketId, now: real)
    requires SeatsBy(r.order, now)
    ensures SeatsBy(Enrolled(r, id, now).order, now)
  {
    var order := Enrolled(r, id, now).order;
    SeatedIn(Unseated(r.order, id), Seat(id, now));
    SeatedIn(Roomy(r), Seat(id, now));
    forall i | 0 <= i < |order|
      ensures order[i].at <= now
    {
      assert order[i] in order;
      if order[i] != Seat(id, now) {
        assert order[i] in r.order;
      }
    }
  }

  /** After any calls the table holds exactly the buckets on the roster. */
  lemma {:induction false} TableIsRoster(window: int, calls: seq<Call>, ms: seq<Buckets>, ds: seq<Decision>, n: nat)
    requires Serves(window, calls, ms, ds) && n <= |calls|
    ensures Matches(RosterAfter(calls, n), ms[n]) && SeatsSoFar(calls, n, RosterAfter(calls, n).order)
  {
    if n == 0 {
      NobodyYet();
    } else {
      TableIsRoster(window, calls, ms, ds, n - 1);
      NextRoster(window, calls, ms, ds, n, RosterAfter(calls, n - 1), RosterAfter(calls, n));
    }
  }

  lemma NobodyYet()
    ensures Matches(Roster({}, []), map[])
  {
  }

  lemma NextRoster(window: int, calls: seq<Call>, ms: seq<Buckets>, ds: seq<Decision>, n: nat,
                   r: Roster, next: Roster)
    requires Serves(window, calls, ms, ds) && 0 < n <= |calls| && Matches(r, ms[n - 1]) && SeatsSoFar(calls, n - 1, r.order)
    requires next == Enrolled(r, calls[n - 1].id, calls[n - 1].now)
    ensures Matches(next, ms[n]) && SeatsSoFar(calls, n, next.order)
  {
    AlwaysTight(window, calls, ms, ds, n - 1);
    assert ServesOne(window, calls, ms, ds, n - 1);
    EnrolledMatches(window, r, ms[n - 1], calls[n - 1], ms[n], ds[n - 1]);
    SeatsLater(calls, n, next.order);
  }

  lemma SeatsLater(calls: seq<Call>, n: nat, order: seq<Seat>)
    requires 0 < n <= |calls| && SeatsBy(order, calls[n - 1].now)
    requires forall i, j :: 0 <= i < j < |calls| ==> calls[i].now <= calls[j].now
    ensures SeatsSoFar(calls, n, order)
  {
    forall k: nat | n <= k + 1 <= |calls|
      ensures SeatsBy(order, calls[k].now)
    {
      assert calls[n - 1].now <= calls[k].now;
    }
  }

  lemma EnrolledMatches(window: int, r: Roster, m: Buckets, c: Call, after: Buckets, d: Decision)
    requires Tight(m) && Matches(r, m) && Consumes(m, window, c.id, c.allowance, c.now, after, d) && SeatsBy(r.order, c.now)
    ensures Matches(Enrolled(r, c.id, c.now), after) && SeatsBy(Enrolled(r, c.id, c.now).order, c.now)
  {
    if c.id in m {
      SeenMatches(window, r, m, c, after, d);
    } else {
      NewMatches(window, r, m, c, after, d);
    }
    EnrolledBy(r, c.id, c.now);
  }

  lemma {:induction false} ListedInTable(window: int, calls: seq<Call>, ms: seq<Buckets>, ds: seq<Decision>, n: nat, id: BucketId)
    requires Serves(window, calls, ms, ds) && n <= |calls|
    ensures Listed(RosterAfter(calls, n), id) <==> id in ms[n]
  {
    TableIsRoster(window, calls, ms, ds, n);
    ListedIsIn(RosterAfter(calls, n), ms[n], id);
  }

  /** Which calls a bucket survives can be told from the calls. */
  ghost predicate StaysListed(calls: seq<Call>, n: nat, id: BucketId)
    requires n <= |calls|
  {
    forall i :: 0 <= i < n && Listed(RosterAfter(calls, i), id) ==> Listed(RosterAfter(calls, i + 1), id)
  }

  lemma KeptExactly(window: int, calls: seq<Call>, ms: seq<Buckets>, ds: seq<Decision>, n: nat, id: BucketId)
    requires Serves(window, calls, ms, ds) && n <= |calls|
    ensures Kept(ms, n, id) <==> StaysListed(calls, n, id)
  {
    forall i | 0 <= i <= n
      ensures id in ms[i] <==> Listed(RosterAfter(calls, i), id)
    {
      ListedInTable(window, calls, ms, ds, i, id);
    }
  }

  // ---- In closed form -----------------------------------------------------------------------------

  /** The address buckets called so far, each once, least recently called first. */
  function Recency(calls: seq<Call>, n: nat): seq<BucketId>
    requires n <= |calls|
  {
    if n == 0 then []
    else if Evictable(calls[n - 1].id) then Recalled(Recency(calls, n - 1), calls[n - 1].id)
    else Recency(calls, n - 1)
  }

  function KeysCalled(calls: seq<Call>, n: nat): set<BucketId>
    requires n <= |calls|
  {
    if n == 0 then {}
    else if Evictable(calls[n - 1].id) then KeysCalled(calls, n - 1)
    else KeysCalled(calls, n - 1) + {calls[n - 1].id}
  }

  /** An address bucket has been called since the last time a key was called for the first time. */
  predicate AddressSince(calls: seq<Call>, n: nat)
    requires n <= |calls|
  {
    n > 0 && (Evictable(calls[n - 1].id) || (calls[n - 1].id in KeysCalled(calls, n - 1) && AddressSince(calls, n - 1)))
  }

  /** How many address buckets the table has places for. */
  function Places(calls: seq<Call>, n: nat): nat
    requires n <= |calls|
  {
    var keys := |KeysCalled(calls, n)|;
    if keys < MAX_TRACKED_KEYS then MAX_TRACKED_KEYS - keys else if AddressSince(calls, n) then 1 else 0
  }

  /** Different address buckets are never called at the same time. */
  ghost predicate NoTies(calls: seq<Call>) {
    forall i, j :: 0 <= i < j < |calls| && Evictable(calls[i].id) && Evictable(calls[j].id) && calls[i].id != calls[j].id ==>
      calls[i].now < calls[j].now
  }

  lemma {:induction false} UnseatedIds(order: seq<Seat>, id: BucketId)
    ensures Ids(Unseated(order, id)) == Without(Ids(order), id)
  {
    if order != [] {
      UnseatedIds(order[1..], id);
      assert Ids(order) == [order[0].id] + Ids(order[1..]);
      assert Ids([order[0]] + Unseated(order[1..], id)) == [order[0].id] + Ids(Unseated(order[1..], id));
    }
  }

  lemma SeatedLast(order: seq<Seat>, s: Seat)
    requires order != [] ==> order[|order| - 1].at < s.at
    ensures Seated(order, s) == order + [s] && Ids(Seated(order, s)) == Ids(order) + [s.id]
  {
  }

  // What is kept of a recency list in a table with so many keys and so many places.
  ghost predicate Holds(keys: nat, all: seq<BucketId>, kept: seq<BucketId>, places: nat) {
    && Distinct(all) && kept == Newest(all, places)
    && (keys < MAX_TRACKED_KEYS ==> places == MAX_TRACKED_KEYS - keys)
    && (keys >= MAX_TRACKED_KEYS ==> places <= 1)
  }

  function Left(keys: nat, kept: seq<BucketId>): seq<BucketId> {
    if keys + |kept| >= MAX_TRACKED_KEYS && kept != [] then kept[1..] else kept
  }

  lemma HoldsSeen(keys: nat, all: seq<BucketId>, kept: seq<BucketId>, places: nat, id: BucketId)
    requires Holds(keys, all, kept, places) && id in kept && places >= 1
    ensures Holds(keys, Recalled(all, id), Recalled(kept, id), places)
  {
    TouchNewest(all, id, places);
    RecalledDistinct(all, id);
  }

  lemma HoldsNew(keys: nat, all: seq<BucketId>, kept: seq<BucketId>, places: nat, id: BucketId)
    requires Holds(keys, all, kept, places) && id !in kept
    ensures Holds(keys, Recalled(all, id), Left(keys, kept) + [id], if keys < MAX_TRACKED_KEYS then places else 1)
  {
    RecalledDistinct(all, id);
    if keys < MAX_TRACKED_KEYS {
      WithoutNone(kept, id);
      TouchNewest(all, id, places);
      LeftNewest(keys, all, kept, places, id);
    } else {
      assert Left(keys, kept) == [];
      NewestOne(Without(all, id), id);
    }
  }

  lemma NewestOne(xs: seq<BucketId>, id: BucketId)
    ensures Newest(xs + [id], 1) == [id] && [] + [id] == [id]
  {
  }

  lemma LeftNewest(keys: nat, all: seq<BucketId>, kept: seq<BucketId>, places: nat, id: BucketId)
    requires Holds(keys, all, kept, places) && keys < MAX_TRACKED_KEYS
    ensures Left(keys, kept) + [id] == Newest(kept + [id], places)
  {
  }

  lemma HoldsKey(keys: nat, all: seq<BucketId>, kept: seq<BucketId>, places: nat)
    requires Holds(keys, all, kept, places)
    ensures Holds(keys + 1, all, Left(keys, kept), if keys + 1 < MAX_TRACKED_KEYS then MAX_TRACKED_KEYS - (keys + 1) else 0)
  {
  }

  /** Every seat's time is that of a call of its bucket. */
  ghost predicate SeatsCalled(calls: seq<Call>, n: nat, order: seq<Seat>)
    requires n <= |calls|
  {
    forall s :: s in order ==> exists i :: 0 <= i < n && calls[i].id == s.id && calls[i].now == s.at
  }

  lemma SeatsBefore(calls: seq<Call>, n: nat, order: seq<Seat>)
    requires n < |calls| && NoTies(calls) && SeatsCalled(calls, n, order) && Evictable(calls[n].id)
    requires forall s :: s in order ==> Evictable(s.id) && s.id != calls[n].id
    ensures order != [] ==> order[|order| - 1].at < calls[n].now
  {
    if order != [] {
      var s := order[|order| - 1];
      assert s in order;
      var i :| 0 <= i < n && calls[i].id == s.id && calls[i].now == s.at;
    }
  }

  lemma SeatsStayCalled(calls: seq<Call>, n: nat, before: seq<Seat>, order: seq<Seat>)
    requires n < |calls| && SeatsCalled(calls, n, before)
    requires forall s :: s in order ==> s in before || s == Seat(calls[n].id, calls[n].now)
    ensures SeatsCalled(calls, n + 1, order)
  {
  }

  /** The roster keeps the newest part of a recency list. */
  ghost predicate Closed(calls: seq<Call>, n: nat, r: Roster, all: seq<BucketId>, places: nat)
    requires n <= |calls|
  {
    && (forall id :: id in r.keys ==> !Evictable(id))
    && Ranked(r.order) && SeatsCalled(calls, n, r.order)
    && Holds(|r.keys|, all, Ids(r.order), places)
  }

  lemma SeatOfIds(order: seq<Seat>, id: BucketId)
    ensures SeatOf(order, id) <==> id in Ids(order)
  {
    if SeatOf(order, id) {
      var i :| 0 <= i < |order| && order[i].id == id;
      assert Ids(order)[i] == id;
    }
  }

  lemma RoomyIds(r: Roster)
    ensures Ids(Roomy(r)) == Left(|r.keys|, Ids(r.order))
  {
  }

  /** A bucket comes back, or comes new, at the end of the order. */
  lemma Appended(calls: seq<Call>, n: nat, before: seq<Seat>, order: seq<Seat>)
    requires n < |calls| && NoTies(calls) && SeatsCalled(calls, n, before) && Evictable(calls[n].id)
    requires Ranked(order) && forall s :: s in order ==> s in before && s.id != calls[n].id
    ensures var after := Seated(order, Seat(calls[n].id, calls[n].now));
      Ranked(after) && SeatsCalled(calls, n + 1, after) && Ids(after) == Ids(order) + [calls[n].id]
  {
    var seat := Seat(calls[n].id, calls[n].now);
    forall s | s in order
      ensures Evictable(s.id)
    {
      var i :| 0 <= i < |order| && order[i] == s;
    }
    SeatsBefore(calls, n, order);
    SeatedLast(order, seat);
    RankedAppend(order, seat);
    SeatsStayCalled(calls, n, before, order + [seat]);
  }

  /** A tracked address bucket is called again. */
  lemma ClosedSeen(calls: seq<Call>, n: nat, r: Roster, all: seq<BucketId>, places: nat)
    requires n < |calls| && NoTies(calls) && Closed(calls, n, r, all, places) && places >= 1
    requires Evictable(calls[n].id) && SeatOf(r.order, calls[n].id)
    ensures Closed(calls, n + 1, Enrolled(r, calls[n].id, calls[n].now), Recalled(all, calls[n].id), places)
  {
    var id := calls[n].id;
    SeatOfIds(r.order, id);
    UnseatedRanks(r.order, id);
    UnseatedIds(r.order, id);
    Appended(calls, n, r.order, Unseated(r.order, id));
    HoldsSeen(|r.keys|, all, Ids(r.order), places, id);
  }

  /** An address bucket that is not tracked is called. */
  lemma ClosedNew(calls: seq<Call>, n: nat, r: Roster, all: seq<BucketId>, places: nat)
    requires n < |calls| && NoTies(calls) && Closed(calls, n, r, all, places)
    requires Evictable(calls[n].id) && !SeatOf(r.order, calls[n].id)
    ensures Closed(calls, n + 1, Enrolled(r, calls[n].id, calls[n].now), Recalled(all, calls[n].id),
                   if |r.keys| < MAX_TRACKED_KEYS then places else 1)
  {
    var id := calls[n].id;
    SeatOfIds(r.order, id);
    SeatIn(r.order, id);
    RoomyIds(r);
    RoomyRanks(r);
    Appended(calls, n, r.order, Roomy(r));
    HoldsNew(|r.keys|, all, Ids(r.order), places, id);
  }

  lemma RoomyRanks(r: Roster)
    requires Ranked(r.order)
    ensures Ranked(Roomy(r)) && forall s :: s in Roomy(r) ==> s in r.order
  {
  }

  lemma RankedAppend(order: seq<Seat>, s: Seat)
    requires Ranked(order) && Evictable(s.id) && (order != [] ==> order[|order| - 1].at < s.at)
    requires forall x :: x in order ==> x.id != s.id
    ensures Ranked(order + [s])
  {
    forall i | 0 <= i < |order|
      ensures Precedes(order[i], s) && order[i].id != s.id
    {
      assert order[i] in order;
      assert i == |order| - 1 || Precedes(order[i], order[|order| - 1]);
    }
  }

  /** A key is called for the first time. */
  lemma ClosedKey(calls: seq<Call>, n: nat, r: Roster, all: seq<BucketId>, places: nat)
    requires n < |calls| && Closed(calls, n, r, all, places) && !Evictable(calls[n].id) && calls[n].id !in r.keys
    ensures Closed(calls, n + 1, Enrolled(r, calls[n].id, calls[n].now), all,
                   if |r.keys| + 1 < MAX_TRACKED_KEYS then MAX_TRACKED_KEYS - (|r.keys| + 1) else 0)
  {
    NotSeated(r.order, calls[n].id);
    RoomyIds(r);
    RoomyRanks(r);
    HoldsKey(|r.keys|, all, Ids(r.order), places);
    SeatsStayCalled(calls, n, r.order, Roomy(r));
    assert Enrolled(r, calls[n].id, calls[n].now) == Roster(r.keys + {calls[n].id}, Roomy(r));
  }

  lemma NotSeated(order: seq<Seat>, id: BucketId)
    requires Ranked(order) && !Evictable(id)
    ensures !SeatOf(order, id)
  {
  }

  lemma ClosedLater(calls: seq<Call>, n: nat, r: Roster, all: seq<BucketId>, places: nat)
    requires n < |calls| && Closed(calls, n, r, all, places)
    ensures Closed(calls, n + 1, r, all, places)
  {
    SeatsStayCalled(calls, n, r.order, r.order);
  }

  lemma {:induction false} RosterKeys(calls: seq<Call>, n: nat)
    requires n <= |calls|
    ensures RosterAfter(calls, n).keys == KeysCalled(calls, n)
    ensures forall id :: id in KeysCalled(calls, n) ==> !Evictable(id)
  {
    if n > 0 {
      RosterKeys(calls, n - 1);
      RosterSeats(calls, n - 1);
      EnrolledKeys(RosterAfter(calls, n - 1), calls[n - 1].id, calls[n - 1].now);
    }
  }

  lemma EnrolledKeys(r: Roster, id: BucketId, now: real)
    requires forall s :: s in r.order ==> Evictable(s.id)
    ensures Enrolled(r, id, now).keys == if Evictable(id) then r.keys else r.keys + {id}
  {
    SeatIn(r.order, id);
    if id in r.keys {
      assert r.keys + {id} == r.keys;
    }
  }

  lemma {:induction false} RosterSeats(calls: seq<Call>, n: nat)
    requires n <= |calls|
    ensures forall s :: s in RosterAfter(calls, n).order ==> Evictable(s.id)
  {
    if n > 0 {
      RosterSeats(calls, n - 1);
      EnrolledSeats(RosterAfter(calls, n - 1), calls[n - 1].id, calls[n - 1].now);
    }
  }

  lemma EnrolledSeats(r: Roster, id: BucketId, now: real)
    requires forall s :: s in r.order ==> Evictable(s.id)
    ensures forall s :: s in Enrolled(r, id, now).order ==> Evictable(s.id)
  {
    SeatedIn(Unseated(r.order, id), Seat(id, now));
    SeatedIn(Roomy(r), Seat(id, now));
    assert forall s :: s in Roomy(r) ==> s in r.order;
  }

  lemma {:induction false} RosterClosed(calls: seq<Call>, n: nat)
    requires n <= |calls| && NoTies(calls)
    ensures Closed(calls, n, RosterAfter(calls, n), Recency(calls, n), Places(calls, n))
  {
    if n == 0 {
      NobodyClosed(calls);
    } else {
      RosterClosed(calls, n - 1);
      RosterKeys(calls, n - 1);
      RosterStep(calls, n - 1, RosterAfter(calls, n - 1));
    }
  }

  lemma NobodyClosed(calls: seq<Call>)
    ensures Closed(calls, 0, RosterAfter(calls, 0), Recency(calls, 0), Places(calls, 0))
  {
    assert Ids([]) == [];
  }

  lemma PlacesNext(calls: seq<Call>, n: nat, keys: nat)
    requires n < |calls| && keys == |KeysCalled(calls, n)|
    ensures Evictable(calls[n].id) ==> Places(calls, n + 1) == if keys < MAX_TRACKED_KEYS then Places(calls, n) else 1
    ensures calls[n].id in KeysCalled(calls, n) && !Evictable(calls[n].id) ==> Places(calls, n + 1) == Places(calls, n)
    ensures calls[n].id !in KeysCalled(calls, n) && !Evictable(calls[n].id) ==>
      Places(calls, n + 1) == if keys + 1 < MAX_TRACKED_KEYS then MAX_TRACKED_KEYS - (keys + 1) else 0
  {
    if calls[n].id in KeysCalled(calls, n) {
      assert KeysCalled(calls, n) + {calls[n].id} == KeysCalled(calls, n);
    }
  }

  lemma RosterStep(calls: seq<Call>, n: nat, r: Roster)
    requires n < |calls| && NoTies(calls) && r == RosterAfter(calls, n) && r.keys == KeysCalled(calls, n)
    requires Closed(calls, n, r, Recency(calls, n), Places(calls, n))
    ensures Closed(calls, n + 1, RosterAfter(calls, n + 1), Recency(calls, n + 1), Places(calls, n + 1))
  {
    PlacesNext(calls, n, |r.keys|);
    ClosedStep(calls, n, r, Recency(calls, n), Places(calls, n), Places(calls, n + 1));
  }

  lemma ClosedStep(calls: seq<Call>, n: nat, r: Roster, all: seq<BucketId>, places: nat, places': nat)
    requires n < |calls| && NoTies(calls) && Closed(calls, n, r, all, places)
    requires Evictable(calls[n].id) ==> places' == if |r.keys| < MAX_TRACKED_KEYS then places else 1
    requires calls[n].id in r.keys ==> places' == places
    requires calls[n].id !in r.keys && !Evictable(calls[n].id) ==>
      places' == if |r.keys| + 1 < MAX_TRACKED_KEYS then MAX_TRACKED_KEYS - (|r.keys| + 1) else 0
    ensures Closed(calls, n + 1, Enrolled(r, calls[n].id, calls[n].now),
                   if Evictable(calls[n].id) then Recalled(all, calls[n].id) else all, places')
  {
    var id := calls[n].id;
    if Evictable(id) {
      if SeatOf(r.order, id) {
        SeatOfIds(r.order, id);
        ClosedSeen(calls, n, r, all, places);
      } else {
        ClosedNew(calls, n, r, all, places);
      }
    } else if id in r.keys {
      ClosedLater(calls, n, r, all, places);
    } else {
      ClosedKey(calls, n, r, all, places);
    }
  }

  /**
   Unless two address buckets are called at the very same time, an address bucket is in
   the table exactly when it is among the most recently called ones there are places for.
   */
  lemma HoldsMostRecent(window: int, calls: seq<Call>, ms: seq<Buckets>, ds: seq<Decision>, n: nat, id: BucketId)
    requires Serves(window, calls, ms, ds) && n <= |calls| && NoTies(calls)
    ensures id in ms[n] <==>
      if Evictable(id) then id in Newest(Recency(calls, n), Places(calls, n)) else id in KeysCalled(calls, n)
  {
    var r := RosterAfter(calls, n);
    TableIsRoster(window, calls, ms, ds, n);
    ListedIsIn(r, ms[n], id);
    RosterKeys(calls, n);
    RosterClosed(calls, n);
    SeatOfIds(r.order, id);
    if !Evictable(id) {
      NotSeated(r.order, id);
    }
  }
}
