/** runs/demo-ambiguous-resumed/workspace/app/ratelimit.py: a fixed-window limiter. */
module FixedWindow {
  import opened Prelude
  import opened SlidingWindow

  // One counter per key and aligned window, saturating just above the limit, with a
  // sweep of elapsed windows. Times are reals; calls are sequential.

  // Keys are opaque strings, compared only for equality.
  type Key = nat

  datatype Counter = Counter(start: int, count: int)

  datatype State = State(buckets: map<Key, Counter>, lastSweep: real)

  datatype Verdict = Verdict(allowed: bool, retryAfter: int, remaining: int)

  const MAX_COUNTERS: nat := 100000

  /** The start of the aligned window a moment falls in. */
  function WindowStart(window: int, moment: real): int
    requires window >= 1
  {
    (moment / window as real).Floor * window
  }

  function Swept(s: State, window: int, start: int, moment: real): State {
    if moment - s.lastSweep < window as real && |s.buckets| < MAX_COUNTERS then s
    else State(map k | k in s.buckets && s.buckets[k].start == start :: s.buckets[k], moment)
  }

  /** The requests counted for a key in the window that starts at `start`. */
  function Counted(s: State, key: Key, start: int): int {
    if key in s.buckets && s.buckets[key].start == start then s.buckets[key].count else 0
  }

  function Checked(s: State, window: int, key: Key, limit: int, moment: real): (State, Verdict)
    requires window >= 1
  {
    var start := WindowStart(window, moment);
    var retryAfter := Max(1, Ceil((start + window) as real - moment));
    var swept := Swept(s, window, start, moment);
    var count := Counted(swept, key, start) + 1;
    if count > Max(0, limit) then
      (swept.(buckets := swept.buckets[key := Counter(start, Max(0, limit) + 1)]), Verdict(false, retryAfter, 0))
    else
      (swept.(buckets := swept.buckets[key := Counter(start, count)]),
       Verdict(true, retryAfter, Max(0, Max(0, limit) - count)))
  }

  class FixedWindowRateLimiter {
    const window: int
    var buckets: map<Key, Counter>
    var lastSweep: real

    constructor (windowSeconds: int)
      ensures window == Max(1, windowSeconds) && Contents() == State(map[], 0.0)
    {
      window := Max(1, windowSeconds);
      buckets, lastSweep := map[], 0.0;
    }

    function Contents(): State
      reads this
    {
      State(buckets, lastSweep)
    }

    method Reset()
      modifies this
      ensures Contents() == State(map[], 0.0)
    {
      buckets, lastSweep := map[], 0.0;
    }

    /** _sweep_locked */
    method Sweep(start: int, moment: real)
      modifies this
      ensures Contents() == Swept(old(Contents()), window, start, moment)
    {
      if moment - lastSweep < window as real && |buckets| < MAX_COUNTERS {
        return;
      }
      lastSweep := moment;
      ghost var before := buckets;
      var stale := set k | k in buckets && buckets[k].start != start;
      while stale != {}
        invariant lastSweep == moment
        invariant stale <= before.Keys
        invariant forall k :: k in buckets <==> k in before && (before[k].start == start || k in stale)
        invariant forall k :: k in buckets ==> buckets[k] == before[k]
        invariant forall k :: k in stale ==> before[k].start != start
        decreases stale
      {
        var k :| k in stale;
        stale := stale - {k};
        buckets := buckets - {k};
      }
    }

    method Check(key: Key, limit: int, moment: real) returns (v: Verdict)
      requires window >= 1
      modifies this
      ensures (Contents(), v) == Checked(old(Contents()), window, key, limit, moment)
    {
      var start := WindowStart(window, moment);
      var retryAfter := Max(1, Ceil((start + window) as real - moment));
      var effective := Max(0, limit);
      Sweep(start, moment);
      var count := if key in buckets && buckets[key].start == start then buckets[key].count + 1 else 1;
      if count > effective {
        buckets := buckets[key := Counter(start, effective + 1)];
        return Verdict(false, retryAfter, 0);
      }
      buckets := buckets[key := Counter(start, count)];
      v := Verdict(true, retryAfter, Max(0, effective - count));
    }
  }

  // ---- Aligned windows ----------------------------------------------------------------------

  lemma Scaled(window: int, q: real)
    requires window >= 1
    ensures (q.Floor * window) as real <= q * window as real < (q.Floor * window + window) as real
  {
    var w, f := window as real, q.Floor as real;
    ScaleReal(f, q, w);
    ScaleReal(q, f + 1.0, w);
    OneMore(f, w);
    CastProduct(q.Floor, window);
    assert (q.Floor * window + window) as real == (q.Floor * window) as real + w;
  }

  lemma OneMore(f: real, w: real)
    ensures (f + 1.0) * w == f * w + w
  {
  }

  lemma CastProduct(a: int, b: int)
    ensures (a * b) as real == a as real * b as real
  {
  }

  lemma ScaleReal(a: real, b: real, w: real)
    requires w > 0.0
    ensures a <= b ==> a * w <= b * w
    ensures a < b ==> a * w < b * w
  {
    assert (b - a) * w == b * w - a * w;
  }

  lemma StartBounds(window: int, moment: real)
    requires window >= 1
    ensures WindowStart(window, moment) as real <= moment < (WindowStart(window, moment) + window) as real
  {
    var q := moment / window as real;
    Scaled(window, q);
    TimesBack(moment, window as real);
  }

  lemma TimesBack(x: real, w: real)
    requires w > 0.0
    ensures x / w * w == x
  {
  }

  /** Two multiples of the window whose windows overlap are the same. */
  lemma StartUnique(window: int, i: int, moment: real)
    requires window >= 1 && (i * window) as real <= moment < (i * window + window) as real
    ensures WindowStart(window, moment) == i * window
  {
    StartBounds(window, moment);
    var j := (moment / window as real).Floor;
    if j * window < i * window {
      MultipleGap(window, j, i);
    } else if i * window < j * window {
      MultipleGap(window, i, j);
    }
  }

  /** Later moments fall in later windows, and within one window length in the same or the next one. */
  lemma StartOrder(window: int, a: real, b: real)
    requires window >= 1 && a <= b
    ensures var s := WindowStart(window, a);
      && s <= WindowStart(window, b)
      && (WindowStart(window, b) == s <==> b < (s + window) as real)
      && (b <= a + window as real ==> WindowStart(window, b) in {s, s + window})
  {
    var i := (a / window as real).Floor;
    var s := WindowStart(window, a);
    StartBounds(window, a);
    StartBounds(window, b);
    if b < (s + window) as real {
      StartUnique(window, i, b);
    } else {
      var j := (b / window as real).Floor;
      if j * window < s {
        MultipleGap(window, j, i);
      }
      if b <= a + window as real {
        assert (i + 1) * window == s + window;
        StartUnique(window, i + 1, b);
      }
    }
  }

  lemma MultipleGap(window: int, j: int, i: int)
    requires window >= 1 && j * window < i * window
    ensures j * window + window <= i * window
  {
    MulOrder(i, j, window);
    MulOrder(j + 1, i, window);
    assert (j + 1) * window == j * window + window;
  }

  lemma MulOrder(a: int, b: int, w: int)
    requires w >= 1
    ensures a <= b ==> a * w <= b * w
  {
    assert (b - a) * w == b * w - a * w;
  }

  // ---- Sequences of calls --------------------------------------------------------------------

  datatype Check = Check(key: Key, limit: int, moment: real)

  ghost predicate ServesCheck(window: int, calls: seq<Check>, ss: seq<State>, vs: seq<Verdict>, i: nat)
    requires window >= 1 && i < |calls| == |vs| && |ss| == |calls| + 1
  {
    (ss[i + 1], vs[i]) == Checked(ss[i], window, calls[i].key, calls[i].limit, calls[i].moment)
  }

  /** The states and verdicts of a limiter over calls with a clock that never goes back and one limit per key. */
  ghost predicate ServesChecks(window: int, calls: seq<Check>, ss: seq<State>, vs: seq<Verdict>) {
    && window >= 1 && |ss| == |calls| + 1 && |vs| == |calls|
    && ss[0] == State(map[], 0.0)
    && (forall i :: 0 <= i < |calls| ==> ServesCheck(window, calls, ss, vs, i))
    && (forall i, j :: 0 <= i < j < |calls| ==> calls[i].moment <= calls[j].moment)
    && (forall i, j :: 0 <= i < |calls| && 0 <= j < |calls| && calls[i].key == calls[j].key ==> calls[i].limit == calls[j].limit)
  }

  predicate IsFor(window: int, c: Check, key: Key, start: int)
    requires window >= 1
  {
    c.key == key && WindowStart(window, c.moment) == start
  }

  /** The full history: how many of the first n requests were for this key in this window. */
  function Requests(window: int, calls: seq<Check>, n: nat, key: Key, start: int): nat
    requires window >= 1 && n <= |calls|
  {
    if n == 0 then 0
    else Requests(window, calls, n - 1, key, start) + if IsFor(window, calls[n - 1], key, start) then 1 else 0
  }

  /** ... and how many of those were allowed. */
  function Allowed(window: int, calls: seq<Check>, vs: seq<Verdict>, n: nat, key: Key, start: int): nat
    requires window >= 1 && n <= |calls| == |vs|
  {
    if n == 0 then 0
    else Allowed(window, calls, vs, n - 1, key, start) +
         if IsFor(window, calls[n - 1], key, start) && vs[n - 1].allowed then 1 else 0
  }

  lemma {:induction false} NoneBefore(window: int, calls: seq<Check>, n: nat, key: Key, start: int)
    requires window >= 1 && n <= |calls|
    requires forall m :: 0 <= m < n ==> WindowStart(window, calls[m].moment) < start
    ensures Requests(window, calls, n, key, start) == 0
  {
    if n > 0 {
      NoneBefore(window, calls, n - 1, key, start);
      assert WindowStart(window, calls[n - 1].moment) < start;
    }
  }

  lemma {:induction false} NothingAhead(window: int, calls: seq<Check>, ss: seq<State>, vs: seq<Verdict>,
                                        n: nat, key: Key, start: int)
    requires ServesChecks(window, calls, ss, vs) && n <= |calls|
    requires forall i :: 0 <= i < n ==> WindowStart(window, calls[i].moment) < start
    ensures Counted(ss[n], key, start) == 0
  {
    if n > 0 {
      NothingAhead(window, calls, ss, vs, n - 1, key, start);
      assert ServesCheck(window, calls, ss, vs, n - 1);
      assert WindowStart(window, calls[n - 1].moment) < start;
    }
  }

  /** The saturating count agrees with the full history up to one above the limit, sweeps or not. */
  lemma {:induction false} CountsHistory(window: int, calls: seq<Check>, ss: seq<State>, vs: seq<Verdict>,
                                         n: nat, c: Check)
    requires ServesChecks(window, calls, ss, vs) && n <= |calls|
    requires forall i :: 0 <= i < n ==> calls[i].moment <= c.moment && (calls[i].key == c.key ==> calls[i].limit == c.limit)
    ensures var start := WindowStart(window, c.moment);
      Counted(ss[n], c.key, start) == Min(Requests(window, calls, n, c.key, start), Max(0, c.limit) + 1)
  {
    var start := WindowStart(window, c.moment);
    if n > 0 {
      var last := calls[n - 1];
      assert ServesCheck(window, calls, ss, vs, n - 1);
      StartOrder(window, last.moment, c.moment);
      if WindowStart(window, last.moment) < start {
        EarlierWindows(window, calls, n, start);
        NoneBefore(window, calls, n, c.key, start);
        NothingAhead(window, calls, ss, vs, n, c.key, start);
      } else {
        CountsHistory(window, calls, ss, vs, n - 1, c);
      }
    }
  }

  lemma EarlierWindows(window: int, calls: seq<Check>, n: nat, start: int)
    requires window >= 1 && 0 < n <= |calls| && WindowStart(window, calls[n - 1].moment) < start
    requires forall i, j :: 0 <= i < j < |calls| ==> calls[i].moment <= calls[j].moment
    ensures forall i :: 0 <= i < n ==> WindowStart(window, calls[i].moment) < start
  {
    forall i | 0 <= i < n
      ensures WindowStart(window, calls[i].moment) < start
    {
      assert i == n - 1 || calls[i].moment <= calls[n - 1].moment;
      StartOrder(window, calls[i].moment, calls[n - 1].moment);
    }
  }

  /**
   Refinement: a request is allowed exactly when fewer than `limit` earlier requests
   for its key fell in the same aligned window, and `remaining` says how many more will be.
   */
  lemma AllowsExactly(window: int, calls: seq<Check>, ss: seq<State>, vs: seq<Verdict>, n: nat)
    requires ServesChecks(window, calls, ss, vs) && n < |calls|
    ensures var c := calls[n];
      var earlier := Requests(window, calls, n, c.key, WindowStart(window, c.moment));
      && (vs[n].allowed <==> earlier < Max(0, c.limit))
      && vs[n].remaining == Max(0, Max(0, c.limit) - (earlier + 1))
  {
    assert ServesCheck(window, calls, ss, vs, n);
    CountsHistory(window, calls, ss, vs, n, calls[n]);
  }

  /** In each window a key gets its first `limit` requests allowed and no more. */
  lemma {:induction false} FirstAllowed(window: int, calls: seq<Check>, ss: seq<State>, vs: seq<Verdict>,
                                        n: nat, key: Key, limit: int, start: int)
    requires ServesChecks(window, calls, ss, vs) && n <= |calls|
    requires forall i :: 0 <= i < n && calls[i].key == key ==> calls[i].limit == limit
    ensures Allowed(window, calls, vs, n, key, start) == Min(Requests(window, calls, n, key, start), Max(0, limit))
  {
    if n > 0 {
      FirstAllowed(window, calls, ss, vs, n - 1, key, limit, start);
      AllowsExactly(window, calls, ss, vs, n - 1);
    }
  }

  /** How many of the first n requests for this key were allowed at a moment in the closed interval. */
  function AllowedWithin(calls: seq<Check>, vs: seq<Verdict>, n: nat, key: Key, from: real, to: real): nat
    requires n <= |calls| == |vs|
  {
    if n == 0 then 0
    else AllowedWithin(calls, vs, n - 1, key, from, to) +
         if calls[n - 1].key == key && vs[n - 1].allowed && from <= calls[n - 1].moment <= to then 1 else 0
  }

  lemma {:induction false} TwoWindowsCover(window: int, calls: seq<Check>, vs: seq<Verdict>, n: nat, key: Key, from: real, to: real)
    requires window >= 1 && n <= |calls| == |vs| && to <= from + window as real
    ensures var s := WindowStart(window, from);
      AllowedWithin(calls, vs, n, key, from, to)
        <= Allowed(window, calls, vs, n, key, s) + Allowed(window, calls, vs, n, key, s + window)
  {
    if n > 0 {
      TwoWindowsCover(window, calls, vs, n - 1, key, from, to);
      if from <= calls[n - 1].moment <= to {
        StartOrder(window, from, calls[n - 1].moment);
      }
    }
  }

  /** Any closed interval one window long holds at most twice the limit. */
  lemma AtMostDouble(window: int, calls: seq<Check>, ss: seq<State>, vs: seq<Verdict>,
                     n: nat, key: Key, limit: int, from: real, to: real)
    requires ServesChecks(window, calls, ss, vs) && n <= |calls| && to <= from + window as real
    requires forall i :: 0 <= i < n && calls[i].key == key ==> calls[i].limit == limit
    ensures AllowedWithin(calls, vs, n, key, from, to) <= 2 * Max(0, limit)
  {
    var s := WindowStart(window, from);
    TwoWindowsCover(window, calls, vs, n, key, from, to);
    FirstAllowed(window, calls, ss, vs, n, key, limit, s);
    FirstAllowed(window, calls, ss, vs, n, key, limit, s + window);
  }

  // ---- Retry-After ------------------------------------------------------------------------------

  lemma {:induction false} RequestsGrow(window: int, calls: seq<Check>, i: nat, j: nat, key: Key, start: int)
    requires window >= 1 && i <= j <= |calls|
    ensures Requests(window, calls, i, key, start) <= Requests(window, calls, j, key, start)
    decreases j
  {
    if i < j {
      RequestsGrow(window, calls, i, j - 1, key, start);
    }
  }

  lemma {:induction false} NoneBetween(window: int, calls: seq<Check>, i: nat, j: nat, key: Key, start: int)
    requires window >= 1 && i < j <= |calls|
    requires forall m :: 0 <= m <= i ==> WindowStart(window, calls[m].moment) < start
    requires forall m :: i < m < j ==> calls[m].key != key
    ensures Requests(window, calls, j, key, start) == 0
    decreases j
  {
    if i < j - 1 {
      NoneBetween(window, calls, i, j - 1, key, start);
    } else {
      NoneBefore(window, calls, i + 1, key, start);
    }
  }

  /**
   On a denial Retry-After is the least whole number of seconds after which the same
   request is allowed, whatever other keys do in the meantime.
   */
  lemma RetryAfterExact(window: int, calls: seq<Check>, ss: seq<State>, vs: seq<Verdict>, i: nat, j: nat, k: nat)
    requires ServesChecks(window, calls, ss, vs) && i < j < |calls|
    requires !vs[i].allowed && calls[i].limit >= 1
    requires calls[j].key == calls[i].key && calls[j].moment == calls[i].moment + k as real
    requires forall m :: i < m < j ==> calls[m].key != calls[i].key
    ensures 1 <= vs[i].retryAfter <= window
    ensures vs[j].allowed <==> k >= vs[i].retryAfter
  {
    var key, start, later := calls[i].key, WindowStart(window, calls[i].moment), WindowStart(window, calls[j].moment);
    assert ServesCheck(window, calls, ss, vs, i);
    StartBounds(window, calls[i].moment);
    StartOrder(window, calls[i].moment, calls[j].moment);
    AllowsExactly(window, calls, ss, vs, i);
    AllowsExactly(window, calls, ss, vs, j);
    if later == start {
      RequestsGrow(window, calls, i, j, key, start);
    } else {
      EarlierWindows(window, calls, i + 1, later);
      NoneBetween(window, calls, i, j, key, later);
    }
  }

  /** A key whose limit is zero or less is never allowed, however long it waits. */
  lemma ClosedKey(window: int, calls: seq<Check>, ss: seq<State>, vs: seq<Verdict>, n: nat)
    requires ServesChecks(window, calls, ss, vs) && n < |calls| && calls[n].limit <= 0
    ensures !vs[n].allowed
  {
    AllowsExactly(window, calls, ss, vs, n);
  }

  /** On every answer Retry-After is the least whole number of seconds after which the next window has begun. */
  lemma AdviceIsNextWindow(window: int, calls: seq<Check>, ss: seq<State>, vs: seq<Verdict>, n: nat, k: nat)
    requires ServesChecks(window, calls, ss, vs) && n < |calls|
    ensures 1 <= vs[n].retryAfter <= window
    ensures var m := calls[n].moment;
      WindowStart(window, m + k as real) > WindowStart(window, m) <==> k >= vs[n].retryAfter
  {
    var m := calls[n].moment;
    assert ServesCheck(window, calls, ss, vs, n);
    StartBounds(window, m);
    StartOrder(window, m, m + k as real);
  }

  // ---- Memory ---------------------------------------------------------------------------------

  /** Every counter is of a window that had not ended at the last sweep, and the last sweep is less than a window ago. */
  ghost predicate Recent(window: int, s: State, now: real) {
    && s.lastSweep <= now < s.lastSweep + window as real
    && forall k :: k in s.buckets ==> s.lastSweep < (s.buckets[k].start + window) as real
  }

  lemma CheckRecent(window: int, s: State, key: Key, limit: int, moment: real)
    requires window >= 1 && s.lastSweep <= moment
    requires forall k :: k in s.buckets ==> s.lastSweep < (s.buckets[k].start + window) as real
    ensures Recent(window, Checked(s, window, key, limit, moment).0, moment)
  {
    StartBounds(window, moment);
  }

  lemma {:induction false} StaysRecent(window: int, calls: seq<Check>, ss: seq<State>, vs: seq<Verdict>, n: nat)
    requires ServesChecks(window, calls, ss, vs) && 0 < n <= |calls| && calls[0].moment >= 0.0
    ensures Recent(window, ss[n], calls[n - 1].moment)
  {
    assert ServesCheck(window, calls, ss, vs, n - 1);
    var c := calls[n - 1];
    if n > 1 {
      StaysRecent(window, calls, ss, vs, n - 1);
      assert calls[n - 2].moment <= c.moment;
    }
    CheckRecent(window, ss[n - 1], c.key, c.limit, c.moment);
  }

  /** No counter is kept for two windows after the one it counts began, whatever calls come. */
  lemma NothingOutlives(window: int, calls: seq<Check>, ss: seq<State>, vs: seq<Verdict>, n: nat, key: Key)
    requires ServesChecks(window, calls, ss, vs) && 0 < n <= |calls| && calls[0].moment >= 0.0
    requires key in ss[n].buckets
    ensures calls[n - 1].moment < (ss[n].buckets[key].start + 2 * window) as real
  {
    StaysRecent(window, calls, ss, vs, n);
  }
}
