/** What the metrics mean, in events and results. */
module Figures {
  import opened Prelude
  import opened Metrics

  // ---- Recoveries --------------------------------------------------------------------

  predicate Fails(e: Event) {
    e.kind == Retry || e.kind == NodeFinished(Some(FAILED)) || e.kind == NodeFinished(Some(REJECTED))
  }

  predicate Recovers(e: Event) {
    e.kind == NodeFinished(Some(COMPLETED))
  }

  lemma MarkMeans(e: Event)
    ensures e.Mark().Failure? <==> Fails(e)
    ensures e.Mark().Success? <==> Recovers(e)
  {
  }

  /** Event i of a node is the first failure after its last success before j, and j is the next success. */
  ghost predicate Outage(own: seq<Event>, i: int, j: int) {
    && 0 <= i < j < |own| && Fails(own[i]) && Recovers(own[j])
    && (forall k :: i < k < j ==> !Recovers(own[k]))
    && (forall k :: 0 <= k < i && Fails(own[k]) ==> exists m :: k < m < i && Recovers(own[m]))
  }

  ghost predicate IsOutage(own: seq<Event>, iv: Interval) {
    exists i, j :: Outage(own, i, j) && iv.failedAt == own[i].at && iv.recoveredAt == own[j].at
  }

  lemma StartsMeans(own: seq<Event>, i: int, j: nat)
    requires j < |own| && Recovers(own[j])
    ensures StartsOutage(own[..j], i) <==> Outage(own, i, j)
  {
    forall k | 0 <= k < |own|
      ensures own[k].Mark().Failure? <==> Fails(own[k])
      ensures own[k].Mark().Success? <==> Recovers(own[k])
    {
      MarkMeans(own[k]);
    }
  }

  lemma EndsMeans(own: seq<Event>, iv: Interval)
    ensures (exists j :: EndsAt(own, j, iv)) <==> IsOutage(own, iv)
  {
    if j :| EndsAt(own, j, iv) {
      MarkMeans(own[j]);
      var i :| StartsOutage(own[..j], i) && iv.failedAt == own[i].at;
      StartsMeans(own, i, j);
    }
    if i, j :| Outage(own, i, j) && iv.failedAt == own[i].at && iv.recoveredAt == own[j].at {
      MarkMeans(own[j]);
      StartsMeans(own, i, j);
      assert EndsAt(own, j, iv);
    }
  }

  lemma {:induction false} OwnHas(ivs: seq<Interval>, iv: Interval)
    ensures iv in ivs <==> iv in OwnIntervals(ivs, iv.node)
  {
    if ivs != [] {
      OwnHas(ivs[..|ivs| - 1], iv);
      assert ivs == ivs[..|ivs| - 1] + [ivs[|ivs| - 1]];
    }
  }

  /**
   Whatever order the events are read in, the recoveries are exactly: for a node, from the
   first retry, failure or rejection since its last completion to its next completion.
   */
  lemma RecoveriesAre(events: seq<Event>, iv: Interval)
    ensures iv in Paired(Ordered(events)) <==> IsOutage(Ordered(OwnEvents(events, iv.node)), iv)
  {
    OwnHas(Paired(Ordered(events)), iv);
    PairingPerNode(events, iv.node);
    SpanIsRecovery(Ordered(OwnEvents(events, iv.node)), iv.node, iv);
    EndsMeans(Ordered(OwnEvents(events, iv.node)), iv);
  }

  // ---- The order of the log ------------------------------------------------------------

  /** The entries with this number and time, in their order. */
  function Alike(evs: seq<Event>, n: int, at: real): seq<Event> {
    if evs == [] then []
    else
      var before, last := Alike(evs[..|evs| - 1], n, at), evs[|evs| - 1];
      if last.seqNo == n && last.at == at then before + [last] else before
  }

  lemma AlikeNext(evs: seq<Event>, e: Event, n: int, at: real)
    ensures Alike(evs + [e], n, at) == if e.seqNo == n && e.at == at then Alike(evs, n, at) + [e] else Alike(evs, n, at)
  {
    assert (evs + [e])[..|evs|] == evs;
  }

  lemma {:induction false} NoneAlike(evs: seq<Event>, n: int, at: real)
    requires forall e :: e in evs ==> !(e.seqNo == n && e.at == at)
    ensures Alike(evs, n, at) == []
  {
    if evs != [] {
      NoneAlike(evs[..|evs| - 1], n, at);
      assert evs[|evs| - 1] in evs;
    }
  }

  lemma {:induction false} InsertStable(evs: seq<Event>, e: Event, n: int, at: real)
    ensures Alike(Insert(evs, e), n, at) == Alike(evs + [e], n, at)
  {
    var k := |evs| - 1;
    if evs != [] && After(evs[k], e) {
      InsertStable(evs[..k], e, n, at);
      AlikeNext(Insert(evs[..k], e), evs[k], n, at);
      AlikeNext(evs, e, n, at);
      AlikeNext(evs[..k], e, n, at);
      AlikeNext(evs[..k], evs[k], n, at);
      assert evs == evs[..k] + [evs[k]];
    }
  }

  /** Sorting is stable: entries with the same number and time keep their order. */
  lemma {:induction false} OrderedStable(evs: seq<Event>, n: int, at: real)
    ensures Alike(Ordered(evs), n, at) == Alike(evs, n, at)
  {
    if evs != [] {
      var k := |evs| - 1;
      OrderedStable(evs[..k], n, at);
      InsertStable(Ordered(evs[..k]), evs[k], n, at);
      AlikeNext(Ordered(evs[..k]), evs[k], n, at);
    }
  }

  /** By number, and by time where numbers agree. */
  lemma OrderedByNumber(evs: seq<Event>, i: nat, j: nat)
    requires i < j < |Ordered(evs)|
    ensures var a, b := Ordered(evs)[i], Ordered(evs)[j]; a.seqNo < b.seqNo || (a.seqNo == b.seqNo && a.at <= b.at)
  {
    OrderedSorts(evs);
  }

  // ---- Totals ------------------------------------------------------------------------------

  function CompletedIn(results: seq<Metrics.Result>): nat {
    if results == [] then 0
    else CompletedIn(results[..|results| - 1]) + if results[|results| - 1].state == COMPLETED then 1 else 0
  }

  function FailedIn(results: seq<Metrics.Result>): nat {
    if results == [] then 0
    else FailedIn(results[..|results| - 1]) + if results[|results| - 1].state in {FAILED, REJECTED} then 1 else 0
  }

  function Attempts(results: seq<Metrics.Result>): int {
    if results == [] then 0 else Attempts(results[..|results| - 1]) + results[|results| - 1].attempts
  }

  lemma {:induction false} SumMeans(results: seq<Metrics.Result>)
    ensures var sum := Sum(results);
      && sum.nodes == |results|
      && sum.succeeded == CompletedIn(results) && sum.failed == FailedIn(results)
    ensures (forall r :: r in results ==> r.attempts >= 1) ==> Sum(results).retries == Attempts(results) - |results|
  {
    if results != [] {
      var k := |results| - 1;
      var before, r := results[..k], results[k];
      assert results == before + [r];
      SumMeans(before);
      assert r in results;
    }
  }

  lemma PlusAssoc(a: Totals, b: Totals, c: Totals)
    ensures Plus(Plus(a, b), c) == Plus(a, Plus(b, c)) && Plus(a, NOTHING) == a
  {
  }

  lemma {:induction false} SumSplit(a: seq<Metrics.Result>, b: seq<Metrics.Result>)
    ensures Sum(a + b) == Plus(Sum(a), Sum(b))
  {
    if b == [] {
      assert a + b == a;
      PlusAssoc(Sum(a), NOTHING, NOTHING);
    } else {
      var k := |b| - 1;
      assert (a + b)[..|a| + k] == a + b[..k];
      SumSplit(a, b[..k]);
      PlusAssoc(Sum(a), Sum(b[..k]), OneResult(b[k]));
    }
  }

  /**
   Totals add up over any split of the results, count each node once with its state and its
   attempts beyond the first, and hold a lone result's own time, cost and tokens.
   */
  lemma TotalsAre(a: seq<Metrics.Result>, b: seq<Metrics.Result>)
    ensures Sum(a + b) == Plus(Sum(a), Sum(b))
    ensures Sum(a).nodes == |a| && Sum(a).succeeded == CompletedIn(a) && Sum(a).failed == FailedIn(a)
    ensures (forall r :: r in a ==> r.attempts >= 1) ==> Sum(a).retries == Attempts(a) - |a|
    ensures |a| == 1 ==>
      && Sum(a).cost == a[0].cost && Sum(a).inputTokens == a[0].inputTokens && Sum(a).outputTokens == a[0].outputTokens
      && Sum(a).latency == if a[0].startedAt <= a[0].endedAt then a[0].endedAt - a[0].startedAt else 0.0
  {
    SumSplit(a, b);
    SumMeans(a);
    if |a| == 1 {
      assert a[..0] == [];
    }
  }

  lemma FilterOne<T(!new)>(x: T, p: T -> bool)
    ensures Filter([x], p) == if p(x) then [x] else []
  {
    assert [x][1..] == [];
  }

  /** The log's counts add up over any split of the log, and count exactly the run's own events of the kind. */
  lemma LogCounts(a: seq<Event>, b: seq<Event>, runId: nat, kind: Kind)
    ensures Count(OfRun(a + b, runId), kind) == Count(OfRun(a, runId), kind) + Count(OfRun(b, runId), kind)
    ensures OfRun(a + b, runId) == OfRun(a, runId) + OfRun(b, runId)
    ensures |a| == 1 ==> OfRun(a, runId) == if a[0].runId == runId then a else []
    ensures |a| == 1 ==> Count(OfRun(a, runId), kind) == if a[0].runId == runId && a[0].kind == kind then 1 else 0
  {
    FilterConcat(a, b, (e: Event) => e.runId == runId);
    FilterConcat(OfRun(a, runId), OfRun(b, runId), (e: Event) => e.kind == kind);
    if |a| == 1 {
      assert a == [a[0]];
      FilterOne(a[0], (e: Event) => e.runId == runId);
      FilterOne(a[0], (e: Event) => e.kind == kind);
    }
  }

  /** So do the results' counts of rollbacks and fallbacks. */
  lemma ResultCounts(a: seq<Metrics.Result>, b: seq<Metrics.Result>)
    ensures RolledBack(a + b) == RolledBack(a) + RolledBack(b) && FellBack(a + b) == FellBack(a) + FellBack(b)
    ensures |a| == 1 ==> RolledBack(a) == (if a[0].rolledBack then 1 else 0) && FellBack(a) == if a[0].usedFallback then 1 else 0
  {
    FilterConcat(a, b, (r: Metrics.Result) => r.rolledBack);
    FilterConcat(a, b, (r: Metrics.Result) => r.usedFallback);
    if |a| == 1 {
      assert a == [a[0]];
      FilterOne(a[0], (r: Metrics.Result) => r.rolledBack);
      FilterOne(a[0], (r: Metrics.Result) => r.usedFallback);
    }
  }

  // ---- The breakdown -------------------------------------------------------------------------

  /** The plan's kind decides; without one, the kind inferred from the id. */
  predicate Belongs(stages: Stages, node: NodeId, key: StageKey) {
    match key
    case Stage(kind) =>
      || (node in stages.planned && stages.planned[node] == kind)
      || (node !in stages.planned && node in stages.inferred && stages.inferred[node] == kind)
    case Unknown => node !in stages.planned && node !in stages.inferred
  }

  function Among(final: seq<Metrics.Result>, stages: Stages, key: StageKey): seq<Metrics.Result> {
    Filter(final, (r: Metrics.Result) => Belongs(stages, r.node, key))
  }

  function Rank(key: StageKey): nat {
    match key
    case Unknown => 7
    case Stage(kind) =>
      match kind
      case ANALYZE => 0
      case DESIGN_STAGE => 1
      case IMPLEMENT_STAGE => 2
      case TEST => 3
      case DOCUMENT_STAGE => 4
      case REVIEW_STAGE => 5
      case RELEASE_CHECK => 6
  }

  lemma BelongsIs(stages: Stages, node: NodeId, key: StageKey)
    ensures KeyOf(stages, node) == key <==> Belongs(stages, node, key)
  {
  }

  lemma {:induction false} InStageIs(final: seq<Metrics.Result>, stages: Stages, key: StageKey)
    ensures InStage(final, stages, key) == Among(final, stages, key)
  {
    if final != [] {
      var n := |final| - 1;
      InStageIs(final[..n], stages, key);
      BelongsIs(stages, final[n].node, key);
      FilterConcat(final[..n], [final[n]], (r: Metrics.Result) => Belongs(stages, r.node, key));
      assert final == final[..n] + [final[n]] && [final[n]][1..] == [];
    }
  }

  lemma {:induction false} RowsOf(final: seq<Metrics.Result>, stages: Stages, keys: seq<StageKey>, key: StageKey, t: Totals)
    ensures (key, t) in Rows(final, stages, keys) <==>
      key in keys && Among(final, stages, key) != [] && t == Sum(Among(final, stages, key))
  {
    if keys != [] {
      var n := |keys| - 1;
      RowsOf(final, stages, keys[..n], key, t);
      InStageIs(final, stages, keys[n]);
      assert keys == keys[..n] + [keys[n]];
    }
  }

  ghost predicate Ranked(rows: seq<(StageKey, Totals)>) {
    forall i, j :: 0 <= i < j < |rows| ==> Rank(rows[i].0) < Rank(rows[j].0)
  }

  lemma {:induction false} RowsRanked(final: seq<Metrics.Result>, stages: Stages, n: nat)
    requires n <= |STAGE_ORDER|
    ensures var rows := Rows(final, stages, STAGE_ORDER[..n]);
      Ranked(rows) && forall row :: row in rows ==> Rank(row.0) < n
  {
    if n > 0 {
      RowsRanked(final, stages, n - 1);
      assert STAGE_ORDER[..n][..n - 1] == STAGE_ORDER[..n - 1];
      RankAt(n - 1);
    }
  }

  lemma RankAt(i: nat)
    requires i < |STAGE_ORDER|
    ensures Rank(STAGE_ORDER[i]) == i
  {
  }

  /**
   The table has one row for each stage that has results, in the order of the life cycle
   with the unknown stage last, and each row is the sum of exactly the results whose node
   belongs to its stage.
   */
  lemma RowsAre(final: seq<Metrics.Result>, stages: Stages, key: StageKey, t: Totals)
    ensures var rows := Rows(final, stages, STAGE_ORDER);
      && Ranked(rows)
      && ((key, t) in rows <==> Among(final, stages, key) != [] && t == Sum(Among(final, stages, key)))
  {
    assert STAGE_ORDER[..|STAGE_ORDER|] == STAGE_ORDER;
    RowsRanked(final, stages, |STAGE_ORDER|);
    EveryKey(key);
    RowsOf(final, stages, STAGE_ORDER, key, t);
  }

  // ---- The order of the final results ----------------------------------------------------------

  /** Result i is the first of its node. */
  ghost predicate FirstHere(results: seq<Metrics.Result>, i: int, node: NodeId) {
    0 <= i < |results| && results[i].node == node && forall k :: 0 <= k < i ==> results[k].node != node
  }

  /** Nodes come in the order of their first results. */
  lemma {:induction false} SeenInOrder(results: seq<Metrics.Result>, a: nat, b: nat, i: nat, j: nat)
    requires a < b < |NodesSeen(results)|
    requires FirstHere(results, i, NodesSeen(results)[a]) && FirstHere(results, j, NodesSeen(results)[b])
    ensures i < j
  {
    var n := |results| - 1;
    NodesSeenExact(results[..n]);
    if b < |NodesSeen(results[..n])| {
      StillFirst(results, i, NodesSeen(results)[a]);
      StillFirst(results, j, NodesSeen(results)[b]);
      SeenInOrder(results[..n], a, b, i, j);
    } else {
      StillFirst(results, i, NodesSeen(results)[a]);
    }
  }

  lemma StillFirst(results: seq<Metrics.Result>, i: nat, node: NodeId)
    requires results != [] && FirstHere(results, i, node) && node in NodesSeen(results[..|results| - 1])
    ensures FirstHere(results[..|results| - 1], i, node)
  {
    var n := |results| - 1;
    NodesSeenExact(results[..n]);
    var k :| 0 <= k < n && results[..n][k].node == node;
    assert results[k].node == node;
  }

  // ---- Latency -----------------------------------------------------------------------------

  ghost predicate FirstOf(evs: seq<Event>, e: Event) {
    exists i :: 0 <= i < |evs| && evs[i] == e && forall k :: 0 <= k < i ==> evs[k].kind != e.kind
  }

  ghost predicate LastOfKind(evs: seq<Event>, e: Event) {
    exists i :: 0 <= i < |evs| && evs[i] == e && forall k :: i < k < |evs| ==> evs[k].kind != e.kind
  }

  predicate HasKind(evs: seq<Event>, kind: Kind) {
    exists e :: e in evs && e.kind == kind
  }

  lemma {:induction false} FirstAtExactly(evs: seq<Event>, kind: Kind)
    ensures FirstAt(evs, kind).Some? <==> HasKind(evs, kind)
    ensures FirstAt(evs, kind).Some? ==> exists e :: FirstOf(evs, e) && e.kind == kind && FirstAt(evs, kind).value == e.at
  {
    if evs != [] {
      FirstAtExactly(evs[1..], kind);
      assert evs == [evs[0]] + evs[1..];
      if evs[0].kind == kind {
        assert FirstOf(evs, evs[0]);
      } else if FirstAt(evs, kind).Some? {
        var e :| FirstOf(evs[1..], e) && e.kind == kind && FirstAt(evs[1..], kind).value == e.at;
        var i :| 0 <= i < |evs| - 1 && evs[1..][i] == e && forall k :: 0 <= k < i ==> evs[1..][k].kind != e.kind;
        assert evs[i + 1] == e;
        forall k | 0 <= k < i + 1
          ensures evs[k].kind != e.kind
        {
          assert k > 0 ==> evs[1..][k - 1] == evs[k];
        }
        assert FirstOf(evs, e);
      }
    }
  }

  lemma {:induction false} LastAtExactly(evs: seq<Event>, kind: Kind)
    ensures LastAt(evs, kind).Some? <==> HasKind(evs, kind)
    ensures LastAt(evs, kind).Some? ==> exists e :: LastOfKind(evs, e) && e.kind == kind && LastAt(evs, kind).value == e.at
  {
    if evs != [] {
      var n := |evs| - 1;
      LastAtExactly(evs[..n], kind);
      assert evs == evs[..n] + [evs[n]];
      if evs[n].kind == kind {
        assert LastOfKind(evs, evs[n]);
      } else if LastAt(evs, kind).Some? {
        var e :| LastOfKind(evs[..n], e) && e.kind == kind && LastAt(evs[..n], kind).value == e.at;
        var i :| 0 <= i < n && evs[..n][i] == e && forall k :: i < k < n ==> evs[..n][k].kind != e.kind;
        forall k | i < k < |evs|
          ensures evs[k].kind != e.kind
        {
          assert k < n ==> evs[..n][k] == evs[k];
        }
        assert evs[i] == e && LastOfKind(evs, e);
      }
    }
  }

  /** The time from a to b, and none if it would be negative. */
  predicate Between(span: real, a: real, b: real) {
    0.0 <= span && (a <= b ==> span == b - a) && (b < a ==> span == 0.0)
  }

  ghost predicate MarkersSpan(evs: seq<Event>, span: real) {
    exists s, f :: FirstOf(evs, s) && s.kind == RunStarted && LastOfKind(evs, f) && f.kind == RunFinished && Between(span, s.at, f.at)
  }

  ghost predicate ResultsSpan(timed: seq<Metrics.Result>, span: real) {
    exists a, b :: a in timed && b in timed && Between(span, a.startedAt, b.endedAt)
      && forall r :: r in timed ==> a.startedAt <= r.startedAt && r.endedAt <= b.endedAt
  }

  /**
   The latency is the time from the first start to the last finish in the log; without
   both, from the log's first entry to its last; without a log, from the earliest start
   to the latest end of the results that have times; and never negative.
   */
  lemma LatencyIs(events: seq<Event>, results: seq<Metrics.Result>)
    ensures var evs, span := Ordered(events), Latency(events, results);
      var timed := Filter(results, (r: Metrics.Result) => r.startedAt != 0.0 || r.endedAt != 0.0);
      if HasKind(events, RunStarted) && HasKind(events, RunFinished) then MarkersSpan(evs, span)
      else if events != [] then evs != [] && Between(span, evs[0].at, evs[|evs| - 1].at)
      else if timed != [] then ResultsSpan(timed, span)
      else span == 0.0
  {
    SameKinds(events, RunStarted);
    SameKinds(events, RunFinished);
    SameLength(events);
    TimedAre(results);
    MeasuredAs(events, results);
  }

  lemma MeasuredAs(events: seq<Event>, results: seq<Metrics.Result>)
    ensures var evs, span, timed := Ordered(events), Latency(events, results), Filter(results, r => Timed(r));
      if HasKind(evs, RunStarted) && HasKind(evs, RunFinished) then MarkersSpan(evs, span)
      else if evs != [] then Between(span, evs[0].at, evs[|evs| - 1].at)
      else if timed != [] then ResultsSpan(timed, span)
      else span == 0.0
  {
    var evs, timed := Ordered(events), Filter(results, r => Timed(r));
    FirstAtExactly(evs, RunStarted);
    LastAtExactly(evs, RunFinished);
    if HasKind(evs, RunStarted) && HasKind(evs, RunFinished) {
      MarkersMeasured(evs);
    } else if evs == [] && timed != [] {
      Widest(timed);
    }
  }

  lemma MarkersMeasured(evs: seq<Event>)
    requires HasKind(evs, RunStarted) && HasKind(evs, RunFinished)
    ensures FirstAt(evs, RunStarted).Some? && LastAt(evs, RunFinished).Some?
    ensures MarkersSpan(evs, NotNegative(LastAt(evs, RunFinished).value - FirstAt(evs, RunStarted).value))
  {
    FirstAtExactly(evs, RunStarted);
    LastAtExactly(evs, RunFinished);
    var s :| FirstOf(evs, s) && s.kind == RunStarted && FirstAt(evs, RunStarted).value == s.at;
    var f :| LastOfKind(evs, f) && f.kind == RunFinished && LastAt(evs, RunFinished).value == f.at;
    assert Between(NotNegative(f.at - s.at), s.at, f.at);
  }

  lemma SameKinds(events: seq<Event>, kind: Kind)
    ensures HasKind(Ordered(events), kind) <==> HasKind(events, kind)
  {
    if e :| e in events && e.kind == kind {
      OrderedKeeps(events, e);
    }
    if e :| e in Ordered(events) && e.kind == kind {
      OrderedKeeps(events, e);
    }
  }

  lemma SameLength(events: seq<Event>)
    ensures events == [] <==> Ordered(events) == []
  {
    if events != [] {
      OrderedKeeps(events, events[0]);
    }
  }

  lemma TimedAre(results: seq<Metrics.Result>)
    ensures Filter(results, r => Timed(r)) == Filter(results, (r: Metrics.Result) => r.startedAt != 0.0 || r.endedAt != 0.0)
  {
    FilterSame(results, r => Timed(r), (r: Metrics.Result) => r.startedAt != 0.0 || r.endedAt != 0.0);
  }

  lemma Widest(timed: seq<Metrics.Result>)
    requires timed != []
    ensures ResultsSpan(timed, NotNegative(LatestEnd(timed) - EarliestStart(timed)))
  {
    var earliest, latest := EarliestStart(timed), LatestEnd(timed);
    var a :| a in timed && a.startedAt == earliest;
    var b :| b in timed && b.endedAt == latest;
    assert Between(NotNegative(b.endedAt - a.startedAt), a.startedAt, b.endedAt);
  }
}
