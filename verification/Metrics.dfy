/**
 keel/governance/metrics.py: recovery times, totals, the breakdown by stage and latency.

 Events are put into log order first. One pass pairs failures with recoveries; results
 of a node that ran again are superseded by its last one. Times and costs are reals.
 */
module Metrics {
  import opened Prelude
  import Digraph
  import Planner

  type NodeId = Digraph.NodeId
  type StageKind = Planner.StageKind

  // ---- Events ---------------------------------------------------------------------------

  datatype TaskState = SUBMITTED | WORKING | COMPLETED | FAILED | CANCELED | INPUT_REQUIRED | REJECTED | AUTH_REQUIRED

  // The event types that are counted or looked for; a finished node's state as read from its payload, if it could be.
  datatype Kind =
    | RunStarted | RunFinished
    | NodeFinished(state: Option<TaskState>)
    | Retry | Rollback | Fallback | ApprovalRequested | PlanRevised
    | Unrelated

  // What the pairing of failures with recoveries sees.
  datatype Marker = Failure | Success | Neither

  datatype Event = Event(runId: nat, seqNo: int, at: real, node: Option<NodeId>, kind: Kind) {
    function Mark(): Marker {
      match kind
      case Retry => Failure
      case NodeFinished(Some(FAILED)) => Failure
      case NodeFinished(Some(REJECTED)) => Failure
      case NodeFinished(Some(COMPLETED)) => Success
      case _ => Neither
    }
  }

  function NotNegative(x: real): real {
    if x > 0.0 then x else 0.0
  }

  datatype Interval = Interval(node: NodeId, failedAt: real, recoveredAt: real) {
    function Seconds(): real {
      NotNegative(recoveredAt - failedAt)
    }
  }

  /** The order of log entries: by number, then by time. */
  predicate After(a: Event, b: Event) {
    a.seqNo > b.seqNo || (a.seqNo == b.seqNo && a.at > b.at)
  }

  function Insert(evs: seq<Event>, e: Event): seq<Event> {
    var n := |evs| - 1;
    if evs == [] || !After(evs[n], e) then evs + [e] else Insert(evs[..n], e) + [evs[n]]
  }

  /** The stable sort into log order. */
  function Ordered(evs: seq<Event>): seq<Event> {
    if evs == [] then [] else Insert(Ordered(evs[..|evs| - 1]), evs[|evs| - 1])
  }

  ghost predicate InLogOrder(evs: seq<Event>) {
    forall i, j :: 0 <= i < j < |evs| ==> !After(evs[i], evs[j])
  }

  /** The events of one node, in their order. */
  function OwnEvents(evs: seq<Event>, node: NodeId): seq<Event> {
    if evs == [] then []
    else
      var n := |evs| - 1;
      OwnEvents(evs[..n], node) + if evs[n].node == Some(node) then [evs[n]] else []
  }

  function OwnIntervals(ivs: seq<Interval>, node: NodeId): seq<Interval> {
    if ivs == [] then []
    else
      var n := |ivs| - 1;
      OwnIntervals(ivs[..n], node) + if ivs[n].node == node then [ivs[n]] else []
  }

  // ---- Outages of one node ----------------------------------------------------------------

  /** In a node's own events, failure i started the outage that still lasts after all of them. */
  ghost predicate StartsOutage(own: seq<Event>, i: int) {
    && 0 <= i < |own| && own[i].Mark().Failure?
    && (forall k :: i < k < |own| ==> !own[k].Mark().Success?)
    && (forall k :: 0 <= k < i && own[k].Mark().Failure? ==> exists m :: k < m < i && own[m].Mark().Success?)
  }

  /** No outage lasts after these events. */
  ghost predicate IsUp(own: seq<Event>) {
    forall i :: !StartsOutage(own, i)
  }

  /** When the outage that lasts after these events began. */
  function DownSince(own: seq<Event>): Option<real> {
    if own == [] then None
    else
      var n := |own| - 1;
      match own[n].Mark()
      case Success => None
      case Neither => DownSince(own[..n])
      case Failure => if DownSince(own[..n]).Some? then DownSince(own[..n]) else Some(own[n].at)
  }

  lemma {:induction false} DownSinceExact(own: seq<Event>)
    ensures DownSince(own).None? ==> IsUp(own)
    ensures DownSince(own).Some? ==> exists i :: StartsOutage(own, i) && own[i].at == DownSince(own).value
  {
    if own != [] {
      var n := |own| - 1;
      var before := own[..n];
      DownSinceExact(before);
      if own[n].Mark().Success? {
        assert IsUp(own);
      } else if DownSince(before).Some? {
        var i :| StartsOutage(before, i) && before[i].at == DownSince(before).value;
        OutageGoesOn(own, i);
      } else {
        NoOutageBefore(own);
      }
    }
  }

  lemma OutageGoesOn(own: seq<Event>, i: int)
    requires own != [] && !own[|own| - 1].Mark().Success? && StartsOutage(own[..|own| - 1], i)
    ensures StartsOutage(own, i)
  {
    forall k | 0 <= k < i && own[k].Mark().Failure?
      ensures exists m :: k < m < i && own[m].Mark().Success?
    {
      assert own[..|own| - 1][k] == own[k];
      var m :| k < m < i && own[..|own| - 1][m].Mark().Success?;
      assert own[m].Mark().Success?;
    }
  }

  /** With no outage before it, a failure starts one and a neutral event does not. */
  lemma NoOutageBefore(own: seq<Event>)
    requires own != [] && !own[|own| - 1].Mark().Success? && IsUp(own[..|own| - 1])
    ensures own[|own| - 1].Mark().Failure? ==> StartsOutage(own, |own| - 1)
    ensures own[|own| - 1].Mark().Neither? ==> IsUp(own)
  {
    var n := |own| - 1;
    var before := own[..n];
    if own[n].Mark().Failure? {
      forall k | 0 <= k < n && own[k].Mark().Failure?
        ensures exists m :: k < m < n && own[m].Mark().Success?
      {
        if forall m :: k < m < n ==> !own[m].Mark().Success? {
          FailureStarts(before, k);
        }
      }
    } else {
      forall i
        ensures !StartsOutage(own, i)
      {
        if StartsOutage(own, i) {
          FailureStarts(before, i);
        }
      }
    }
  }

  /** A failure with no success after it belongs to an outage some failure started. */
  lemma {:induction false} FailureStarts(own: seq<Event>, i: nat)
    requires i < |own| && own[i].Mark().Failure? && forall k :: i < k < |own| ==> !own[k].Mark().Success?
    ensures exists j :: StartsOutage(own, j)
  {
    if k :| 0 <= k < i && own[k].Mark().Failure? && forall m :: k < m < i ==> !own[m].Mark().Success? {
      assert !own[i].Mark().Success?;
      FailureStarts(own, k);
    } else {
      assert StartsOutage(own, i);
    }
  }

  /** What a further event of the node ends: the outage that lasts, if the event is a success. */
  function Ended(own: seq<Event>, e: Event, node: NodeId): seq<Interval> {
    if e.Mark().Success? && DownSince(own).Some? then [Interval(node, DownSince(own).value, e.at)] else []
  }

  /** One span per success that ends an outage: from the failure that started it to that success. */
  function Spans(own: seq<Event>, node: NodeId): seq<Interval> {
    if own == [] then []
    else
      var n := |own| - 1;
      Spans(own[..n], node) + Ended(own[..n], own[n], node)
  }

  // ---- The one pass over all nodes -----------------------------------------------------------

  /** The intervals of all nodes, in the order in which they end. */
  function Paired(evs: seq<Event>): seq<Interval> {
    if evs == [] then []
    else
      var n := |evs| - 1;
      Paired(evs[..n]) + LastPaired(evs[..n], evs[n])
  }

  function LastPaired(before: seq<Event>, e: Event): seq<Interval> {
    if e.node.Some? then Ended(OwnEvents(before, e.node.value), e, e.node.value) else []
  }

  predicate PendingFor(pending: map<NodeId, real>, evs: seq<Event>, node: NodeId) {
    DownSince(OwnEvents(evs, node)) == if node in pending then Some(pending[node]) else None
  }

  /** The pending map holds the nodes that are down, and since when. */
  ghost predicate PendingIs(pending: map<NodeId, real>, evs: seq<Event>) {
    forall node {:trigger PendingFor(pending, evs, node)} :: PendingFor(pending, evs, node)
  }

  function Noted(pending: map<NodeId, real>, e: Event): map<NodeId, real> {
    if e.node.None? then pending
    else match e.Mark()
      case Failure => if e.node.value in pending then pending else pending[e.node.value := e.at]
      case Success => pending - {e.node.value}
      case Neither => pending
  }

  lemma PendingNext(pending: map<NodeId, real>, evs: seq<Event>, e: Event)
    requires PendingIs(pending, evs)
    ensures PendingIs(Noted(pending, e), evs + [e])
  {
    forall node
      ensures PendingFor(Noted(pending, e), evs + [e], node)
    {
      assert PendingFor(pending, evs, node);
      OwnLast(evs, e, node);
      if e.node == Some(node) {
        OneMore(evs, e, node);
      }
    }
  }

  method RecoveryIntervals(events: seq<Event>) returns (intervals: seq<Interval>)
    ensures intervals == Paired(Ordered(events))
  {
    var pending: map<NodeId, real> := map[];
    intervals := [];
    var evs := Ordered(events);
    for i := 0 to |evs|
      invariant intervals == Paired(evs[..i])
      invariant PendingIs(pending, evs[..i])
    {
      var e := evs[i];
      assert evs[..i + 1] == evs[..i] + [e] && evs[..i + 1][..i] == evs[..i];
      PendingNext(pending, evs[..i], e);
      ghost var before := pending;
      if e.node.Some? {
        var node := e.node.value;
        assert PendingFor(pending, evs[..i], node);
        if e.Mark().Failure? {
          if node !in pending {
            pending := pending[node := e.at];
          }
        } else if e.Mark().Success? {
          if node in pending {
            intervals := intervals + [Interval(node, pending[node], e.at)];
          }
          pending := pending - {node};
        }
      }
      assert pending == Noted(before, e);
    }
    assert evs[..|evs|] == evs;
  }

  lemma OneMore(evs: seq<Event>, e: Event, node: NodeId)
    requires e.node == Some(node)
    ensures var own := OwnEvents(evs, node);
      && OwnEvents(evs + [e], node) == own + [e] && (own + [e])[..|own|] == own
  {
    assert (evs + [e])[..|evs|] == evs;
  }

  lemma OwnAppend(ivs: seq<Interval>, more: seq<Interval>, node: NodeId)
    requires |more| <= 1
    ensures OwnIntervals(ivs + more, node)
         == OwnIntervals(ivs, node) + if more != [] && more[0].node == node then more else []
  {
    if more == [] {
      assert ivs + more == ivs;
      assert OwnIntervals(ivs, node) + [] == OwnIntervals(ivs, node);
    } else {
      assert (ivs + more)[..|ivs|] == ivs;
    }
  }

  lemma {:induction false} PairedPerNode(evs: seq<Event>, node: NodeId)
    ensures OwnIntervals(Paired(evs), node) == Spans(OwnEvents(evs, node), node)
  {
    if evs != [] {
      var n := |evs| - 1;
      PairedPerNode(evs[..n], node);
      PairedNext(evs[..n], evs[n], node);
      assert evs[..n] + [evs[n]] == evs;
    }
  }

  lemma PairedNext(evs: seq<Event>, e: Event, node: NodeId)
    requires OwnIntervals(Paired(evs), node) == Spans(OwnEvents(evs, node), node)
    ensures OwnIntervals(Paired(evs + [e]), node) == Spans(OwnEvents(evs + [e], node), node)
  {
    assert (evs + [e])[..|evs|] == evs;
    OwnAppend(Paired(evs), LastPaired(evs, e), node);
    OwnLast(evs, e, node);
    if e.node == Some(node) {
      SpansNext(OwnEvents(evs, node), e, node);
    } else {
      assert Spans(OwnEvents(evs, node), node) + [] == Spans(OwnEvents(evs, node), node);
    }
  }

  lemma SpansNext(own: seq<Event>, e: Event, node: NodeId)
    ensures Spans(own + [e], node) == Spans(own, node) + Ended(own, e, node)
  {
    assert (own + [e])[..|own|] == own;
  }

  lemma {:induction false} InsertOrder(evs: seq<Event>, e: Event)
    requires InLogOrder(evs)
    ensures InLogOrder(Insert(evs, e)) && multiset(Insert(evs, e)) == multiset(evs) + multiset{e}
    ensures forall x :: x in Insert(evs, e) ==> x in evs || x == e
  {
    var n := |evs| - 1;
    if evs != [] && After(evs[n], e) {
      InsertOrder(evs[..n], e);
      assert evs == evs[..n] + [evs[n]];
      var inner := Insert(evs[..n], e);
      forall i | 0 <= i < |inner|
        ensures !After(inner[i], evs[n])
      {
        assert inner[i] in inner;
      }
    }
  }

  /** Sorting keeps the events and puts them in log order. */
  lemma {:induction false} OrderedSorts(evs: seq<Event>)
    ensures InLogOrder(Ordered(evs)) && multiset(Ordered(evs)) == multiset(evs)
  {
    if evs != [] {
      var n := |evs| - 1;
      OrderedSorts(evs[..n]);
      InsertOrder(Ordered(evs[..n]), evs[n]);
      assert evs == evs[..n] + [evs[n]];
    }
  }

  lemma {:induction false} OwnAmong(evs: seq<Event>, node: NodeId)
    ensures forall x :: x in OwnEvents(evs, node) ==> x in evs
  {
    if evs != [] {
      OwnAmong(evs[..|evs| - 1], node);
      assert evs == evs[..|evs| - 1] + [evs[|evs| - 1]];
    }
  }

  lemma OwnLast(evs: seq<Event>, e: Event, node: NodeId)
    ensures OwnEvents(evs + [e], node) == if e.node == Some(node) then OwnEvents(evs, node) + [e] else OwnEvents(evs, node)
  {
    assert (evs + [e])[..|evs|] == evs;
    assert OwnEvents(evs, node) + [] == OwnEvents(evs, node);
  }

  lemma InsertBefore(evs: seq<Event>, last: Event, e: Event)
    requires After(last, e)
    ensures Insert(evs + [last], e) == Insert(evs, e) + [last]
  {
    assert (evs + [last])[..|evs|] == evs;
  }

  lemma {:induction false} OwnInsert(evs: seq<Event>, e: Event, node: NodeId)
    requires InLogOrder(evs)
    ensures OwnEvents(Insert(evs, e), node)
         == if e.node == Some(node) then Insert(OwnEvents(evs, node), e) else OwnEvents(evs, node)
  {
    var n := |evs| - 1;
    if evs != [] && After(evs[n], e) {
      OwnInsert(evs[..n], e, node);
      OwnLast(Insert(evs[..n], e), evs[n], node);
      assert evs == evs[..n] + [evs[n]];
      OwnLast(evs[..n], evs[n], node);
      InsertBefore(OwnEvents(evs[..n], node), evs[n], e);
    } else {
      OwnLast(evs, e, node);
      if OwnEvents(evs, node) != [] && evs != [] {
        LastNotAfter(evs, e, node);
      }
    }
  }

  lemma LastNotAfter(evs: seq<Event>, e: Event, node: NodeId)
    requires InLogOrder(evs) && evs != [] && !After(evs[|evs| - 1], e) && OwnEvents(evs, node) != []
    ensures var own := OwnEvents(evs, node); !After(own[|own| - 1], e)
  {
    var own := OwnEvents(evs, node);
    OwnAmong(evs, node);
    assert own[|own| - 1] in evs;
    var i :| 0 <= i < |evs| && evs[i] == own[|own| - 1];
    assert i < |evs| - 1 ==> !After(evs[i], evs[|evs| - 1]);
  }

  lemma {:induction false} OwnOrdered(evs: seq<Event>, node: NodeId)
    ensures OwnEvents(Ordered(evs), node) == Ordered(OwnEvents(evs, node))
  {
    if evs != [] {
      var n := |evs| - 1;
      OwnOrdered(evs[..n], node);
      OrderedSorts(evs[..n]);
      OwnInsert(Ordered(evs[..n]), evs[n], node);
      OwnLast(evs[..n], evs[n], node);
      assert evs == evs[..n] + [evs[n]];
      OrderedLast(OwnEvents(evs[..n], node), evs[n]);
    }
  }

  lemma OrderedLast(evs: seq<Event>, e: Event)
    ensures Ordered(evs + [e]) == Insert(Ordered(evs), e)
  {
    assert (evs + [e])[..|evs|] == evs;
  }

  /**
   Pairing: the one pass over the interleaved log finds for each node exactly the
   outages of that node's own events, and none for any other node's events.
   */
  lemma PairingPerNode(events: seq<Event>, node: NodeId)
    ensures OwnIntervals(Paired(Ordered(events)), node) == Spans(Ordered(OwnEvents(events, node)), node)
  {
    PairedPerNode(Ordered(events), node);
    OwnOrdered(events, node);
  }

  /** Adding the events of one node changes no other node's intervals. */
  lemma OtherNodesIgnored(events: seq<Event>, more: Event, node: NodeId)
    requires more.node != Some(node)
    ensures OwnIntervals(Paired(Ordered(events + [more])), node) == OwnIntervals(Paired(Ordered(events)), node)
  {
    PairingPerNode(events, node);
    PairingPerNode(events + [more], node);
    OwnLast(events, more, node);
  }

  /** The span runs from the failure that started an outage to the success, at j, that ended it. */
  ghost predicate EndsAt(own: seq<Event>, j: int, iv: Interval) {
    && 0 <= j < |own| && own[j].Mark().Success? && iv.recoveredAt == own[j].at
    && exists i :: StartsOutage(own[..j], i) && iv.failedAt == own[i].at
  }

  lemma EarlierEnd(own: seq<Event>, j: int, iv: Interval)
    requires own != [] && j < |own| - 1
    ensures EndsAt(own, j, iv) <==> EndsAt(own[..|own| - 1], j, iv)
  {
    if j >= 0 {
      assert own[..|own| - 1][..j] == own[..j];
    }
  }

  lemma LastEnd(own: seq<Event>, node: NodeId, iv: Interval)
    requires own != [] && iv.node == node
    ensures var n := |own| - 1;
      EndsAt(own, n, iv) <==>
      (own[n].Mark().Success? && DownSince(own[..n]).Some? && iv == Interval(node, DownSince(own[..n]).value, own[n].at))
  {
    var n := |own| - 1;
    DownSinceExact(own[..n]);
    if DownSince(own[..n]).Some? {
      var k :| StartsOutage(own[..n], k) && own[..n][k].at == DownSince(own[..n]).value;
      forall i | StartsOutage(own[..n], i)
        ensures i == k
      {
        OneOutage(own[..n], i, k);
      }
    }
  }

  /** The outage that lasts was started by one failure only. */
  lemma OneOutage(own: seq<Event>, i: int, k: int)
    requires StartsOutage(own, i) && StartsOutage(own, k)
    ensures i == k
  {
  }

  /** A span is exactly a recovery: the first failure since the node's last success, and the next success. */
  lemma {:induction false} SpanIsRecovery(own: seq<Event>, node: NodeId, iv: Interval)
    ensures iv in Spans(own, node) <==> iv.node == node && exists j :: EndsAt(own, j, iv)
  {
    if own != [] {
      var n := |own| - 1;
      SpanIsRecovery(own[..n], node, iv);
      forall j | j < n
        ensures EndsAt(own, j, iv) <==> EndsAt(own[..n], j, iv)
      {
        EarlierEnd(own, j, iv);
      }
      if iv.node == node {
        LastEnd(own, node, iv);
      }
    }
  }

  // ---- Mean time to recovery ------------------------------------------------------------------

  function SecondsSum(ivs: seq<Interval>): real {
    if ivs == [] then 0.0 else SecondsSum(ivs[..|ivs| - 1]) + ivs[|ivs| - 1].Seconds()
  }

  function Mttr(ivs: seq<Interval>): Option<real> {
    if ivs == [] then None else Some(SecondsSum(ivs) / |ivs| as real)
  }

  lemma {:induction false} SumBetween(ivs: seq<Interval>, lo: real, hi: real)
    requires forall iv :: iv in ivs ==> lo <= iv.Seconds() <= hi
    ensures Times(lo, |ivs|) <= SecondsSum(ivs) <= Times(hi, |ivs|)
  {
    if ivs != [] {
      var n := |ivs| - 1;
      assert ivs == ivs[..n] + [ivs[n]];
      SumBetween(ivs[..n], lo, hi);
      OneMoreTime(lo, n);
      OneMoreTime(hi, n);
    }
  }

  function Times(x: real, n: nat): real {
    x * n as real
  }

  lemma OneMoreTime(x: real, n: nat)
    ensures Times(x, n + 1) == Times(x, n) + x
  {
    assert (n + 1) as real == n as real + 1.0;
  }

  /** The mean is defined exactly when something recovered, and lies among the recovery times. */
  lemma MttrAmongSpans(ivs: seq<Interval>, lo: real, hi: real)
    requires forall iv :: iv in ivs ==> lo <= iv.Seconds() <= hi
    ensures Mttr(ivs).Some? <==> ivs != []
    ensures Mttr(ivs).Some? ==> lo <= Mttr(ivs).value <= hi
  {
    if ivs != [] {
      SumBetween(ivs, lo, hi);
      var mean := SecondsSum(ivs) / |ivs| as real;
      MeanTimes(ivs);
      TimesOrder(mean, lo, |ivs|);
      TimesOrder(hi, mean, |ivs|);
    }
  }

  lemma {:induction false} SumSplits(a: seq<Interval>, b: seq<Interval>)
    ensures SecondsSum(a + b) == SecondsSum(a) + SecondsSum(b)
  {
    if b == [] {
      assert a + b == a;
    } else {
      var n := |b| - 1;
      assert (a + b)[..|a| + n] == a + b[..n];
      SumSplits(a, b[..n]);
    }
  }

  /** The mean of one recovery is its time; of two groups, their means weighted by how many there are. */
  lemma MttrWeighs(a: seq<Interval>, b: seq<Interval>)
    ensures |a| == 1 ==>
      Mttr(a) == Some(if a[0].failedAt <= a[0].recoveredAt then a[0].recoveredAt - a[0].failedAt else 0.0)
    ensures a != [] && b != [] ==>
      Times(Mttr(a + b).value, |a| + |b|) == Times(Mttr(a).value, |a|) + Times(Mttr(b).value, |b|)
  {
    if |a| == 1 {
      LoneMean(a);
    }
    if a != [] && b != [] {
      SumSplits(a, b);
      MeanTimes(a);
      MeanTimes(b);
      MeanTimes(a + b);
    }
  }

  lemma LoneMean(ivs: seq<Interval>)
    requires |ivs| == 1
    ensures Mttr(ivs) == Some(ivs[0].Seconds())
  {
    assert ivs[..|ivs| - 1] == [];
    assert SecondsSum(ivs) == 0.0 + ivs[0].Seconds();
    assert |ivs| as real == 1.0;
    DividedBack(SecondsSum(ivs), 1.0);
    assert SecondsSum(ivs) / 1.0 * 1.0 == SecondsSum(ivs) / 1.0;
  }

  lemma MeanTimes(ivs: seq<Interval>)
    requires ivs != []
    ensures Times(Mttr(ivs).value, |ivs|) == SecondsSum(ivs)
  {
    DividedBack(SecondsSum(ivs), |ivs| as real);
  }

  lemma DividedBack(x: real, n: real)
    requires n != 0.0
    ensures x / n * n == x
  {
  }

  lemma TimesOrder(a: real, b: real, n: nat)
    requires n > 0
    ensures a < b ==> Times(a, n) < Times(b, n)
  {
    assert (b - a) * n as real == Times(b, n) - Times(a, n);
  }

  // ---- Final results -----------------------------------------------------------------------

  datatype Result = Result(node: NodeId, state: TaskState, attempts: int, startedAt: real, endedAt: real,
                           rolledBack: bool, usedFallback: bool, cost: real, inputTokens: int, outputTokens: int) {
    function Duration(): real {
      NotNegative(endedAt - startedAt)
    }
  }

  /** The nodes that have results, in the order of their first ones. */
  function NodesSeen(results: seq<Result>): seq<NodeId> {
    if results == [] then []
    else
      var n := |results| - 1;
      var before := NodesSeen(results[..n]);
      if results[n].node in before then before else before + [results[n].node]
  }

  ghost predicate IsLastOf(results: seq<Result>, r: Result) {
    exists i :: 0 <= i < |results| && results[i] == r && forall j :: i < j < |results| ==> results[j].node != r.node
  }

  lemma {:induction false} NodesSeenExact(results: seq<Result>)
    ensures Distinct(NodesSeen(results))
    ensures forall id :: id in NodesSeen(results) <==> exists i :: 0 <= i < |results| && results[i].node == id
  {
    if results != [] {
      var n := |results| - 1;
      NodesSeenExact(results[..n]);
      forall id
        ensures id in NodesSeen(results) <==> exists i :: 0 <= i < |results| && results[i].node == id
      {
        if i :| 0 <= i < n && results[i].node == id {
          assert results[..n][i].node == id;
        }
      }
    }
  }

  /** One result per node, the node's last, in the order of the nodes' first results. */
  ghost predicate IsFinal(results: seq<Result>, final: seq<Result>) {
    && |final| == |NodesSeen(results)|
    && forall i :: 0 <= i < |final| ==> final[i].node == NodesSeen(results)[i] && IsLastOf(results, final[i])
  }

  /** A node's last result. */
  function LastOf(results: seq<Result>, node: NodeId): Option<Result> {
    if results == [] then None
    else if results[|results| - 1].node == node then Some(results[|results| - 1])
    else LastOf(results[..|results| - 1], node)
  }

  function LastOfEach(results: seq<Result>, nodes: seq<NodeId>): seq<Result> {
    if nodes == [] then []
    else
      var n := |nodes| - 1;
      LastOfEach(results, nodes[..n])
      + match LastOf(results, nodes[n]) case None => [] case Some(r) => [r]
  }

  function Final(results: seq<Result>): seq<Result> {
    LastOfEach(results, NodesSeen(results))
  }

  lemma {:induction false} LastOfExact(results: seq<Result>, node: NodeId)
    requires node in NodesSeen(results)
    ensures LastOf(results, node).Some?
    ensures var r := LastOf(results, node).value; r.node == node && IsLastOf(results, r)
  {
    var n := |results| - 1;
    if results[n].node != node {
      LastOfExact(results[..n], node);
      StillLast(results[..n], results[n], LastOf(results[..n], node).value);
      assert results[..n] + [results[n]] == results;
    }
  }

  ghost predicate HasLast(results: seq<Result>, node: NodeId) {
    LastOf(results, node).Some? && LastOf(results, node).value.node == node && IsLastOf(results, LastOf(results, node).value)
  }

  lemma {:induction false} LastOfEachIs(results: seq<Result>, nodes: seq<NodeId>)
    requires forall k :: 0 <= k < |nodes| ==> HasLast(results, nodes[k])
    ensures var final := LastOfEach(results, nodes);
      |final| == |nodes| && forall k :: 0 <= k < |nodes| ==> Some(final[k]) == LastOf(results, nodes[k])
  {
    if nodes != [] {
      var n := |nodes| - 1;
      LastOfEachIs(results, nodes[..n]);
      assert HasLast(results, nodes[n]);
      LastOfEachNext(results, nodes);
    }
  }

  lemma LastOfEachNext(results: seq<Result>, nodes: seq<NodeId>)
    requires nodes != [] && LastOf(results, nodes[|nodes| - 1]).Some?
    ensures LastOfEach(results, nodes) ==
      LastOfEach(results, nodes[..|nodes| - 1]) + [LastOf(results, nodes[|nodes| - 1]).value]
  {
  }

  /** Final says what it should: one result per node, its last, and no node twice. */
  lemma FinalIs(results: seq<Result>, final: seq<Result>)
    ensures IsFinal(results, final) <==> final == Final(results)
    ensures forall i, j :: 0 <= i < j < |Final(results)| ==> Final(results)[i].node != Final(results)[j].node
  {
    var nodes := NodesSeen(results);
    forall k | 0 <= k < |nodes|
      ensures HasLast(results, nodes[k])
    {
      LastOfExact(results, nodes[k]);
    }
    LastOfEachIs(results, nodes);
    if IsFinal(results, final) {
      FinalUnique(results, final, Final(results));
    }
    FinalUnique(results, Final(results), Final(results));
  }

  /** _final_results */
  method FinalResults(results: seq<Result>) returns (final: seq<Result>)
    ensures final == Final(results)
  {
    var order: seq<NodeId> := [];
    var latest: map<NodeId, Result> := map[];
    for i := 0 to |results|
      invariant order == NodesSeen(results[..i])
      invariant forall id :: id in order <==> id in latest
      invariant forall id :: LastOf(results[..i], id) == if id in latest then Some(latest[id]) else None
    {
      var r := results[i];
      assert results[..i + 1][..i] == results[..i];
      if r.node !in latest {
        order := order + [r.node];
      }
      latest := latest[r.node := r];
    }
    assert results[..|results|] == results;
    final := ValuesOf(results, order, latest);
  }

  /** latest.values(), in insertion order. */
  method ValuesOf(ghost results: seq<Result>, order: seq<NodeId>, latest: map<NodeId, Result>) returns (final: seq<Result>)
    requires forall id :: id in order ==> id in latest
    requires forall id :: LastOf(results, id) == if id in latest then Some(latest[id]) else None
    ensures final == LastOfEach(results, order)
  {
    final := [];
    for i := 0 to |order|
      invariant final == LastOfEach(results, order[..i])
    {
      assert order[..i + 1][..i] == order[..i];
      final := final + [latest[order[i]]];
    }
    assert order[..|order|] == order;
  }

  lemma StillLast(results: seq<Result>, r: Result, last: Result)
    requires IsLastOf(results, last) && r.node != last.node
    ensures IsLastOf(results + [r], last)
  {
    var i :| 0 <= i < |results| && results[i] == last && forall j :: i < j < |results| ==> results[j].node != last.node;
    assert (results + [r])[i] == last;
  }

  /** Final results are determined, and no node is counted twice. */
  lemma FinalUnique(results: seq<Result>, f: seq<Result>, g: seq<Result>)
    requires IsFinal(results, f) && IsFinal(results, g)
    ensures f == g
    ensures forall i, j :: 0 <= i < j < |f| ==> f[i].node != f[j].node
  {
    NodesSeenExact(results);
    forall k | 0 <= k < |f|
      ensures f[k] == g[k]
    {
      OneLast(results, f[k], g[k]);
    }
  }

  lemma OneLast(results: seq<Result>, a: Result, b: Result)
    requires IsLastOf(results, a) && IsLastOf(results, b) && a.node == b.node
    ensures a == b
  {
    var i :| 0 <= i < |results| && results[i] == a && forall j :: i < j < |results| ==> results[j].node != a.node;
    var k :| 0 <= k < |results| && results[k] == b && forall j :: k < j < |results| ==> results[j].node != b.node;
  }

  // ---- Totals and their breakdown ------------------------------------------------------------

  datatype Totals = Totals(nodes: int, succeeded: int, failed: int, retries: int, latency: real, cost: real,
                           inputTokens: int, outputTokens: int)

  const NOTHING := Totals(0, 0, 0, 0, 0.0, 0.0, 0, 0)

  function Plus(a: Totals, b: Totals): Totals {
    Totals(a.nodes + b.nodes, a.succeeded + b.succeeded, a.failed + b.failed, a.retries + b.retries,
           a.latency + b.latency, a.cost + b.cost, a.inputTokens + b.inputTokens, a.outputTokens + b.outputTokens)
  }

  function OneResult(r: Result): Totals {
    Totals(1, if r.state.COMPLETED? then 1 else 0, if r.state.FAILED? || r.state.REJECTED? then 1 else 0,
           if r.attempts > 1 then r.attempts - 1 else 0, r.Duration(), r.cost, r.inputTokens, r.outputTokens)
  }

  function Sum(results: seq<Result>): Totals {
    if results == [] then NOTHING else Plus(Sum(results[..|results| - 1]), OneResult(results[|results| - 1]))
  }

  // The keys of the breakdown: the stages in the order of the life cycle, then "unknown".
  datatype StageKey = Stage(kind: StageKind) | Unknown

  const STAGE_ORDER: seq<StageKey> :=
    [Stage(Planner.ANALYZE), Stage(Planner.DESIGN_STAGE), Stage(Planner.IMPLEMENT_STAGE), Stage(Planner.TEST),
     Stage(Planner.DOCUMENT_STAGE), Stage(Planner.REVIEW_STAGE), Stage(Planner.RELEASE_CHECK), Unknown]

  // What is known about stages: the kinds of the plan's nodes, and those inferred from ids.
  datatype Stages = Stages(planned: map<NodeId, StageKind>, inferred: map<NodeId, StageKind>)

  /** The plan's kind for the node if it is known, else the one inferred from the id, if any. */
  function KeyOf(stages: Stages, node: NodeId): StageKey {
    if node in stages.planned then Stage(stages.planned[node])
    else if node in stages.inferred then Stage(stages.inferred[node])
    else Unknown
  }

  function InStage(results: seq<Result>, stages: Stages, key: StageKey): seq<Result> {
    if results == [] then []
    else
      var n := |results| - 1;
      InStage(results[..n], stages, key)
      + if KeyOf(stages, results[n].node) == key then [results[n]] else []
  }

  /** The rows of the table: the stages that have results, in life-cycle order, each with the sum of its results. */
  function Rows(final: seq<Result>, stages: Stages, keys: seq<StageKey>)
    : seq<(StageKey, Totals)>
  {
    if keys == [] then []
    else
      var n := |keys| - 1;
      var mine := InStage(final, stages, keys[n]);
      Rows(final, stages, keys[..n]) + if mine == [] then [] else [(keys[n], Sum(mine))]
  }

  lemma SumAppend(results: seq<Result>, r: Result)
    ensures Sum(results + [r]) == Plus(Sum(results), OneResult(r))
  {
    assert (results + [r])[..|results|] == results;
  }

  lemma InStageLast(results: seq<Result>, r: Result, stages: Stages, key: StageKey)
    ensures InStage(results + [r], stages, key)
         == if KeyOf(stages, r.node) == key then InStage(results, stages, key) + [r]
            else InStage(results, stages, key)
  {
    assert (results + [r])[..|results|] == results;
    assert InStage(results, stages, key) + [] == InStage(results, stages, key);
  }

  ghost predicate Tally(buckets: map<StageKey, Totals>, results: seq<Result>, stages: Stages, key: StageKey) {
    var mine := InStage(results, stages, key);
    if key in buckets then mine != [] && buckets[key] == Sum(mine) else mine == []
  }

  /** Each stage that has results has a bucket, with their sum. */
  ghost predicate Tallies(buckets: map<StageKey, Totals>, results: seq<Result>, stages: Stages) {
    forall key {:trigger Tally(buckets, results, stages, key)} :: Tally(buckets, results, stages, key)
  }

  lemma TallyOne(buckets: map<StageKey, Totals>, results: seq<Result>, r: Result, stages: Stages, key: StageKey)
    requires Tally(buckets, results, stages, key)
    ensures var own := KeyOf(stages, r.node);
      var bucket := if own in buckets then buckets[own] else NOTHING;
      Tally(buckets[own := Plus(bucket, OneResult(r))], results + [r], stages, key)
  {
    InStageLast(results, r, stages, key);
    if key == KeyOf(stages, r.node) {
      SumNonEmpty(InStage(results, stages, key), r);
    }
  }

  lemma SumNonEmpty(mine: seq<Result>, r: Result)
    ensures mine + [r] != [] && Sum(mine + [r]) == Plus(Sum(mine), OneResult(r))
    ensures mine == [] ==> Sum(mine) == NOTHING
  {
    SumAppend(mine, r);
  }

  method FillBuckets(latest: seq<Result>, stages: Stages) returns (buckets: map<StageKey, Totals>)
    ensures Tallies(buckets, latest, stages)
  {
    buckets := map[];
    for i := 0 to |latest|
      invariant Tallies(buckets, latest[..i], stages)
    {
      var key := KeyOf(stages, latest[i].node);
      var bucket := if key in buckets then buckets[key] else NOTHING;
      var filled := buckets[key := Plus(bucket, OneResult(latest[i]))];
      forall k
        ensures Tally(filled, latest[..i] + [latest[i]], stages, k)
      {
        assert Tally(buckets, latest[..i], stages, k);
        TallyOne(buckets, latest[..i], latest[i], stages, k);
      }
      assert latest[..i] + [latest[i]] == latest[..i + 1];
      buckets := filled;
    }
    assert latest[..|latest|] == latest;
  }

  method SortRows(ghost latest: seq<Result>, stages: Stages, buckets: map<StageKey, Totals>, order: seq<StageKey>)
    returns (rows: seq<(StageKey, Totals)>)
    requires Tallies(buckets, latest, stages)
    ensures rows == Rows(latest, stages, order)
  {
    rows := [];
    for i := 0 to |order|
      invariant rows == Rows(latest, stages, order[..i])
    {
      assert order[..i + 1][..i] == order[..i];
      assert Tally(buckets, latest, stages, order[i]);
      if order[i] in buckets {
        rows := rows + [(order[i], buckets[order[i]])];
      }
    }
    assert order[..|order|] == order;
  }

  method PerStage(results: seq<Result>, stages: Stages) returns (rows: seq<(StageKey, Totals)>)
    ensures rows == Rows(Final(results), stages, STAGE_ORDER)
  {
    var latest := FinalResults(results);
    var buckets := FillBuckets(latest, stages);
    rows := SortRows(latest, stages, buckets, STAGE_ORDER);
  }

  function SumRows(rows: seq<(StageKey, Totals)>): Totals {
    if rows == [] then NOTHING else Plus(SumRows(rows[..|rows| - 1]), rows[|rows| - 1].1)
  }

  // The results whose stage is among the keys.
  function InStages(results: seq<Result>, stages: Stages, keys: seq<StageKey>): seq<Result> {
    if results == [] then []
    else
      var n := |results| - 1;
      InStages(results[..n], stages, keys)
      + if KeyOf(stages, results[n].node) in keys then [results[n]] else []
  }

  lemma InStagesLast(results: seq<Result>, r: Result, stages: Stages, keys: seq<StageKey>)
    ensures Sum(InStages(results + [r], stages, keys))
         == Plus(Sum(InStages(results, stages, keys)), if KeyOf(stages, r.node) in keys then OneResult(r) else NOTHING)
  {
    assert (results + [r])[..|results|] == results;
    assert InStages(results, stages, keys) + [] == InStages(results, stages, keys);
    SumAppend(InStages(results, stages, keys), r);
  }

  lemma InStageSum(results: seq<Result>, r: Result, stages: Stages, key: StageKey)
    ensures Sum(InStage(results + [r], stages, key))
         == Plus(Sum(InStage(results, stages, key)), if KeyOf(stages, r.node) == key then OneResult(r) else NOTHING)
  {
    InStageLast(results, r, stages, key);
    SumAppend(InStage(results, stages, key), r);
  }

  lemma KeyStep(all: Totals, rest: Totals, mine: Totals, one: Totals, inRest: bool, isMine: bool)
    requires all == Plus(rest, mine) && !(inRest && isMine)
    ensures Plus(all, if inRest || isMine then one else NOTHING)
         == Plus(Plus(rest, if inRest then one else NOTHING), Plus(mine, if isMine then one else NOTHING))
  {
  }

  // Adding the key's stage adds the key's results.
  ghost predicate KeyAdds(results: seq<Result>, stages: Stages, keys: seq<StageKey>, key: StageKey) {
    Sum(InStages(results, stages, keys + [key]))
      == Plus(Sum(InStages(results, stages, keys)), Sum(InStage(results, stages, key)))
  }

  lemma InAppended(keys: seq<StageKey>, key: StageKey, own: StageKey)
    ensures own in keys + [key] <==> own in keys || own == key
  {
  }

  lemma KeyAddsNext(results: seq<Result>, r: Result, stages: Stages, keys: seq<StageKey>, key: StageKey)
    requires key !in keys && KeyAdds(results, stages, keys, key)
    ensures KeyAdds(results + [r], stages, keys, key)
  {
    var own := KeyOf(stages, r.node);
    InStagesLast(results, r, stages, keys + [key]);
    InStagesLast(results, r, stages, keys);
    InStageSum(results, r, stages, key);
    InAppended(keys, key, own);
    KeyStep(Sum(InStages(results, stages, keys + [key])), Sum(InStages(results, stages, keys)),
            Sum(InStage(results, stages, key)), OneResult(r), own in keys, own == key);
  }

  /** One more key adds exactly the results of its stage. */
  lemma {:induction false} OneMoreKey(results: seq<Result>, stages: Stages, keys: seq<StageKey>, key: StageKey)
    requires key !in keys
    ensures KeyAdds(results, stages, keys, key)
  {
    if results == [] {
      assert InStages(results, stages, keys + [key]) == InStages(results, stages, keys) == InStage(results, stages, key) == [];
    } else {
      var before, r := results[..|results| - 1], results[|results| - 1];
      assert before + [r] == results;
      OneMoreKey(before, stages, keys, key);
      KeyAddsNext(before, r, stages, keys, key);
    }
  }

  lemma SumRowsAppend(rows: seq<(StageKey, Totals)>, key: StageKey, mine: seq<Result>)
    ensures SumRows(rows + if mine == [] then [] else [(key, Sum(mine))]) == Plus(SumRows(rows), Sum(mine))
  {
    if mine == [] {
      assert rows + [] == rows;
    } else {
      assert (rows + [(key, Sum(mine))])[..|rows|] == rows;
    }
  }

  lemma {:induction false} RowsSum(final: seq<Result>, stages: Stages, keys: seq<StageKey>)
    requires Distinct(keys)
    ensures SumRows(Rows(final, stages, keys)) == Sum(InStages(final, stages, keys))
  {
    if keys == [] {
      NoStages(final, stages);
    } else {
      var n := |keys| - 1;
      RowsSum(final, stages, keys[..n]);
      RowsSumNext(final, stages, keys[..n], keys[n]);
      assert keys == keys[..n] + [keys[n]];
    }
  }

  lemma RowsSumNext(final: seq<Result>, stages: Stages, keys: seq<StageKey>, key: StageKey)
    requires key !in keys && SumRows(Rows(final, stages, keys)) == Sum(InStages(final, stages, keys))
    ensures SumRows(Rows(final, stages, keys + [key])) == Sum(InStages(final, stages, keys + [key]))
  {
    OneMoreKey(final, stages, keys, key);
    SumRowsAppend(Rows(final, stages, keys), key, InStage(final, stages, key));
    assert (keys + [key])[..|keys|] == keys;
  }

  lemma {:induction false} NoStages(results: seq<Result>, stages: Stages)
    ensures InStages(results, stages, []) == []
  {
    if results != [] {
      NoStages(results[..|results| - 1], stages);
    }
  }

  lemma {:induction false} AllStages(results: seq<Result>, stages: Stages)
    ensures InStages(results, stages, STAGE_ORDER) == results
  {
    if results != [] {
      var n := |results| - 1;
      AllStages(results[..n], stages);
      EveryKey(KeyOf(stages, results[n].node));
      assert results == results[..n] + [results[n]];
    }
  }

  lemma EveryKey(key: StageKey)
    ensures key in STAGE_ORDER
  {
    match key
    case Unknown => assert STAGE_ORDER[7] == key;
    case Stage(kind) =>
      match kind
      case ANALYZE => assert STAGE_ORDER[0] == key;
      case DESIGN_STAGE => assert STAGE_ORDER[1] == key;
      case IMPLEMENT_STAGE => assert STAGE_ORDER[2] == key;
      case TEST => assert STAGE_ORDER[3] == key;
      case DOCUMENT_STAGE => assert STAGE_ORDER[4] == key;
      case REVIEW_STAGE => assert STAGE_ORDER[5] == key;
      case RELEASE_CHECK => assert STAGE_ORDER[6] == key;
  }

  /**
   Conservation: whatever is known about the nodes' stages, the table's rows add up to
   the run's totals, every node counted in exactly one row.
   */
  lemma BreakdownConserves(final: seq<Result>, stages: Stages)
    ensures SumRows(Rows(final, stages, STAGE_ORDER)) == Sum(final)
  {
    RowsSum(final, stages, STAGE_ORDER);
    AllStages(final, stages);
  }

  // ---- End-to-end latency ----------------------------------------------------------------------

  function FirstAt(evs: seq<Event>, kind: Kind): Option<real> {
    if evs == [] then None else if evs[0].kind == kind then Some(evs[0].at) else FirstAt(evs[1..], kind)
  }

  function LastAt(evs: seq<Event>, kind: Kind): Option<real> {
    var n := |evs| - 1;
    if evs == [] then None else if evs[n].kind == kind then Some(evs[n].at) else LastAt(evs[..n], kind)
  }

  function LatestEnd(results: seq<Result>): (latest: real)
    requires results != []
    ensures forall r :: r in results ==> r.endedAt <= latest
    ensures exists r :: r in results && r.endedAt == latest
  {
    if |results| == 1 then results[0].endedAt
    else
      assert results == [results[0]] + results[1..];
      var rest := LatestEnd(results[1..]);
      if results[0].endedAt > rest then results[0].endedAt else rest
  }

  function EarliestStart(results: seq<Result>): (earliest: real)
    requires results != []
    ensures forall r :: r in results ==> earliest <= r.startedAt
    ensures exists r :: r in results && r.startedAt == earliest
  {
    if |results| == 1 then results[0].startedAt
    else
      assert results == [results[0]] + results[1..];
      var rest := EarliestStart(results[1..]);
      if results[0].startedAt < rest then results[0].startedAt else rest
  }

  predicate Timed(r: Result) {
    r.endedAt != 0.0 || r.startedAt != 0.0
  }

  /** Between the run's markers, or, for want of them, what the log or else the results span. */
  function Latency(events: seq<Event>, results: seq<Result>): real {
    var evs := Ordered(events);
    var started, finished := FirstAt(evs, RunStarted), LastAt(evs, RunFinished);
    var timed := Filter(results, r => Timed(r));
    if started.Some? && finished.Some? then NotNegative(finished.value - started.value)
    else if evs != [] then NotNegative(evs[|evs| - 1].at - evs[0].at)
    else if timed != [] then NotNegative(LatestEnd(timed) - EarliestStart(timed))
    else 0.0
  }

  lemma {:induction false} FirstAtIs(evs: seq<Event>, kind: Kind)
    ensures FirstAt(evs, kind).None? <==> forall e :: e in evs ==> e.kind != kind
    ensures FirstAt(evs, kind).Some? ==> exists e :: e in evs && e.kind == kind && e.at == FirstAt(evs, kind).value
  {
    if evs != [] {
      FirstAtIs(evs[1..], kind);
      assert evs == [evs[0]] + evs[1..];
    }
  }

  lemma {:induction false} LastAtIs(evs: seq<Event>, kind: Kind)
    ensures LastAt(evs, kind).None? <==> forall e :: e in evs ==> e.kind != kind
    ensures LastAt(evs, kind).Some? ==> exists e :: e in evs && e.kind == kind && e.at == LastAt(evs, kind).value
  {
    if evs != [] {
      LastAtIs(evs[..|evs| - 1], kind);
      assert evs == evs[..|evs| - 1] + [evs[|evs| - 1]];
    }
  }

  /** With one start and one finish in the log, the latency is the time between the two, in whatever order they were read. */
  lemma LatencyBetweenMarkers(events: seq<Event>, results: seq<Result>, started: Event, finished: Event)
    requires started in events && started.kind == RunStarted && finished in events && finished.kind == RunFinished
    requires forall e :: e in events ==> (e.kind == RunStarted ==> e == started) && (e.kind == RunFinished ==> e == finished)
    ensures Latency(events, results) == NotNegative(finished.at - started.at)
  {
    var evs := Ordered(events);
    OrderedKeeps(events, started);
    OrderedKeeps(events, finished);
    FirstAtIs(evs, RunStarted);
    LastAtIs(evs, RunFinished);
    forall e | e in evs
      ensures e in events
    {
      OrderedKeeps(events, e);
    }
  }

  lemma OrderedKeeps(events: seq<Event>, e: Event)
    ensures e in Ordered(events) <==> e in events
  {
    OrderedSorts(events);
    assert e in multiset(Ordered(events)) <==> e in multiset(events);
  }

  /** No fallback reports more than the run can have taken: whatever it looks at lies within the run. */
  lemma LatencyWithin(events: seq<Event>, results: seq<Result>, lo: real, hi: real)
    requires lo <= hi && forall e :: e in events ==> lo <= e.at <= hi
    requires forall r :: r in results && Timed(r) ==> lo <= r.startedAt && r.endedAt <= hi
    ensures 0.0 <= Latency(events, results) <= hi - lo
  {
    var evs := Ordered(events);
    forall e | e in evs
      ensures lo <= e.at <= hi
    {
      OrderedKeeps(events, e);
    }
    FirstAtIs(evs, RunStarted);
    LastAtIs(evs, RunFinished);
    if evs != [] {
      assert evs[0] in evs && evs[|evs| - 1] in evs;
    }
  }

  // ---- The run's totals ----------------------------------------------------------------------

  function Max(a: int, b: int): int {
    if a < b then b else a
  }

  datatype RunMetrics = RunMetrics(totalNodes: int, succeeded: int, failed: int, retries: int, rollbacks: int, fallbacks: int,
                                   approvals: int, revisions: int, latency: real, mttr: Option<real>,
                                   cost: real, inputTokens: int, outputTokens: int)

  function OfRun(events: seq<Event>, runId: nat): seq<Event> {
    Filter(events, (e: Event) => e.runId == runId)
  }

  function Count(events: seq<Event>, kind: Kind): nat {
    |Filter(events, (e: Event) => e.kind == kind)|
  }

  function RolledBack(results: seq<Result>): nat {
    |Filter(results, (r: Result) => r.rolledBack)|
  }

  function FellBack(results: seq<Result>): nat {
    |Filter(results, (r: Result) => r.usedFallback)|
  }

  lemma FilterNext<T(!new)>(xs: seq<T>, x: T, p: T -> bool)
    ensures |Filter(xs + [x], p)| == |Filter(xs, p)| + if p(x) then 1 else 0
  {
    FilterConcat(xs, [x], p);
    assert [x][1..] == [];
  }

  // What one pass over the final results adds up.
  datatype Sums = Sums(succeeded: int, failed: int, retries: int, rollbacks: int, fallbacks: int,
                       cost: real, inputTokens: int, outputTokens: int)

  function SumsOf(results: seq<Result>): Sums {
    var sum := Sum(results);
    Sums(sum.succeeded, sum.failed, sum.retries, RolledBack(results), FellBack(results),
         sum.cost, sum.inputTokens, sum.outputTokens)
  }

  lemma SumsNext(results: seq<Result>, r: Result)
    ensures var s, t, one := SumsOf(results), SumsOf(results + [r]), OneResult(r);
      t == Sums(s.succeeded + one.succeeded, s.failed + one.failed, s.retries + one.retries,
                s.rollbacks + if r.rolledBack then 1 else 0, s.fallbacks + if r.usedFallback then 1 else 0,
                s.cost + one.cost, s.inputTokens + one.inputTokens, s.outputTokens + one.outputTokens)
  {
    SumAppend(results, r);
    FilterNext(results, r, (r: Result) => r.rolledBack);
    FilterNext(results, r, (r: Result) => r.usedFallback);
  }

  method AddUp(latest: seq<Result>) returns (s: Sums)
    ensures s == SumsOf(latest)
  {
    s := Sums(0, 0, 0, 0, 0, 0.0, 0, 0);
    for i := 0 to |latest|
      invariant s == SumsOf(latest[..i])
    {
      var r := latest[i];
      assert latest[..i + 1] == latest[..i] + [r];
      SumsNext(latest[..i], r);
      s := Sums(s.succeeded + if r.state == COMPLETED then 1 else 0,
                s.failed + if r.state in {FAILED, REJECTED} then 1 else 0,
                s.retries + Max(0, r.attempts - 1),
                s.rollbacks + if r.rolledBack then 1 else 0,
                s.fallbacks + if r.usedFallback then 1 else 0,
                s.cost + r.cost, s.inputTokens + r.inputTokens, s.outputTokens + r.outputTokens);
    }
    assert latest[..|latest|] == latest;
  }

  /** A figure known from the results and from the log is the larger of the two. */
  method FromResults(results: seq<Result>, events: seq<Event>, runId: nat) returns (m: RunMetrics)
    ensures var sum := Sum(Final(results));
      && m.totalNodes == sum.nodes && m.succeeded == sum.succeeded && m.failed == sum.failed
      && m.cost == sum.cost && m.inputTokens == sum.inputTokens && m.outputTokens == sum.outputTokens
    ensures var final, own := Final(results), OfRun(events, runId);
      && m.retries == Max(Sum(final).retries, Count(own, Retry))
      && m.rollbacks == Max(RolledBack(final), Count(own, Rollback))
      && m.fallbacks == Max(FellBack(final), Count(own, Fallback))
      && m.approvals == Count(own, ApprovalRequested) && m.revisions == Count(own, PlanRevised)
      && m.latency == Latency(own, final) && m.mttr == Mttr(Paired(Ordered(own)))
  {
    var latest := FinalResults(results);
    var own := OfRun(events, runId);
    var s := AddUp(latest);
    var intervals := RecoveryIntervals(own);
    SumCounts(latest);
    m := RunMetrics(|latest|, s.succeeded, s.failed, Max(s.retries, Count(own, Retry)),
                    Max(s.rollbacks, Count(own, Rollback)), Max(s.fallbacks, Count(own, Fallback)),
                    Count(own, ApprovalRequested), Count(own, PlanRevised), Latency(own, latest), Mttr(intervals),
                    s.cost, s.inputTokens, s.outputTokens);
  }

  lemma {:induction false} SumCounts(results: seq<Result>)
    ensures Sum(results).nodes == |results|
  {
    if results != [] {
      SumCounts(results[..|results| - 1]);
    }
  }
}
