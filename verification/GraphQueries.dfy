/** keel/graph.py: reachability, staleness and sub-plan extraction over a built graph. */
module GraphQueries {
  import opened Prelude
  import opened Digraph
  import opened PlanGraphs
  import opened KahnLevels
  import opened BuildGraph

  /** The worklist closure over one edge direction, minus the start node. */
  method Reach(edges: Adj, start: NodeId) returns (r: Result<set<NodeId>, GraphError>)
    requires Closed(edges)
    ensures start !in edges <==> r == Err(NoSuchNode(start))
    ensures start in edges ==> r == Ok(Cone(edges, start) - {start})
  {
    if start !in edges {
      return Err(NoSuchNode(start));
    }
    var seen: set<NodeId> := {};
    var frontier := [start];
    while frontier != []
      invariant Explored(edges, start, frontier, seen)
      decreases |edges.Keys - seen|, |frontier|
    {
      var current := frontier[|frontier| - 1];
      var rest := frontier[..|frontier| - 1];
      assert frontier == rest + [current];
      frontier, seen := Expand(edges, start, current, rest, seen);
    }
    ReachIsCone(edges, start, seen);
    r := Ok(seen - {start});
  }

  /** What has been seen is reachable, and everything next to it is seen once it leaves the frontier. */
  ghost predicate Explored(edges: Adj, start: NodeId, frontier: seq<NodeId>, seen: set<NodeId>) {
    && seen <= edges.Keys
    && (forall n :: n in frontier ==> n in edges && (n == start || n in seen))
    && (forall n :: n in seen ==> Reaches(edges, start, n))
    && (forall a, b :: (a == start || a in seen) && a !in frontier && Edge(edges, a, b) ==> b in seen)
  }

  lemma StillExplored(edges: Adj, start: NodeId, current: NodeId, rest: seq<NodeId>, seen0: set<NodeId>,
                      frontier: seq<NodeId>, seen: set<NodeId>)
    requires Explored(edges, start, rest + [current], seen0) && current in edges
    requires seen0 <= seen <= edges.Keys
    requires forall n :: n in frontier ==> n in edges && (n == start || n in seen)
    requires forall n :: n in seen ==> Reaches(edges, start, n)
    requires forall b :: b in edges[current] ==> b in seen
    requires forall n :: n in rest || (n in seen && n !in seen0) ==> n in frontier
    ensures Explored(edges, start, frontier, seen)
  {
    forall a, b | (a == start || a in seen) && a !in frontier && Edge(edges, a, b)
      ensures b in seen
    {
      if a != current {
        assert a !in rest;
        assert a == start || a in seen0;
        assert a !in rest + [current];
        OldNeighbour(edges, start, rest + [current], seen0, a, b);
      } else {
        assert b in edges[current];
      }
    }
  }

  lemma OldNeighbour(edges: Adj, start: NodeId, frontier: seq<NodeId>, seen: set<NodeId>, a: NodeId, b: NodeId)
    requires Explored(edges, start, frontier, seen)
    requires (a == start || a in seen) && a !in frontier && Edge(edges, a, b)
    ensures b in seen
  {
  }

  /** Visit one node: push every neighbour not seen before. */
  method Expand(edges: Adj, ghost start: NodeId, current: NodeId, rest: seq<NodeId>, seen0: set<NodeId>)
    returns (frontier: seq<NodeId>, seen: set<NodeId>)
    requires Closed(edges) && Explored(edges, start, rest + [current], seen0)
    ensures Explored(edges, start, frontier, seen)
    ensures |edges.Keys - seen| < |edges.Keys - seen0| || (seen == seen0 && frontier == rest)
  {
    frontier, seen := rest, seen0;
    assert current in rest + [current];
    assert forall n :: n in rest ==> n in rest + [current];
    var out := edges[current];
    for i := 0 to |out|
      invariant seen0 <= seen <= edges.Keys
      invariant forall n :: n in frontier ==> n in edges && (n == start || n in seen)
      invariant forall n :: n in seen ==> Reaches(edges, start, n)
      invariant forall b :: b in out[..i] ==> b in seen
      invariant forall n :: n in rest ==> n in frontier
      invariant forall n :: n in seen && n !in seen0 ==> n in frontier
      invariant seen == seen0 ==> frontier == rest
    {
      var nxt := out[i];
      if nxt !in seen {
        Extend(edges, start, current, nxt);
        seen := seen + {nxt};
        frontier := frontier + [nxt];
      }
    }
    StillExplored(edges, start, current, rest, seen0, frontier, seen);
    SubsetCard(edges.Keys - seen, edges.Keys - seen0);
    if seen != seen0 {
      var n :| n in seen && n !in seen0;
      assert n in edges.Keys - seen0;
    }
  }

  lemma Extend(edges: Adj, start: NodeId, current: NodeId, nxt: NodeId)
    requires Closed(edges) && current in edges && nxt in edges[current]
    requires current == start || Reaches(edges, start, current)
    ensures Reaches(edges, start, nxt)
  {
    EdgeReaches(edges, current, nxt);
    if current != start {
      ReachesTrans(edges, start, current, nxt);
    }
  }

  lemma ReachIsCone(edges: Adj, start: NodeId, seen: set<NodeId>)
    requires start in edges && seen <= edges.Keys
    requires forall n :: n in seen ==> Reaches(edges, start, n)
    requires forall a, b :: (a == start || a in seen) && Edge(edges, a, b) ==> b in seen
    ensures seen == Cone(edges, start)
  {
    forall n | n in Cone(edges, start)
      ensures n in seen
    {
      var first := FirstStep(edges, start, n);
      if first != n {
        ClosedUnderReach(edges, seen, first, n);
      }
    }
  }

  // ---- Ancestors, descendants, staleness -----------------------------------

  ghost function Ancestors(g: PlanGraph, n: NodeId): set<NodeId> {
    Cone(g.deps, n)
  }

  ghost function Descendants(g: PlanGraph, n: NodeId): set<NodeId> {
    Cone(g.dependents, n)
  }

  /** One node is upstream of another exactly when the other is downstream of it, and never of itself. */
  lemma AncestorsConverse(g: PlanGraph, a: NodeId, b: NodeId)
    requires Sound(g)
    ensures a in Ancestors(g, b) <==> b in Descendants(g, a)
    ensures a !in Ancestors(g, a)
  {
    TransposedReaches(g.deps, g.dependents, b, a);
    InCone(g.deps, b, a);
    InCone(g.dependents, a, b);
    InCone(g.deps, a, a);
  }

  lemma InCone(adj: Adj, a: NodeId, b: NodeId)
    ensures b in Cone(adj, a) <==> Reaches(adj, a, b)
  {
    if Reaches(adj, a, b) {
      ReachesInside(adj, a, b);
    }
  }

  method AncestorsOf(g: PlanGraph, n: NodeId) returns (r: Result<set<NodeId>, GraphError>)
    requires Sound(g)
    ensures n !in g.deps <==> r == Err(NoSuchNode(n))
    ensures n in g.deps ==> r == Ok(Ancestors(g, n))
  {
    AncestorsConverse(g, n, n);
    assert Ancestors(g, n) - {n} == Ancestors(g, n);
    r := Reach(g.deps, n);
  }

  method DescendantsOf(g: PlanGraph, n: NodeId) returns (r: Result<set<NodeId>, GraphError>)
    requires Sound(g)
    ensures n !in g.deps <==> r == Err(NoSuchNode(n))
    ensures n in g.deps ==> r == Ok(Descendants(g, n))
  {
    AncestorsConverse(g, n, n);
    assert Descendants(g, n) - {n} == Descendants(g, n);
    r := Reach(g.dependents, n);
  }

  ghost predicate ClosedDownstream(deps: Adj, s: set<NodeId>) {
    forall a, b :: a in s && Edge(deps, b, a) ==> b in s
  }

  method MarkStale(g: PlanGraph, changed: NodeId) returns (r: Result<set<NodeId>, GraphError>)
    requires Sound(g)
    ensures changed !in g.deps <==> r == Err(NoSuchNode(changed))
    ensures changed in g.deps ==> r == Ok(Stale(g, changed))
  {
    var below := DescendantsOf(g, changed);
    if below.Err? {
      return below;
    }
    r := Ok(below.value + {changed});
  }

  /** The stale set is the least set holding the changed node and closed under dependants. */
  lemma StaleIsLeast(g: PlanGraph, x: NodeId, s: set<NodeId>)
    requires Sound(g) && x in g.deps
    ensures ClosedDownstream(g.deps, Stale(g, x))
    ensures x in s && ClosedDownstream(g.deps, s) ==> Stale(g, x) <= s
  {
    forall a, b | a in Stale(g, x) && Edge(g.deps, b, a)
      ensures b in Descendants(g, x)
    {
      assert Edge(g.dependents, a, b);
      Extend(g.dependents, x, a, b);
    }
    if x in s && ClosedDownstream(g.deps, s) {
      forall n | n in Descendants(g, x)
        ensures n in s
      {
        forall a, b | a in s && Edge(g.dependents, a, b)
          ensures b in s
        {
          assert Edge(g.deps, b, a);
        }
        ClosedUnderReach(g.dependents, s, x, n);
      }
    }
  }

  // ---- Sub-plans ----------------------------------------------------------------

  function CloneNode(g: PlanGraph, ids: set<NodeId>, n: NodeId): NodeSpec
    requires n in g.nodes && n in g.deps
  {
    g.nodes[n].(dependsOn := Filter(g.deps[n], d => d in ids))
  }

  function Clones(g: PlanGraph, ids: set<NodeId>, kept: seq<NodeId>): (r: seq<NodeSpec>)
    requires forall n :: n in kept ==> n in g.nodes && n in g.deps
    ensures |r| == |kept|
    ensures forall i :: 0 <= i < |kept| ==> r[i] == CloneNode(g, ids, kept[i])
  {
    seq(|kept|, i requires 0 <= i < |kept| => CloneNode(g, ids, kept[i]))
  }

  /** Nodes in plan order, edges inside the set only; an unknown id is refused. */
  function Subgraph(g: PlanGraph, ids: set<NodeId>): (r: Result<Plan, GraphError>)
    requires Sound(g)
    ensures r.Err? <==> !(ids <= g.nodes.Keys)
  {
    if !(ids <= g.nodes.Keys) then Err(UnknownIds(ids - g.nodes.Keys))
    else
      var kept := InOrder(g.order, ids);
      assert forall n :: n in kept ==> n in ToSet(g.order);
      Ok(Plan(Clones(g, ids, kept), g.plan.version, g.plan.rationale, g.plan.supersedes))
  }

  lemma {:induction false} DedupId(xs: seq<NodeId>)
    requires Distinct(xs)
    ensures Dedup(xs) == xs
  {
    if xs != [] {
      var n := |xs| - 1;
      DedupId(xs[..n]);
      assert xs == xs[..n] + [xs[n]];
    }
  }

  /** The same node but for what it waits for. */
  predicate SameBut(s: NodeSpec, t: NodeSpec) {
    && s.id == t.id && s.maxAttempts == t.maxAttempts && s.needsApproval == t.needsApproval && s.rollback == t.rollback
  }

  /** The sub-plan's nodes stand in plan order and keep all they had but for dependencies, and the plan its version. */
  lemma SubgraphKeeps(g: PlanGraph, ids: set<NodeId>)
    requires Sound(g) && ids <= g.deps.Keys
    ensures var sub := Subgraph(g, ids).value;
      && Ids(sub.nodes) == InOrder(g.order, ids)
      && (forall s :: s in sub.nodes ==> s.id in g.nodes && SameBut(s, g.nodes[s.id]))
      && sub.version == g.plan.version && sub.rationale == g.plan.rationale && sub.supersedes == g.plan.supersedes
  {
    var kept := InOrder(g.order, ids);
    assert forall n :: n in kept ==> n in ToSet(g.order);
    assert Ids(Subgraph(g, ids).value.nodes) == kept;
  }

  /** The sub-plan's dependency lists are the old ones restricted to the set. */
  lemma SubgraphDeps(g: PlanGraph, ids: set<NodeId>)
    requires Sound(g) && ids <= g.deps.Keys
    ensures var sub := Subgraph(g, ids).value;
      && Distinct(Ids(sub.nodes))
      && DepMap(sub.nodes).Keys == ids
      && (forall n :: n in ids ==> DepMap(sub.nodes)[n] == Filter(g.deps[n], d => d in ids))
  {
    var kept := InOrder(g.order, ids);
    var sub := Subgraph(g, ids).value;
    forall n
      ensures n in kept <==> n in ids
    {
      assert n in g.order <==> n in ToSet(g.order);
    }
    assert Ids(sub.nodes) == kept;
    DepMapAt(sub.nodes);
    forall n | n in ids
      ensures DepMap(sub.nodes)[n] == Filter(g.deps[n], d => d in ids)
    {
      var i :| 0 <= i < |kept| && kept[i] == n;
      DedupId(Filter(g.deps[n], d => d in ids));
      assert DepMap(sub.nodes)[sub.nodes[i].id] == Dedup(sub.nodes[i].dependsOn);
    }
    assert DepMap(sub.nodes).Keys == ids;
  }

  /** Any extracted sub-plan is itself accepted. */
  lemma SubgraphAccepted(g: PlanGraph, ids: set<NodeId>)
    requires Sound(g) && ids <= g.deps.Keys
    ensures Accepted(Subgraph(g, ids).value)
  {
    SubgraphDeps(g, ids);
    var sub := Subgraph(g, ids).value;
    var small := DepMap(sub.nodes);
    DepMapAt(sub.nodes);
    forall a | a in small && Reaches(small, a, a)
      ensures false
    {
      ReachesMonotone(small, g.deps, a, a);
    }
    forall i, d | 0 <= i < |sub.nodes| && d in sub.nodes[i].dependsOn
      ensures d in Ids(sub.nodes)
    {
      assert d in small[sub.nodes[i].id];
      assert Ids(sub.nodes)[i] in Ids(sub.nodes);
    }
  }

  ghost function Stale(g: PlanGraph, x: NodeId): set<NodeId> {
    Descendants(g, x) + {x}
  }

  /**
   The repair plan carved out for a stale node: accepted, rooted only at that
   node, with exactly the original reachability between its members.
   */
  lemma StalePlanFaithful(g: PlanGraph, x: NodeId)
    requires Sound(g) && x in g.deps
    ensures Subgraph(g, Stale(g, x)).Ok?
    ensures var sub := Subgraph(g, Stale(g, x)).value;
      && Accepted(sub)
      && DepMap(sub.nodes).Keys == Stale(g, x)
      && (forall n :: n in Stale(g, x) ==> (DepMap(sub.nodes)[n] == [] <==> n == x))
      && forall a, b :: a in Stale(g, x) && b in Stale(g, x) ==>
           (Reaches(DepMap(sub.nodes), a, b) <==> Reaches(g.deps, a, b))
  {
    var stale := Stale(g, x);
    SubgraphDeps(g, stale);
    SubgraphAccepted(g, stale);
    var small := DepMap(Subgraph(g, stale).value.nodes);
    forall n | n in stale
      ensures small[n] == [] <==> n == x
    {
      StaleRoot(g, x, n);
    }
    forall a, b | a in stale && b in stale
      ensures Reaches(small, a, b) <==> Reaches(g.deps, a, b)
    {
      StaleReach(g, x, small, a, b);
    }
  }

  lemma StaleReach(g: PlanGraph, x: NodeId, small: Adj, a: NodeId, b: NodeId)
    requires Sound(g) && x in g.deps && a in Stale(g, x) && b in Stale(g, x)
    requires small.Keys == Stale(g, x)
    requires forall n :: n in small ==> n in g.deps && small[n] == Filter(g.deps[n], d => d in Stale(g, x))
    ensures Reaches(small, a, b) <==> Reaches(g.deps, a, b)
  {
    if Reaches(small, a, b) {
      ReachesMonotone(small, g.deps, a, b);
    }
    if Reaches(g.deps, a, b) {
      StaleIsLeast(g, x, {});
      var p :| Walk(g.deps, p, a, b);
      KeepPath(g.deps, small, Stale(g, x), p);
      assert Walk(small, p, a, b);
    }
  }

  lemma StaleRoot(g: PlanGraph, x: NodeId, n: NodeId)
    requires Sound(g) && x in g.deps
    requires n in Stale(g, x)
    ensures n in g.deps
    ensures Filter(g.deps[n], d => d in Stale(g, x)) == [] <==> n == x
  {
    var stale := Stale(g, x);
    var kept := Filter(g.deps[n], d => d in stale);
    if n == x {
      forall d
        ensures d !in kept
      {
        if d in kept {
          assert Edge(g.deps, x, d);
          EdgeReaches(g.deps, x, d);
          AncestorsConverse(g, d, x);
          AncestorsConverse(g, x, d);
          if d != x {
            ReachesTrans(g.deps, x, d, x);
          }
        }
      }
      EmptySeq(kept);
    } else {
      var b := LastStep(g.dependents, x, n);
      if b != x {
        ReachesInside(g.dependents, x, b);
      }
      assert Edge(g.deps, n, b);
      assert b in kept;
    }
  }

  /** A dependency path that ends inside a set closed under dependants stays inside it. */
  lemma {:induction false} KeepPath(deps: Adj, small: Adj, s: set<NodeId>, p: seq<NodeId>)
    requires ClosedDownstream(deps, s) && IsPath(deps, p) && p[|p| - 1] in s
    requires small.Keys == s && forall n :: n in s ==> n in deps && small[n] == Filter(deps[n], d => d in s)
    ensures p[0] in s && IsPath(small, p)
  {
    if |p| > 1 {
      KeepPath(deps, small, s, p[1..]);
    }
  }
}
