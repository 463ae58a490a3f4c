/** keel/graph.py, PlanGraph.__init__: index the nodes, link both edge directions, refuse cycles. */
module BuildGraph {
  import opened Prelude
  import opened Digraph
  import opened PlanGraphs
  import opened FindCycles
  import opened KahnLevels

  /** Everything a built graph promises about the plan it was built from. */
  ghost predicate Represents(g: PlanGraph, plan: Plan) {
    && g.plan == plan
    && Accepted(plan)
    && g.order == Ids(plan.nodes)
    && g.deps == DepMap(plan.nodes)
    && g.nodes.Keys == g.deps.Keys
    && (forall i :: 0 <= i < |plan.nodes| ==> plan.nodes[i].id in g.nodes && g.nodes[plan.nodes[i].id] == plan.nodes[i])
    && g.index.Keys == g.deps.Keys
    && (forall i :: 0 <= i < |plan.nodes| ==> plan.nodes[i].id in g.index && g.index[plan.nodes[i].id] == i)
    && Transposed(g.deps, g.dependents)
    && DistinctLists(g.dependents)
    && IsLayering(g.order, g.deps, g.levels)
  }

  /** What each refusal means; duplicates are reported before unknown ids, unknown ids before cycles. */
  ghost predicate Refuses(plan: Plan, e: GraphError) {
    match e
    case DuplicateId(id) =>
      exists i, j :: 0 <= i < j < |plan.nodes| && plan.nodes[i].id == plan.nodes[j].id == id
    case UnknownDependency(node, dep) =>
      && Distinct(Ids(plan.nodes))
      && dep !in Ids(plan.nodes)
      && exists i :: 0 <= i < |plan.nodes| && plan.nodes[i].id == node && dep in plan.nodes[i].dependsOn
    case CycleDetected(path) =>
      && Distinct(Ids(plan.nodes)) && KnownDeps(plan.nodes)
      && IsCycle(DepMap(plan.nodes), path)
    case _ => false
  }

  lemma RefusedIsNotAccepted(plan: Plan, e: GraphError)
    requires Refuses(plan, e)
    ensures !Accepted(plan)
  {
    match e {
      case DuplicateId(id) =>
        var i, j :| 0 <= i < j < |plan.nodes| && plan.nodes[i].id == plan.nodes[j].id == id;
        assert Ids(plan.nodes)[i] == Ids(plan.nodes)[j];
      case UnknownDependency(node, dep) =>
      case CycleDetected(path) =>
        if Accepted(plan) {
          AcceptedClosed(plan);
          CycleIsCyclic(DepMap(plan.nodes), path);
        }
      case NoSuchNode(_) =>
      case UnknownIds(_) =>
    }
  }

  method IndexNodes(plan: Plan)
    returns (e: Option<GraphError>, nodes: map<NodeId, NodeSpec>, index: map<NodeId, nat>)
    ensures e.Some? ==> e.value.DuplicateId? && Refuses(plan, e.value)
    ensures e.None? ==> Distinct(Ids(plan.nodes))
    ensures e.None? ==> nodes.Keys == index.Keys == ToSet(Ids(plan.nodes))
    ensures e.None? ==> forall i :: 0 <= i < |plan.nodes| ==>
      plan.nodes[i].id in nodes && nodes[plan.nodes[i].id] == plan.nodes[i] &&
      plan.nodes[i].id in index && index[plan.nodes[i].id] == i
  {
    nodes, index, e := map[], map[], None;
    for k := 0 to |plan.nodes|
      invariant forall n :: n in nodes <==> exists i :: 0 <= i < k && plan.nodes[i].id == n
      invariant nodes.Keys == index.Keys
      invariant forall i :: 0 <= i < k ==>
        plan.nodes[i].id in nodes && nodes[plan.nodes[i].id] == plan.nodes[i] && index[plan.nodes[i].id] == i
    {
      var node := plan.nodes[k];
      if node.id in nodes {
        return Some(DuplicateId(node.id)), nodes, index;
      }
      nodes := nodes[node.id := node];
      index := index[node.id := k];
    }
    var ids := Ids(plan.nodes);
    forall i, j | 0 <= i < j < |ids|
      ensures ids[i] != ids[j]
    {
      assert index[plan.nodes[i].id] == i && index[plan.nodes[j].id] == j;
    }
    forall n
      ensures n in nodes <==> n in ids
    {
      if n in nodes {
        var i :| 0 <= i < |plan.nodes| && plan.nodes[i].id == n;
        assert ids[i] == n;
      }
    }
  }

  /** The dependency lists, or the first dependency that names no node. */
  method LinkDependencies(plan: Plan) returns (e: Option<GraphError>, deps: Adj)
    requires Distinct(Ids(plan.nodes))
    ensures e.Some? ==> Refuses(plan, e.value)
    ensures e.None? ==> KnownDeps(plan.nodes) && deps == DepMap(plan.nodes)
  {
    var ids := Ids(plan.nodes);
    deps, e := map[], None;
    for k := 0 to |plan.nodes|
      invariant deps == DepMap(plan.nodes[..k])
      invariant forall i, d :: 0 <= i < k && d in plan.nodes[i].dependsOn ==> d in ids
    {
      var node := plan.nodes[k];
      var seen: seq<NodeId> := [];
      for j := 0 to |node.dependsOn|
        invariant seen == Dedup(node.dependsOn[..j])
        invariant forall d :: d in node.dependsOn[..j] ==> d in ids
      {
        var dep := node.dependsOn[j];
        if dep !in ids {
          return Some(UnknownDependency(node.id, dep)), deps;
        }
        assert node.dependsOn[..j + 1][..j] == node.dependsOn[..j];
        seen := if dep in seen then seen else seen + [dep];
      }
      assert node.dependsOn[..|node.dependsOn|] == node.dependsOn;
      assert plan.nodes[..k + 1][..k] == plan.nodes[..k];
      deps := deps[node.id := seen];
    }
    assert plan.nodes[..|plan.nodes|] == plan.nodes;
  }

  /** The dependents after the nodes in done have been linked to their dependencies. */
  ghost predicate Linked(deps: Adj, dependents: Adj, done: set<NodeId>) {
    && dependents.Keys == deps.Keys
    && DistinctLists(dependents)
    && forall a, b :: a in deps ==> (b in dependents[a] <==> b in done && Edge(deps, b, a))
  }

  lemma LinkOne(deps: Adj, before: Adj, after: Adj, done: set<NodeId>, nid: NodeId)
    requires Closed(deps) && Linked(deps, before, done) && nid in deps && nid !in done
    requires after.Keys == deps.Keys
    requires forall a :: a in deps ==> after[a] == if a in deps[nid] then before[a] + [nid] else before[a]
    ensures Linked(deps, after, done + {nid})
  {
  }

  /** The inner loop of LinkDependents: nid becomes a dependent of each of its dependencies. */
  method LinkNode(nid: NodeId, itsDeps: seq<NodeId>, before: Adj) returns (dependents: Adj)
    requires Distinct(itsDeps) && forall d :: d in itsDeps ==> d in before
    ensures dependents.Keys == before.Keys
    ensures forall a :: a in before ==> dependents[a] == if a in itsDeps then before[a] + [nid] else before[a]
  {
    dependents := before;
    for j := 0 to |itsDeps|
      invariant dependents.Keys == before.Keys
      invariant forall a :: a in before ==> dependents[a] == if a in itsDeps[..j] then before[a] + [nid] else before[a]
    {
      var dep := itsDeps[j];
      assert dep in itsDeps;
      TakeOne(itsDeps, j);
      assert itsDeps[..j + 1] == itsDeps[..j] + [dep];
      dependents := dependents[dep := dependents[dep] + [nid]];
    }
    assert itsDeps[..|itsDeps|] == itsDeps;
  }

  method LinkDependents(order: seq<NodeId>, deps: Adj) returns (dependents: Adj)
    requires Closed(deps) && DistinctLists(deps) && Distinct(order) && ToSet(order) == deps.Keys
    ensures Transposed(deps, dependents) && DistinctLists(dependents)
  {
    dependents := map n | n in deps.Keys :: [];
    ghost var done: set<NodeId> := {};
    for i := 0 to |order|
      invariant done == ToSet(order[..i])
      invariant Linked(deps, dependents, done)
    {
      var nid := order[i];
      TakeOne(order, i);
      assert nid in ToSet(order);
      var before := dependents;
      dependents := LinkNode(nid, deps[nid], before);
      LinkOne(deps, before, dependents, done, nid);
      done := done + {nid};
    }
    assert order[..|order|] == order;
    forall a, b
      ensures Edge(deps, a, b) <==> Edge(dependents, b, a)
    {
    }
  }

  method Build(plan: Plan) returns (r: Result<PlanGraph, GraphError>)
    ensures r.Ok? <==> Accepted(plan)
    ensures r.Ok? ==> Represents(r.value, plan)
    ensures r.Err? ==> Refuses(plan, r.error)
  {
    var e, nodes, index := IndexNodes(plan);
    if e.Some? {
      RefusedIsNotAccepted(plan, e.value);
      return Err(e.value);
    }
    var e', deps := LinkDependencies(plan);
    if e'.Some? {
      RefusedIsNotAccepted(plan, e'.value);
      return Err(e'.value);
    }
    var order := Ids(plan.nodes);
    LinkedDeps(plan);
    var cycle := FindCycle(order, deps);
    if cycle.Some? {
      RefusedIsNotAccepted(plan, CycleDetected(cycle.value));
      return Err(CycleDetected(cycle.value));
    }
    var dependents := LinkDependents(order, deps);
    var levels := ComputeLevels(order, deps, dependents);
    r := Ok(PlanGraph(plan, order, index, nodes, deps, dependents, levels));
  }

  lemma LinkedDeps(plan: Plan)
    requires Distinct(Ids(plan.nodes)) && KnownDeps(plan.nodes)
    ensures Closed(DepMap(plan.nodes)) && DistinctLists(DepMap(plan.nodes))
    ensures ToSet(Ids(plan.nodes)) == DepMap(plan.nodes).Keys
  {
    DepMapAt(plan.nodes);
    var adj := DepMap(plan.nodes);
    forall a | a in adj
      ensures Distinct(adj[a]) && forall b :: b in adj[a] ==> b in adj
    {
      var i :| 0 <= i < |plan.nodes| && plan.nodes[i].id == a;
    }
  }

  /** What the queries rely on; every built graph has it. */
  ghost predicate Sound(g: PlanGraph) {
    && Closed(g.deps) && Closed(g.dependents) && Acyclic(g.deps)
    && Transposed(g.deps, g.dependents)
    && DistinctLists(g.deps)
    && Distinct(g.order) && ToSet(g.order) == g.deps.Keys == g.nodes.Keys
    && (forall n :: n in g.nodes ==> g.nodes[n].id == n)
  }

  lemma BuiltIsSound(g: PlanGraph, plan: Plan)
    requires Represents(g, plan)
    ensures Sound(g)
  {
    AcceptedClosed(plan);
    LinkedDeps(plan);
    forall a, b | a in g.dependents && b in g.dependents[a]
      ensures b in g.dependents
    {
      assert Edge(g.dependents, a, b) && Edge(g.deps, b, a);
    }
    forall n | n in g.nodes
      ensures g.nodes[n].id == n
    {
      assert n in ToSet(g.order);
      var i :| 0 <= i < |plan.nodes| && plan.nodes[i].id == n;
    }
  }
}
