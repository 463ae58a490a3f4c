/** keel/graph.py: validation of a plan and the scheduling queries over it. */
module PlanGraphs {
  import opened Prelude
  import opened Digraph

  // The graph is never changed once built, so it is a value; the loops that build
  // and query it are methods over their own local state.

  datatype NodeSpec = NodeSpec(
    id: NodeId,
    dependsOn: seq<NodeId>,
    maxAttempts: int,     // retry.max_attempts
    needsApproval: bool,  // impact is HIGH
    rollback: bool
  )

  datatype Plan = Plan(nodes: seq<NodeSpec>, version: int, rationale: string, supersedes: Option<int>)

  datatype GraphError =
    | DuplicateId(id: NodeId)
    | UnknownDependency(node: NodeId, dep: NodeId)
    | CycleDetected(path: seq<NodeId>)
    | NoSuchNode(id: NodeId)
    | UnknownIds(ids: set<NodeId>)

  datatype PlanGraph = PlanGraph(
    plan: Plan,
    order: seq<NodeId>,
    index: map<NodeId, nat>,
    nodes: map<NodeId, NodeSpec>,
    deps: Adj,
    dependents: Adj,
    levels: seq<seq<NodeId>>
  )

  // ---- What a plan says -------------------------------------------------

  function Ids(nodes: seq<NodeSpec>): (r: seq<NodeId>)
    ensures |r| == |nodes| && forall i :: 0 <= i < |nodes| ==> r[i] == nodes[i].id
  {
    seq(|nodes|, i requires 0 <= i < |nodes| => nodes[i].id)
  }

  /** Repeated entries dropped, first occurrences kept in order. */
  function Dedup(xs: seq<NodeId>): (r: seq<NodeId>)
    ensures forall x :: x in r <==> x in xs
    ensures Distinct(r)
  {
    if xs == [] then []
    else
      var n := |xs| - 1;
      var r := Dedup(xs[..n]);
      assert xs == xs[..n] + [xs[n]];
      if xs[n] in r then r else r + [xs[n]]
  }

  ghost predicate FirstAt(xs: seq<NodeId>, i: int, x: NodeId) {
    0 <= i < |xs| && xs[i] == x && x !in xs[..i]
  }

  /** What stays is in the order of the first occurrences. */
  lemma {:induction false} DedupInOrder(xs: seq<NodeId>, a: nat, b: nat, i: nat, j: nat)
    requires a < b < |Dedup(xs)| && FirstAt(xs, i, Dedup(xs)[a]) && FirstAt(xs, j, Dedup(xs)[b])
    ensures i < j
  {
    var n := |xs| - 1;
    var r := Dedup(xs[..n]);
    assert Dedup(xs)[a] == r[a] && r[a] in xs[..n];
    StillFirst(xs, i, r[a]);
    if b < |r| {
      assert r[b] in xs[..n];
      StillFirst(xs, j, r[b]);
      DedupInOrder(xs[..n], a, b, i, j);
    }
  }

  lemma StillFirst(xs: seq<NodeId>, i: nat, x: NodeId)
    requires xs != [] && FirstAt(xs, i, x) && x in xs[..|xs| - 1]
    ensures i < |xs| - 1 && FirstAt(xs[..|xs| - 1], i, x)
  {
    if i < |xs| - 1 {
      assert xs[..|xs| - 1][..i] == xs[..i];
    }
  }

  /** Each node's dependencies, deduplicated; defined by the plan's node list alone. */
  function DepMap(nodes: seq<NodeSpec>): Adj {
    if nodes == [] then map[]
    else
      var n := |nodes| - 1;
      DepMap(nodes[..n])[nodes[n].id := Dedup(nodes[n].dependsOn)]
  }

  lemma {:induction false} DepMapAt(nodes: seq<NodeSpec>)
    requires Distinct(Ids(nodes))
    ensures forall n :: n in DepMap(nodes) <==> n in Ids(nodes)
    ensures forall i :: 0 <= i < |nodes| ==> DepMap(nodes)[nodes[i].id] == Dedup(nodes[i].dependsOn)
  {
    if nodes != [] {
      var n := |nodes| - 1;
      assert Ids(nodes)[..n] == Ids(nodes[..n]);
      assert Ids(nodes) == Ids(nodes[..n]) + [nodes[n].id];
      DepMapAt(nodes[..n]);
      forall i | 0 <= i < n
        ensures DepMap(nodes)[nodes[i].id] == Dedup(nodes[i].dependsOn)
      {
        assert nodes[..n][i] == nodes[i];
        assert Ids(nodes)[i] != Ids(nodes)[n];
      }
    }
  }

  ghost predicate KnownDeps(nodes: seq<NodeSpec>) {
    forall i, d :: 0 <= i < |nodes| && d in nodes[i].dependsOn ==> d in Ids(nodes)
  }

  /** The plans the constructor accepts. */
  ghost predicate Accepted(plan: Plan) {
    && Distinct(Ids(plan.nodes))
    && KnownDeps(plan.nodes)
    && Acyclic(DepMap(plan.nodes))
  }

  lemma AcceptedClosed(plan: Plan)
    requires Accepted(plan)
    ensures Closed(DepMap(plan.nodes))
    ensures forall n :: n in DepMap(plan.nodes) <==> n in Ids(plan.nodes)
  {
    DepMapAt(plan.nodes);
    var adj := DepMap(plan.nodes);
    forall a, b | a in adj && b in adj[a]
      ensures b in adj
    {
      var i :| 0 <= i < |plan.nodes| && plan.nodes[i].id == a;
      assert b in plan.nodes[i].dependsOn;
    }
  }

  // ---- Layers -------------------------------------------------------------

  /** The members of s, in plan order. */
  function InOrder(order: seq<NodeId>, s: set<NodeId>): (r: seq<NodeId>)
    ensures forall x :: x in r <==> x in order && x in s
    ensures Distinct(order) ==> Distinct(r)
  {
    Filter(order, x => x in s)
  }

  /** Everything in the first k layers. */
  ghost function Below(levels: seq<seq<NodeId>>, k: nat): set<NodeId>
    requires k <= |levels|
  {
    if k == 0 then {} else Below(levels, k - 1) + ToSet(levels[k - 1])
  }

  /** Layer k: plan order, dependencies all below, at least one of them just below. */
  ghost predicate Layer(order: seq<NodeId>, deps: Adj, levels: seq<seq<NodeId>>, k: nat)
    requires k < |levels|
  {
    && levels[k] != []
    && levels[k] == InOrder(order, ToSet(levels[k]))
    && forall n :: n in levels[k] ==>
         && n in deps && n !in Below(levels, k)
         && (forall d :: d in deps[n] ==> d in Below(levels, k))
         && (k > 0 ==> exists d :: d in deps[n] && d in levels[k - 1])
  }

  /** The layers partition the nodes, and each is a Layer over those before it. */
  ghost predicate IsLayering(order: seq<NodeId>, deps: Adj, levels: seq<seq<NodeId>>) {
    && ToSet(order) == Below(levels, |levels|)
    && forall k {:trigger Layer(order, deps, levels, k)} :: 0 <= k < |levels| ==> Layer(order, deps, levels, k)
  }

  lemma {:induction false} BelowIs(levels: seq<seq<NodeId>>, k: nat, n: NodeId)
    requires k <= |levels|
    ensures n in Below(levels, k) <==> exists j :: 0 <= j < k && n in levels[j]
  {
    if k > 0 {
      BelowIs(levels, k - 1, n);
    }
  }

  lemma {:induction false} BelowGrows(levels: seq<seq<NodeId>>, j: nat, k: nat)
    requires j <= k <= |levels|
    ensures Below(levels, j) <= Below(levels, k)
  {
    if j < k {
      BelowGrows(levels, j, k - 1);
    }
  }

  lemma {:induction false} BelowExtend(levels: seq<seq<NodeId>>, layer: seq<NodeId>, k: nat)
    requires k <= |levels|
    ensures Below(levels + [layer], k) == Below(levels, k)
  {
    if k > 0 {
      BelowExtend(levels, layer, k - 1);
    }
  }

  /** No dependency chain ending at a node of layer k is longer than k + 1. */
  lemma {:induction false} ChainBound(order: seq<NodeId>, deps: Adj, levels: seq<seq<NodeId>>, k: nat, chain: seq<NodeId>)
    requires IsLayering(order, deps, levels) && k < |levels|
    requires IsPath(deps, chain) && chain[0] in levels[k]
    ensures |chain| <= k + 1
  {
    if |chain| > 1 {
      assert Layer(order, deps, levels, k);
      BelowIs(levels, k, chain[1]);
      var j :| 0 <= j < k && chain[1] in levels[j];
      ChainBound(order, deps, levels, j, chain[1..]);
    }
  }

  /** Some dependency chain ending at a node of layer k has k + 1 nodes. */
  lemma {:induction false} ChainExists(order: seq<NodeId>, deps: Adj, levels: seq<seq<NodeId>>, k: nat, n: NodeId)
    returns (chain: seq<NodeId>)
    requires IsLayering(order, deps, levels) && k < |levels| && n in levels[k]
    ensures IsPath(deps, chain) && chain[0] == n && |chain| == k + 1
  {
    assert Layer(order, deps, levels, k);
    if k == 0 {
      chain := [n];
    } else {
      var d :| d in deps[n] && d in levels[k - 1];
      var rest := ChainExists(order, deps, levels, k - 1, d);
      chain := [n] + rest;
      assert chain[1..] == rest;
    }
  }

  /** A node's layer is the length of its longest dependency chain, counted in edges. */
  lemma LayerIsLongestChain(order: seq<NodeId>, deps: Adj, levels: seq<seq<NodeId>>, k: nat, n: NodeId)
    requires IsLayering(order, deps, levels) && k < |levels| && n in levels[k]
    ensures forall chain :: IsPath(deps, chain) && chain[0] == n ==> |chain| <= k + 1
    ensures exists chain :: IsPath(deps, chain) && chain[0] == n && |chain| == k + 1
  {
    forall chain | IsPath(deps, chain) && chain[0] == n
      ensures |chain| <= k + 1
    {
      ChainBound(order, deps, levels, k, chain);
    }
    var chain := ChainExists(order, deps, levels, k, n);
  }

  // ---- What may run now ------------------------------------------------------

  predicate IsReady(deps: Adj, completed: set<NodeId>, n: NodeId) {
    n !in completed && n in deps && forall d :: d in deps[n] ==> d in completed
  }

  function ReadyIds(order: seq<NodeId>, deps: Adj, completed: set<NodeId>): (r: seq<NodeId>)
    ensures forall n :: n in r <==> n in order && IsReady(deps, completed, n)
    ensures Distinct(order) ==> Distinct(r)
  {
    Filter(order, n => IsReady(deps, completed, n))
  }

  /** With exactly the first k layers completed, what is ready is exactly layer k, in order. */
  lemma ReadyIsNextLayer(order: seq<NodeId>, deps: Adj, levels: seq<seq<NodeId>>, k: nat)
    requires IsLayering(order, deps, levels) && k <= |levels|
    ensures ReadyIds(order, deps, Below(levels, k)) == if k < |levels| then levels[k] else []
  {
    var done := Below(levels, k);
    var layer := if k < |levels| then levels[k] else [];
    forall n | n in order
      ensures IsReady(deps, done, n) == (n in ToSet(layer))
    {
      ReadyIffInLayer(order, deps, levels, k, n);
    }
    FilterSame(order, n => IsReady(deps, done, n), n => n in ToSet(layer));
    if k < |levels| {
      assert Layer(order, deps, levels, k);
    } else {
      EmptySeq(InOrder(order, ToSet(layer)));
    }
  }

  lemma ReadyIffInLayer(order: seq<NodeId>, deps: Adj, levels: seq<seq<NodeId>>, k: nat, n: NodeId)
    requires IsLayering(order, deps, levels) && k <= |levels| && n in order
    ensures IsReady(deps, Below(levels, k), n) <==> k < |levels| && n in levels[k]
  {
    var j := LayerOf(order, deps, levels, n);
    var d := AtLayer(order, deps, levels, j, n);
    if j < k {
      InBelow(levels, j, k, n);
      if k < |levels| && n in levels[k] {
        var _ := AtLayer(order, deps, levels, k, n);
      }
    } else if j > k {
      var _ := AtLayer(order, deps, levels, j - 1, d);
      BelowGrows(levels, k, j - 1);
      assert d !in Below(levels, k);
      if n in levels[k] {
        InBelow(levels, k, j, n);
      }
    } else {
      assert IsReady(deps, Below(levels, k), n);
    }
  }

  lemma InBelow(levels: seq<seq<NodeId>>, j: nat, k: nat, n: NodeId)
    requires j < k <= |levels| && n in levels[j]
    ensures n in Below(levels, k)
  {
    BelowIs(levels, k, n);
  }

  lemma LayerOf(order: seq<NodeId>, deps: Adj, levels: seq<seq<NodeId>>, n: NodeId) returns (k: nat)
    requires IsLayering(order, deps, levels) && n in order
    ensures k < |levels| && n in levels[k]
  {
    assert n in ToSet(order);
    BelowIs(levels, |levels|, n);
    k :| 0 <= k < |levels| && n in levels[k];
  }

  lemma AtLayer(order: seq<NodeId>, deps: Adj, levels: seq<seq<NodeId>>, k: nat, n: NodeId) returns (d: NodeId)
    requires IsLayering(order, deps, levels) && k < |levels| && n in levels[k]
    ensures n in deps && n !in Below(levels, k)
    ensures forall e :: e in deps[n] ==> e in Below(levels, k)
    ensures k > 0 ==> d in deps[n] && d in levels[k - 1]
  {
    assert Layer(order, deps, levels, k);
    d := n;
    if k > 0 {
      d :| d in deps[n] && d in levels[k - 1];
    }
  }
}
