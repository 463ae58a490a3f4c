/** keel/planner.py, revise_from_evidence: what the inserted stage changes. */
module Replan {
  import opened Prelude
  import opened Digraph
  import opened PlanGraphs
  import opened Planner

  function Reseated(node: NodeSpec): NodeSpec {
    if node.id == IMPLEMENT then node.(dependsOn := [DESIGN, REFACTOR]) else node
  }

  lemma {:induction false} RewiredAt(nodes: seq<NodeSpec>, reason: string)
    ensures var r := RewiredAll(nodes, SeamRequest(reason));
      && |r| == |nodes|
      && forall i :: 0 <= i < |nodes| ==> r[i] == Reseated(nodes[i])
  {
    if nodes != [] {
      var n := |nodes| - 1;
      RewiredAt(nodes[..n], reason);
      var removed := SeamRequest(reason).remove;
      FilterWhole(nodes[n].dependsOn, d => d !in removed);
    }
  }

  /** The revised adjacency: the old one, with the implementation rewired and the seam added. */
  ghost predicate SeamInserted(deps: Adj, next: Adj) {
    && REFACTOR !in deps
    && next.Keys == deps.Keys + {REFACTOR}
    && next[REFACTOR] == [DESIGN]
    && (IMPLEMENT in deps ==> next[IMPLEMENT] == [DESIGN, REFACTOR])
    && forall n :: n in deps && n != IMPLEMENT ==> next[n] == deps[n]
  }

  lemma RevisedDeps(plan: Plan, reason: string)
    requires Accepted(plan) && REFACTOR !in Ids(plan.nodes)
    ensures var next := Revised(plan, SeamRequest(reason));
      && Distinct(Ids(next.nodes))
      && Ids(next.nodes) == Ids(plan.nodes) + [REFACTOR]
      && SeamInserted(DepMap(plan.nodes), DepMap(next.nodes))
  {
    var next := Revised(plan, SeamRequest(reason));
    RewiredAt(plan.nodes, reason);
    assert Ids(next.nodes) == Ids(plan.nodes) + [REFACTOR];
    ReseatedDeps(plan.nodes, next.nodes);
  }

  lemma SmallDedups()
    ensures Dedup([DESIGN]) == [DESIGN] && Dedup([DESIGN, REFACTOR]) == [DESIGN, REFACTOR]
  {
    assert [DESIGN][..0] == [];
    assert [DESIGN, REFACTOR][..1] == [DESIGN];
  }

  ghost predicate Reseats(nodes: seq<NodeSpec>, next: seq<NodeSpec>) {
    && Distinct(Ids(nodes)) && REFACTOR !in Ids(nodes) && Ids(next) == Ids(nodes) + [REFACTOR]
    && |next| == |nodes| + 1 && next[|nodes|] == SEAM
    && forall i :: 0 <= i < |nodes| ==> next[i] == Reseated(nodes[i])
  }

  lemma ReseatedDeps(nodes: seq<NodeSpec>, next: seq<NodeSpec>)
    requires Reseats(nodes, next)
    ensures SeamInserted(DepMap(nodes), DepMap(next))
  {
    ReseatedKeys(nodes, next);
    ReseatedSeam(nodes, next);
    forall n | n in DepMap(nodes)
      ensures n in DepMap(next) && DepMap(next)[n] == if n == IMPLEMENT then [DESIGN, REFACTOR] else DepMap(nodes)[n]
    {
      ReseatedAt(nodes, next, n);
    }
  }

  lemma ReseatedSeam(nodes: seq<NodeSpec>, next: seq<NodeSpec>)
    requires Reseats(nodes, next)
    ensures REFACTOR in DepMap(next) && DepMap(next)[REFACTOR] == [DESIGN]
  {
    DepMapAt(next);
    SmallDedups();
    assert Ids(next)[|nodes|] == REFACTOR;
    assert DepMap(next)[next[|nodes|].id] == Dedup(next[|nodes|].dependsOn);
  }

  lemma ReseatedAt(nodes: seq<NodeSpec>, next: seq<NodeSpec>, n: NodeId)
    requires Reseats(nodes, next) && n in DepMap(nodes)
    ensures n in DepMap(next) && DepMap(next)[n] == if n == IMPLEMENT then [DESIGN, REFACTOR] else DepMap(nodes)[n]
  {
    DepMapAt(nodes);
    DepMapAt(next);
    SmallDedups();
    var i :| 0 <= i < |nodes| && Ids(nodes)[i] == n;
    assert Ids(next)[i] == n;
    assert DepMap(next)[next[i].id] == Dedup(next[i].dependsOn);
  }

  lemma ReseatedKeys(nodes: seq<NodeSpec>, next: seq<NodeSpec>)
    requires Reseats(nodes, next)
    ensures DepMap(next).Keys == DepMap(nodes).Keys + {REFACTOR} && REFACTOR !in DepMap(nodes)
  {
    DepMapAt(nodes);
    DepMapAt(next);
    assert forall n :: n in Ids(next) <==> n in Ids(nodes) || n == REFACTOR;
  }

  /**
   Two graphs that agree outside a set: a walk of one either carries over
   to the other, or carries over as far as some node of that set.
   */
  lemma {:induction false} Transfer(a: Adj, b: Adj, differ: set<NodeId>, p: seq<NodeId>) returns (x: Option<NodeId>)
    requires Closed(b) && forall n :: n in a && n !in differ ==> n in b && b[n] == a[n]
    requires IsPath(a, p) && |p| >= 2
    ensures x.None? ==> Reaches(b, p[0], p[|p| - 1])
    ensures x.Some? ==> x.value in differ && (x.value == p[0] || Reaches(b, p[0], x.value)) && Reaches(a, x.value, p[|p| - 1])
  {
    if p[0] in differ {
      x := Some(p[0]);
      assert Walk(a, p, p[0], p[|p| - 1]);
    } else {
      EdgeReaches(b, p[0], p[1]);
      if |p| == 2 {
        x := None;
      } else {
        x := Transfer(a, b, differ, p[1..]);
        if x.None? {
          ReachesTrans(b, p[0], p[1], p[|p| - 1]);
        } else if x.value != p[1] {
          ReachesTrans(b, p[0], p[1], x.value);
        }
      }
    }
  }

  lemma TransferReach(a: Adj, b: Adj, differ: set<NodeId>, m: NodeId, n: NodeId) returns (x: Option<NodeId>)
    requires Closed(b) && forall n :: n in a && n !in differ ==> n in b && b[n] == a[n]
    requires Reaches(a, m, n)
    ensures x.None? ==> Reaches(b, m, n)
    ensures x.Some? ==> x.value in differ && (x.value == m || Reaches(b, m, x.value)) && Reaches(a, x.value, n)
  {
    var p :| Walk(a, p, m, n);
    x := Transfer(a, b, differ, p);
  }

  /** The design stage and everything upstream of it. */
  ghost function DesignSide(deps: Adj): set<NodeId> {
    Cone(deps, DESIGN) + {DESIGN}
  }

  ghost predicate Insertable(deps: Adj, next: Adj) {
    Closed(deps) && Acyclic(deps) && SeamInserted(deps, next) && DESIGN in deps && !Reaches(deps, DESIGN, IMPLEMENT)
  }

  lemma DesignSideClosed(deps: Adj, next: Adj)
    requires Insertable(deps, next)
    ensures Closed(next)
    ensures REFACTOR !in DesignSide(deps) && IMPLEMENT !in DesignSide(deps)
    ensures forall x, y :: x in DesignSide(deps) && Edge(next, x, y) ==> y in DesignSide(deps)
    ensures forall x, y :: x in DesignSide(deps) + {REFACTOR} && Edge(next, x, y) ==> y in DesignSide(deps)
  {
    forall x, y | x in next && y in next[x]
      ensures y in next
    {
    }
    forall x, y | x in DesignSide(deps) && Edge(next, x, y)
      ensures y in DesignSide(deps)
    {
      EdgeReaches(deps, x, y);
      if x != DESIGN {
        ReachesTrans(deps, DESIGN, x, y);
      }
    }
  }

  /** In the revised graph the implementation depends on the seam, the design, and what the design needs. */
  lemma AfterImplement(deps: Adj, next: Adj, n: NodeId)
    requires Insertable(deps, next) && IMPLEMENT in deps
    ensures Reaches(next, IMPLEMENT, n) <==> n in DesignSide(deps) + {REFACTOR}
  {
    DesignSideClosed(deps, next);
    if Reaches(next, IMPLEMENT, n) {
      var b := FirstStep(next, IMPLEMENT, n);
      if b != n {
        ClosedUnderReach(next, DesignSide(deps) + {REFACTOR}, b, n);
      }
    }
    EdgeReaches(next, IMPLEMENT, DESIGN);
    EdgeReaches(next, IMPLEMENT, REFACTOR);
    if n in DesignSide(deps) && n != DESIGN {
      var x := TransferReach(deps, next, {IMPLEMENT}, DESIGN, n);
      if x.Some? {
        ClosedUnderReach(next, DesignSide(deps), DESIGN, IMPLEMENT);
      }
      ReachesTrans(next, IMPLEMENT, DESIGN, n);
    }
  }

  lemma InsertedAcyclic(deps: Adj, next: Adj)
    requires Insertable(deps, next)
    ensures Acyclic(next)
  {
    DesignSideClosed(deps, next);
    forall a | a in next && Reaches(next, a, a)
      ensures false
    {
      var x := TransferReach(next, deps, {IMPLEMENT, REFACTOR}, a, a);
      if x == Some(REFACTOR) {
        if a != REFACTOR {
          ReachesInside(deps, a, REFACTOR);
        }
        var b := FirstStep(next, REFACTOR, a);
        ClosedUnderReach(next, DesignSide(deps), DESIGN, REFACTOR);
      } else if x == Some(IMPLEMENT) {
        ReachesInside(next, IMPLEMENT, a);
        AfterImplement(deps, next, a);
        if a in DesignSide(deps) && a != DESIGN {
          ReachesTrans(deps, DESIGN, a, IMPLEMENT);
        } else if a == REFACTOR {
          ReachesInside(deps, a, IMPLEMENT);
        }
      }
    }
  }

  /** If the implementation is upstream of the design, rewiring it closes a cycle. */
  lemma InsertedCyclic(deps: Adj, next: Adj)
    requires Closed(next) && Acyclic(deps) && SeamInserted(deps, next) && Reaches(deps, DESIGN, IMPLEMENT)
    ensures !Acyclic(next)
  {
    ReachesInside(deps, DESIGN, IMPLEMENT);
    var x := TransferReach(deps, next, {IMPLEMENT}, DESIGN, IMPLEMENT);
    EdgeReaches(next, IMPLEMENT, DESIGN);
    assert DESIGN != IMPLEMENT;
    ReachesTrans(next, IMPLEMENT, DESIGN, IMPLEMENT);
  }

  /**
   Exactly when the revised plan is accepted: the design stage exists and the
   implementation, if there is one, is not upstream of it.
   */
  lemma RevisedAccepted(plan: Plan, reason: string)
    requires Accepted(plan) && REFACTOR !in Ids(plan.nodes)
    ensures Accepted(Revised(plan, SeamRequest(reason))) <==>
      DESIGN in Ids(plan.nodes) && !Reaches(DepMap(plan.nodes), DESIGN, IMPLEMENT)
  {
    var next := Revised(plan, SeamRequest(reason));
    var deps, deps' := DepMap(plan.nodes), DepMap(next.nodes);
    RevisedDeps(plan, reason);
    AcceptedClosed(plan);
    RewiredAt(plan.nodes, reason);
    if DESIGN in Ids(plan.nodes) {
      assert KnownDeps(next.nodes);
      if Reaches(deps, DESIGN, IMPLEMENT) {
        if Accepted(next) {
          AcceptedClosed(next);
          InsertedCyclic(deps, deps');
        }
      } else {
        InsertedAcyclic(deps, deps');
      }
    } else {
      assert next.nodes[|plan.nodes|] == SEAM;
      assert DESIGN in SEAM.dependsOn && DESIGN !in Ids(next.nodes);
    }
  }

  ghost predicate SameReach(ids: set<NodeId>, a: Adj, b: Adj) {
    forall m, n :: m in ids && n in ids ==> (Reaches(a, m, n) <==> Reaches(b, m, n))
  }

  /**
   Exactly when an accepted revision leaves the old nodes' order alone: the
   implementation waited for the design and for nothing the design does not need.
   */
  lemma RevisedReach(plan: Plan, reason: string)
    requires Accepted(plan) && REFACTOR !in Ids(plan.nodes) && Accepted(Revised(plan, SeamRequest(reason)))
    ensures var deps, next := DepMap(plan.nodes), DepMap(Revised(plan, SeamRequest(reason)).nodes);
      SameReach(deps.Keys, deps, next) <==>
        (IMPLEMENT in deps ==> Cone(deps, IMPLEMENT) == Cone(deps, DESIGN) + {DESIGN})
  {
    var deps, next := DepMap(plan.nodes), DepMap(Revised(plan, SeamRequest(reason)).nodes);
    RevisedDeps(plan, reason);
    RevisedAccepted(plan, reason);
    AcceptedClosed(plan);
    DesignSideClosed(deps, next);
    if IMPLEMENT !in deps || Cone(deps, IMPLEMENT) == DesignSide(deps) {
      forall m, n | m in deps && n in deps
        ensures Reaches(deps, m, n) <==> Reaches(next, m, n)
      {
        ReachKept(deps, next, m, n);
      }
    } else {
      var n :| n in Cone(deps, IMPLEMENT) + DesignSide(deps) && !(n in Cone(deps, IMPLEMENT) && n in DesignSide(deps));
      assert n in deps;
      AfterImplement(deps, next, n);
      assert Reaches(next, IMPLEMENT, n) != Reaches(deps, IMPLEMENT, n);
    }
  }

  lemma ReachKept(deps: Adj, next: Adj, m: NodeId, n: NodeId)
    requires Insertable(deps, next) && m in deps && n in deps
    requires IMPLEMENT in deps ==> Cone(deps, IMPLEMENT) == DesignSide(deps)
    ensures Reaches(deps, m, n) <==> Reaches(next, m, n)
  {
    DesignSideClosed(deps, next);
    if IMPLEMENT in deps {
      AfterImplement(deps, next, n);
    }
    if Reaches(deps, m, n) {
      var x := TransferReach(deps, next, {IMPLEMENT}, m, n);
      if x.Some? {
        ReachesInside(deps, IMPLEMENT, n);
        if m != IMPLEMENT {
          ReachesTrans(next, m, IMPLEMENT, n);
        }
      }
    }
    if Reaches(next, m, n) {
      var x := TransferReach(next, deps, {IMPLEMENT, REFACTOR}, m, n);
      if x == Some(REFACTOR) {
        ReachesInside(deps, m, REFACTOR);
      } else if x == Some(IMPLEMENT) {
        if m != IMPLEMENT {
          ReachesInside(deps, m, IMPLEMENT);
          ReachesTrans(deps, m, IMPLEMENT, n);
        }
      }
    }
  }

  /** The plan is revised at most once, and every revision moves the version on by one. */
  lemma SecondRevisionRefused(plan: Plan, first: Evidence, second: Evidence, reason: string)
    requires ReviseFromEvidence(plan, first, reason).Some?
    ensures var next := ReviseFromEvidence(plan, first, reason).value;
      && ReviseFromEvidence(next, second, reason) == None
      && next.version == plan.version + 1 && next.supersedes == Some(plan.version)
  {
    var next := ReviseFromEvidence(plan, first, reason).value;
    assert next.nodes[|next.nodes| - 1] == SEAM;
    assert Ids(next.nodes)[|next.nodes| - 1] == REFACTOR;
  }

  /** A planner-built plan can be revised, and the old nodes keep their order. */
  lemma BuiltRevision(brownfield: bool, capabilities: Option<set<StageKind>>, rationale: string, reason: string)
    ensures var plan := BuildPlan(brownfield, capabilities, rationale);
      var next := Revised(plan, SeamRequest(reason));
      && Accepted(next)
      && SameReach(DepMap(plan.nodes).Keys, DepMap(plan.nodes), DepMap(next.nodes))
  {
    var plan := BuildPlan(brownfield, capabilities, rationale);
    var deps := DepMap(plan.nodes);
    BuiltAccepted(brownfield, capabilities, rationale);
    BuiltInOrder(brownfield, capabilities, rationale);
    AcceptedClosed(plan);
    forall n | n in Ids(plan.nodes)
      ensures n != REFACTOR
    {
      var i :| 0 <= i < |plan.nodes| && Ids(plan.nodes)[i] == n;
      BuiltNodes(brownfield, capabilities, rationale, plan.nodes[i]);
    }
    var i := DepOf(plan, IMPLEMENT);
    BuiltNodes(brownfield, capabilities, rationale, plan.nodes[i]);
    RevisedAccepted(plan, reason);
    OnlyDesign(deps);
    RevisedReach(plan, reason);
  }

  /** An implementation whose one dependency is the design waits for exactly what the design needs. */
  lemma OnlyDesign(deps: Adj)
    requires Closed(deps) && IMPLEMENT in deps && forall d :: d in deps[IMPLEMENT] <==> d == DESIGN
    ensures Cone(deps, IMPLEMENT) == Cone(deps, DESIGN) + {DESIGN}
  {
    EdgeReaches(deps, IMPLEMENT, DESIGN);
    forall n
      ensures n in Cone(deps, IMPLEMENT) <==> n in Cone(deps, DESIGN) + {DESIGN}
    {
      if n in Cone(deps, IMPLEMENT) {
        var b := FirstStep(deps, IMPLEMENT, n);
      }
      if n in Cone(deps, DESIGN) {
        ReachesTrans(deps, IMPLEMENT, DESIGN, n);
      }
    }
  }

  // ---- Where a revision forgets an order -----------------------------------------------------

  const SKETCHING: NodeSpec := Node(DESIGN, [], false)
  const LICENSING: NodeSpec := Node(Other(1), [], false)
  const CODING: NodeSpec := Node(IMPLEMENT, [DESIGN, Other(1)], true)

  /** The implementation waits for the design and for one more node. */
  const TWO_INPUTS: Plan := Plan([SKETCHING, LICENSING, CODING], 1, "", None)

  lemma TwoInputs(plan: Plan)
    requires plan == TWO_INPUTS
    ensures Accepted(plan) && DESIGN in Ids(plan.nodes) && IMPLEMENT in Ids(plan.nodes) && REFACTOR !in Ids(plan.nodes)
    ensures Edge(DepMap(plan.nodes), IMPLEMENT, Other(1)) && forall d :: !Edge(DepMap(plan.nodes), DESIGN, d)
  {
    ThreeOrdered(SKETCHING, LICENSING, CODING);
    OrderedAccepted(plan);
    DepMapAt(plan.nodes);
    assert plan.nodes[0] == SKETCHING && plan.nodes[2] == CODING;
  }

  /** The revision is accepted, and the implementation no longer waits for that node. */
  lemma RevisionForgets(plan: Plan, reason: string)
    requires plan == TWO_INPUTS
    ensures Accepted(plan) && REFACTOR !in Ids(plan.nodes) && Accepted(Revised(plan, SeamRequest(reason)))
    ensures var deps, next := DepMap(plan.nodes), DepMap(Revised(plan, SeamRequest(reason)).nodes);
      Reaches(deps, IMPLEMENT, Other(1)) && !Reaches(next, IMPLEMENT, Other(1))
  {
    TwoInputs(plan);
    AcceptedClosed(plan);
    NothingUpstream(DepMap(plan.nodes), DESIGN);
    RevisedAccepted(plan, reason);
    RevisedDeps(plan, reason);
    Forgotten(DepMap(plan.nodes), DepMap(Revised(plan, SeamRequest(reason)).nodes));
  }

  lemma NothingUpstream(deps: Adj, a: NodeId)
    requires forall d :: !Edge(deps, a, d)
    ensures forall n :: !Reaches(deps, a, n)
  {
    if n :| Reaches(deps, a, n) {
      var d := FirstStep(deps, a, n);
    }
  }

  lemma Forgotten(deps: Adj, next: Adj)
    requires Insertable(deps, next) && IMPLEMENT in deps && Edge(deps, IMPLEMENT, Other(1)) && forall n :: !Reaches(deps, DESIGN, n)
    ensures Reaches(deps, IMPLEMENT, Other(1)) && !Reaches(next, IMPLEMENT, Other(1))
  {
    EdgeReaches(deps, IMPLEMENT, Other(1));
    AfterImplement(deps, next, Other(1));
  }
}
