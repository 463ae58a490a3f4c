/** Which stages a built plan has, which wait for which, and how each of them runs. */
module BuiltPlans {
  import opened Prelude
  import opened Digraph
  import opened PlanGraphs
  import opened Planner

  predicate Built(analyse: bool, document: bool, n: NodeId) {
    || n in {DESIGN, IMPLEMENT, AUTHOR_TESTS, VERIFY, REVIEW, RELEASE}
    || (n == IMPACT && analyse) || (n == DOCUMENT && document)
  }

  /** analyse, design, then write, then verify, review and release. */
  function Stage(n: NodeId): nat {
    match n
    case IMPACT => 0
    case DESIGN => 1
    case IMPLEMENT => 2
    case AUTHOR_TESTS => 2
    case DOCUMENT => 2
    case VERIFY => 3
    case REVIEW => 4
    case RELEASE => 5
    case _ => 6
  }

  /** Only the release check waits for the documentation. */
  predicate WaitsFor(a: NodeId, b: NodeId) {
    Stage(a) > Stage(b) && (b == DOCUMENT ==> a == RELEASE)
  }

  /** The dependencies of a built plan, one edge per line. */
  ghost predicate BuiltDeps(deps: Adj, analyse: bool, document: bool) {
    && Closed(deps)
    && (forall n :: n in deps <==> Built(analyse, document, n))
    && (forall a, b :: Edge(deps, a, b) <==> Arrow(analyse, document, a, b))
  }

  predicate Arrow(analyse: bool, document: bool, a: NodeId, b: NodeId) {
    || (a == DESIGN && b == IMPACT && analyse)
    || (a in {IMPLEMENT, AUTHOR_TESTS} && b == DESIGN)
    || (a == DOCUMENT && b == DESIGN && document)
    || (a == VERIFY && b in {IMPLEMENT, AUTHOR_TESTS})
    || (a == REVIEW && b == VERIFY)
    || (a == RELEASE && b == REVIEW)
    || (a == RELEASE && b == DOCUMENT && document)
  }

  lemma {:induction false} WalkWaits(deps: Adj, analyse: bool, document: bool, p: seq<NodeId>)
    requires BuiltDeps(deps, analyse, document) && IsPath(deps, p) && |p| >= 2
    ensures WaitsFor(p[0], p[|p| - 1])
  {
    assert Edge(deps, p[0], p[1]) && IsPath(deps, p[1..]);
    if |p| > 2 {
      WalkWaits(deps, analyse, document, p[1..]);
    }
  }

  lemma Hop(deps: Adj, analyse: bool, document: bool, a: NodeId, b: NodeId)
    requires BuiltDeps(deps, analyse, document) && Arrow(analyse, document, a, b)
    ensures Reaches(deps, a, b)
    ensures forall c :: Reaches(deps, b, c) ==> Reaches(deps, a, c)
  {
    assert Edge(deps, a, b);
    EdgeReaches(deps, a, b);
    forall c | Reaches(deps, b, c)
      ensures Reaches(deps, a, c)
    {
      ReachesTrans(deps, a, b, c);
    }
  }

  lemma WaitsReach(deps: Adj, analyse: bool, document: bool)
    requires BuiltDeps(deps, analyse, document)
    ensures forall a, b :: a in deps && b in deps && WaitsFor(a, b) ==> Reaches(deps, a, b)
  {
    if analyse {
      Hop(deps, analyse, document, DESIGN, IMPACT);
    }
    Hop(deps, analyse, document, IMPLEMENT, DESIGN);
    Hop(deps, analyse, document, AUTHOR_TESTS, DESIGN);
    Hop(deps, analyse, document, VERIFY, IMPLEMENT);
    Hop(deps, analyse, document, VERIFY, AUTHOR_TESTS);
    Hop(deps, analyse, document, REVIEW, VERIFY);
    Hop(deps, analyse, document, RELEASE, REVIEW);
    if document {
      Hop(deps, analyse, document, DOCUMENT, DESIGN);
      Hop(deps, analyse, document, RELEASE, DOCUMENT);
    }
  }

  lemma ReachesExactly(deps: Adj, analyse: bool, document: bool, a: NodeId, b: NodeId)
    requires BuiltDeps(deps, analyse, document)
    ensures Reaches(deps, a, b) <==> a in deps && b in deps && WaitsFor(a, b)
  {
    WaitsReach(deps, analyse, document);
    if Reaches(deps, a, b) {
      var p :| Walk(deps, p, a, b);
      WalkWaits(deps, analyse, document, p);
      ReachesInside(deps, a, b);
    }
  }

  /** How a built node runs: what it writes can be undone, and only a change to existing code needs approval. */
  predicate RunsAs(brownfield: bool, s: NodeSpec) {
    && (s.rollback <==> s.id in {IMPLEMENT, AUTHOR_TESTS, DOCUMENT})
    && (s.needsApproval <==> s.id == IMPLEMENT && brownfield)
    && s.maxAttempts == if s.id == VERIFY then 0 else 2
  }

  ghost predicate Described(brownfield: bool, analyse: bool, document: bool, s: NodeSpec) {
    && Built(analyse, document, s.id) && RunsAs(brownfield, s)
    && forall d :: d in s.dependsOn <==> Arrow(analyse, document, s.id, d)
  }

  lemma FirstNode(brownfield: bool, analyse: bool, document: bool, s: NodeSpec)
    requires s in Front(analyse)
    ensures Described(brownfield, analyse, document, s)
  {
  }

  lemma CoreNode(brownfield: bool, analyse: bool, document: bool, s: NodeSpec)
    requires s in Core(analyse, brownfield)
    ensures Described(brownfield, analyse, document, s)
  {
    assert s.id == DESIGN ==> forall d :: d in s.dependsOn <==> d == IMPACT && analyse;
    assert s.id != DESIGN ==> s.dependsOn == [DESIGN];
  }

  lemma LateNode(brownfield: bool, analyse: bool, document: bool, s: NodeSpec)
    requires s in Docs(document) || s in Tail(document)
    ensures Described(brownfield, analyse, document, s)
  {
  }

  lemma BuiltNode(brownfield: bool, capabilities: Option<set<StageKind>>, rationale: string, s: NodeSpec)
    requires s in BuildPlan(brownfield, capabilities, rationale).nodes
    ensures Described(brownfield, brownfield && Available(capabilities, ANALYZE), Available(capabilities, DOCUMENT_STAGE), s)
  {
    var analyse, document := brownfield && Available(capabilities, ANALYZE), Available(capabilities, DOCUMENT_STAGE);
    if s in Front(analyse) {
      FirstNode(brownfield, analyse, document, s);
    } else if s in Core(analyse, brownfield) {
      CoreNode(brownfield, analyse, document, s);
    } else {
      assert s in Docs(document) || s in Tail(document);
      LateNode(brownfield, analyse, document, s);
    }
  }

  lemma BuiltHas(brownfield: bool, capabilities: Option<set<StageKind>>, rationale: string, n: NodeId)
    requires Built(brownfield && Available(capabilities, ANALYZE), Available(capabilities, DOCUMENT_STAGE), n)
    ensures n in Ids(BuildPlan(brownfield, capabilities, rationale).nodes)
  {
    var analyse, document := brownfield && Available(capabilities, ANALYZE), Available(capabilities, DOCUMENT_STAGE);
    var nodes := BuildPlan(brownfield, capabilities, rationale).nodes;
    var s :| s in Front(analyse) + Core(analyse, brownfield) + Docs(document) + Tail(document) && s.id == n by {
      InChunks(analyse, brownfield, document, n);
    }
    var i :| 0 <= i < |nodes| && nodes[i] == s;
    assert Ids(nodes)[i] == n;
  }

  lemma InChunks(analyse: bool, brownfield: bool, document: bool, n: NodeId)
    requires Built(analyse, document, n)
    ensures exists s :: s in Front(analyse) + Core(analyse, brownfield) + Docs(document) + Tail(document) && s.id == n
  {
    var front, core, docs, tail := Front(analyse), Core(analyse, brownfield), Docs(document), Tail(document);
    var s := if n == IMPACT then front[0] else if n == DESIGN then core[0] else if n == IMPLEMENT then core[1]
      else if n == AUTHOR_TESTS then core[2] else if n == DOCUMENT then docs[0]
      else if n == VERIFY then tail[0] else if n == REVIEW then tail[1] else tail[2];
    assert s in front || s in core || s in docs || s in tail;
    assert s in front + core + docs + tail && s.id == n;
  }

  ghost predicate ArrowsFrom(deps: Adj, analyse: bool, document: bool, n: NodeId) {
    (n in deps <==> Built(analyse, document, n)) && forall d :: Edge(deps, n, d) <==> Arrow(analyse, document, n, d)
  }

  lemma DescribedArrows(plan: Plan, brownfield: bool, analyse: bool, document: bool, n: NodeId)
    requires Accepted(plan) && forall s :: s in plan.nodes ==> Described(brownfield, analyse, document, s)
    requires Built(analyse, document, n) ==> n in Ids(plan.nodes)
    ensures ArrowsFrom(DepMap(plan.nodes), analyse, document, n)
  {
    DepMapAt(plan.nodes);
    if n in DepMap(plan.nodes) {
      var i := DepOf(plan, n);
      assert Described(brownfield, analyse, document, plan.nodes[i]);
    }
  }

  lemma AllArrows(deps: Adj, analyse: bool, document: bool)
    requires Closed(deps) && forall n :: ArrowsFrom(deps, analyse, document, n)
    ensures BuiltDeps(deps, analyse, document)
  {
    forall n
      ensures n in deps <==> Built(analyse, document, n)
      ensures forall d :: Edge(deps, n, d) <==> Arrow(analyse, document, n, d)
    {
      assert ArrowsFrom(deps, analyse, document, n);
    }
  }

  lemma BuiltArrows(brownfield: bool, capabilities: Option<set<StageKind>>, rationale: string, plan: Plan)
    requires plan == BuildPlan(brownfield, capabilities, rationale)
    ensures BuiltDeps(DepMap(plan.nodes), brownfield && Available(capabilities, ANALYZE), Available(capabilities, DOCUMENT_STAGE))
  {
    var analyse, document := brownfield && Available(capabilities, ANALYZE), Available(capabilities, DOCUMENT_STAGE);
    BuiltAccepted(brownfield, capabilities, rationale);
    AcceptedClosed(plan);
    forall s | s in plan.nodes
      ensures Described(brownfield, analyse, document, s)
    {
      BuiltNode(brownfield, capabilities, rationale, s);
    }
    forall n
      ensures ArrowsFrom(DepMap(plan.nodes), analyse, document, n)
    {
      if Built(analyse, document, n) {
        BuiltHas(brownfield, capabilities, rationale, n);
      }
      DescribedArrows(plan, brownfield, analyse, document, n);
    }
    AllArrows(DepMap(plan.nodes), analyse, document);
  }

  /**
   For every capability set and both kinds of project: which stages the plan has, that one
   waits for another exactly when its stage is later (documentation is waited for by the
   release check only), and what each node may do.
   */
  lemma BuiltOrder(brownfield: bool, capabilities: Option<set<StageKind>>, rationale: string)
    ensures var plan := BuildPlan(brownfield, capabilities, rationale);
      var analyse, document := brownfield && Available(capabilities, ANALYZE), Available(capabilities, DOCUMENT_STAGE);
      && (forall n :: n in Ids(plan.nodes) <==> Built(analyse, document, n))
      && (forall a, b :: Reaches(DepMap(plan.nodes), a, b) <==>
            Built(analyse, document, a) && Built(analyse, document, b) && WaitsFor(a, b))
      && (forall s :: s in plan.nodes ==> RunsAs(brownfield, s))
      && plan.version == 1 && plan.supersedes == None && plan.rationale == rationale
  {
    var analyse, document := brownfield && Available(capabilities, ANALYZE), Available(capabilities, DOCUMENT_STAGE);
    var plan := BuildPlan(brownfield, capabilities, rationale);
    var deps := DepMap(plan.nodes);
    BuiltArrows(brownfield, capabilities, rationale, plan);
    forall a, b
      ensures Reaches(deps, a, b) <==> Built(analyse, document, a) && Built(analyse, document, b) && WaitsFor(a, b)
    {
      ReachesExactly(deps, analyse, document, a, b);
    }
    forall s | s in plan.nodes
      ensures RunsAs(brownfield, s)
    {
      BuiltNode(brownfield, capabilities, rationale, s);
    }
    BuiltAccepted(brownfield, capabilities, rationale);
    DepMapAt(plan.nodes);
  }

  /** A built plan lists no dependency that another one implies. */
  lemma BuiltMinimal(brownfield: bool, capabilities: Option<set<StageKind>>, rationale: string, a: NodeId, b: NodeId)
    ensures var deps := DepMap(BuildPlan(brownfield, capabilities, rationale).nodes);
      Edge(deps, a, b) <==> Reaches(deps, a, b) && !exists c :: Reaches(deps, a, c) && Reaches(deps, c, b)
  {
    var plan := BuildPlan(brownfield, capabilities, rationale);
    BuiltArrows(brownfield, capabilities, rationale, plan);
    Minimal(DepMap(plan.nodes), brownfield && Available(capabilities, ANALYZE), Available(capabilities, DOCUMENT_STAGE), a, b);
  }

  lemma Minimal(deps: Adj, analyse: bool, document: bool, a: NodeId, b: NodeId)
    requires BuiltDeps(deps, analyse, document)
    ensures Edge(deps, a, b) <==> Reaches(deps, a, b) && !exists c :: Reaches(deps, a, c) && Reaches(deps, c, b)
  {
    ReachesExactly(deps, analyse, document, a, b);
    if Arrow(analyse, document, a, b) {
      forall c
        ensures !(Reaches(deps, a, c) && Reaches(deps, c, b))
      {
        ReachesExactly(deps, analyse, document, a, c);
        ReachesExactly(deps, analyse, document, c, b);
      }
      assert Edge(deps, a, b);
      EdgeReaches(deps, a, b);
    } else if Reaches(deps, a, b) {
      ReachesExactly(deps, analyse, document, a, Between(a));
      ReachesExactly(deps, analyse, document, Between(a), b);
      NotDirect(analyse, document, a, b);
    }
  }

  function Between(a: NodeId): NodeId {
    if a == VERIFY then IMPLEMENT else if a == REVIEW then VERIFY else if a == RELEASE then REVIEW else DESIGN
  }

  lemma NotDirect(analyse: bool, document: bool, a: NodeId, b: NodeId)
    requires Built(analyse, document, a) && Built(analyse, document, b) && WaitsFor(a, b) && !Arrow(analyse, document, a, b)
    ensures Built(analyse, document, Between(a)) && WaitsFor(a, Between(a)) && WaitsFor(Between(a), b)
  {
  }
}
