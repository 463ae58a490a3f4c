/**
 keel/planner.py: the plans the planner builds, and the one revision it ever
 makes.

 A built plan depends on whether the project is a brownfield one and on the
 capabilities that are available, both arbitrary here. Its shape matters to the
 executor in two ways: a repair re-runs only implement and verify, and a
 revision moves implement behind a new node.
 */
module Planner {
  import opened Prelude
  import opened Digraph
  import opened PlanGraphs

  // The stage kinds whose agents may be missing; capabilities = None means all are present.
  datatype StageKind = ANALYZE | DESIGN_STAGE | IMPLEMENT_STAGE | TEST | DOCUMENT_STAGE | REVIEW_STAGE | RELEASE_CHECK

  predicate Available(capabilities: Option<set<StageKind>>, kind: StageKind) {
    capabilities.None? || kind in capabilities.value
  }

  const DEFAULT_ATTEMPTS: int := 2

  function Node(id: NodeId, dependsOn: seq<NodeId>, rollback: bool): NodeSpec {
    NodeSpec(id, dependsOn, DEFAULT_ATTEMPTS, false, rollback)
  }

  function Front(analyse: bool): seq<NodeSpec> {
    if analyse then [Node(IMPACT, [], false)] else []
  }

  function Core(analyse: bool, brownfield: bool): seq<NodeSpec> {
    [ Node(DESIGN, if analyse then [IMPACT] else [], false),
      Node(IMPLEMENT, [DESIGN], true).(needsApproval := brownfield),
      Node(AUTHOR_TESTS, [DESIGN], true) ]
  }

  function Docs(document: bool): seq<NodeSpec> {
    if document then [Node(DOCUMENT, [DESIGN], true)] else []
  }

  function Tail(document: bool): seq<NodeSpec> {
    [ Node(VERIFY, [IMPLEMENT, AUTHOR_TESTS], false).(maxAttempts := 0),
      Node(REVIEW, [VERIFY], false),
      Node(RELEASE, if document then [REVIEW, DOCUMENT] else [REVIEW], false) ]
  }

  /** build: the diamond, with an impact analysis in front for a brownfield problem. */
  function BuildPlan(brownfield: bool, capabilities: Option<set<StageKind>>, rationale: string): Plan {
    var analyse := brownfield && Available(capabilities, ANALYZE);
    var document := Available(capabilities, DOCUMENT_STAGE);
    Plan(Front(analyse) + Core(analyse, brownfield) + Docs(document) + Tail(document), 1, rationale, None)
  }

  datatype RevisionRequest = RevisionRequest(
    reason: string, add: seq<NodeSpec>, remove: set<NodeId>, rewire: map<NodeId, seq<NodeId>>)

  /** One kept node of the next version: rewired, or rid of dependencies on removed nodes. */
  function Rewired(node: NodeSpec, request: RevisionRequest): NodeSpec {
    if node.id in request.rewire then node.(dependsOn := request.rewire[node.id])
    else node.(dependsOn := Filter(node.dependsOn, d => d !in request.remove))
  }

  function RewiredAll(nodes: seq<NodeSpec>, request: RevisionRequest): seq<NodeSpec> {
    if nodes == [] then []
    else
      var n := |nodes| - 1;
      RewiredAll(nodes[..n], request) +
      if nodes[n].id in request.remove then [] else [Rewired(nodes[n], request)]
  }

  function Revised(plan: Plan, request: RevisionRequest): Plan {
    Plan(RewiredAll(plan.nodes, request) + request.add, plan.version + 1, request.reason, Some(plan.version))
  }

  method Revise(plan: Plan, request: RevisionRequest) returns (next: Plan)
    ensures next == Revised(plan, request)
  {
    var kept := Filter(plan.nodes, (n: NodeSpec) => n.id !in request.remove);
    var rewired: seq<NodeSpec> := [];
    for i := 0 to |kept|
      invariant rewired == RewiredAll(kept[..i], request)
    {
      var node := kept[i];
      assert kept[..i + 1][..i] == kept[..i];
      assert node in kept;
      if node.id in request.rewire {
        rewired := rewired + [node.(dependsOn := request.rewire[node.id])];
      } else {
        var deps := Filter(node.dependsOn, d => d !in request.remove);
        rewired := rewired + [if deps != node.dependsOn then node.(dependsOn := deps) else node];
      }
    }
    assert kept[..|kept|] == kept;
    KeptFirst(plan.nodes, request);
    next := Plan(rewired + request.add, plan.version + 1, request.reason, Some(plan.version));
  }

  lemma {:induction false} KeptFirst(nodes: seq<NodeSpec>, request: RevisionRequest)
    ensures RewiredAll(Filter(nodes, (n: NodeSpec) => n.id !in request.remove), request) == RewiredAll(nodes, request)
  {
    if nodes != [] {
      var n := |nodes| - 1;
      var p := (n: NodeSpec) => n.id !in request.remove;
      KeptFirst(nodes[..n], request);
      assert nodes == nodes[..n] + [nodes[n]];
      FilterConcat(nodes[..n], [nodes[n]], p);
      RewiredNext(Filter(nodes[..n], p), nodes[n], request);
      assert Filter(nodes[..n], p) + [] == Filter(nodes[..n], p);
    }
  }

  lemma RewiredNext(nodes: seq<NodeSpec>, last: NodeSpec, request: RevisionRequest)
    ensures RewiredAll(nodes + [last], request)
         == RewiredAll(nodes, request) + if last.id in request.remove then [] else [Rewired(last, request)]
  {
    assert (nodes + [last])[..|nodes|] == nodes;
    assert RewiredAll(nodes, request) + [] == RewiredAll(nodes, request);
  }

  /** The node in the next version: what it waits for is replaced if the request says so, and loses what is removed otherwise. */
  predicate BecomesIn(node: NodeSpec, after: NodeSpec, request: RevisionRequest) {
    && after.id == node.id && after.maxAttempts == node.maxAttempts
    && after.needsApproval == node.needsApproval && after.rollback == node.rollback
    && after.dependsOn == if node.id in request.rewire then request.rewire[node.id]
                          else Filter(node.dependsOn, d => d !in request.remove)
  }

  lemma {:induction false} RewiredKept(kept: seq<NodeSpec>, request: RevisionRequest)
    requires forall n :: n in kept ==> n.id !in request.remove
    ensures |RewiredAll(kept, request)| == |kept|
    ensures forall i :: 0 <= i < |kept| ==> BecomesIn(kept[i], RewiredAll(kept, request)[i], request)
  {
    if kept != [] {
      var n := |kept| - 1;
      assert kept == kept[..n] + [kept[n]] && kept[n] in kept;
      RewiredKept(kept[..n], request);
      assert BecomesIn(kept[n], Rewired(kept[n], request), request);
    }
  }

  /**
   A revision keeps the nodes it does not remove, in their order and as they were but for
   what they wait for, and puts the added ones after them; only a node it rewires or adds
   can still wait for a removed one. The version counts up and points back.
   */
  lemma RevisedExactly(plan: Plan, request: RevisionRequest)
    ensures var next, kept := Revised(plan, request), Filter(plan.nodes, (n: NodeSpec) => n.id !in request.remove);
      && |next.nodes| == |kept| + |request.add|
      && (forall i :: 0 <= i < |kept| ==> BecomesIn(kept[i], next.nodes[i], request))
      && next.nodes[|kept|..] == request.add
      && (forall s :: s in next.nodes && s.id !in request.rewire && s !in request.add ==>
            forall d :: d in s.dependsOn ==> d !in request.remove)
      && next.version == plan.version + 1 && next.supersedes == Some(plan.version) && next.rationale == request.reason
  {
    var kept := Filter(plan.nodes, (n: NodeSpec) => n.id !in request.remove);
    KeptFirst(plan.nodes, request);
    RewiredKept(kept, request);
    var next := Revised(plan, request);
    forall s | s in next.nodes && s.id !in request.rewire && s !in request.add
      ensures forall d :: d in s.dependsOn ==> d !in request.remove
    {
      var i :| 0 <= i < |next.nodes| && next.nodes[i] == s;
      if i < |kept| {
        assert BecomesIn(kept[i], s, request);
      }
    }
  }

  // What the impact analysis reported, as far as re-planning reads it.
  datatype Evidence = Evidence(missingExtensionPoint: bool)

  const SEAM: NodeSpec := Node(REFACTOR, [DESIGN], true).(needsApproval := true)

  function SeamRequest(reason: string): RevisionRequest {
    RevisionRequest(reason, [SEAM], {}, map[IMPLEMENT := [DESIGN, REFACTOR]])
  }

  function ReviseFromEvidence(plan: Plan, evidence: Evidence, reason: string): Option<Plan> {
    if !evidence.missingExtensionPoint || REFACTOR in Ids(plan.nodes) then None
    else Some(Revised(plan, SeamRequest(reason)))
  }

  // ---- Properties of the plans the planner builds -----------------------------

  /** Whatever waits directly on the implementation is the verification or waits for it too. */
  ghost predicate RepairSafe(plan: Plan) {
    forall i :: 0 <= i < |plan.nodes| && IMPLEMENT in plan.nodes[i].dependsOn ==>
      plan.nodes[i].id == VERIFY || VERIFY in plan.nodes[i].dependsOn
  }

  /** An impact analysis, where there is one, comes before the implementation. */
  ghost predicate ReplanSafe(plan: Plan) {
    var deps := DepMap(plan.nodes);
    IMPACT in deps && IMPLEMENT in deps ==> Reaches(deps, IMPLEMENT, IMPACT)
  }

  /** Each node comes after everything it depends on, and ids do not repeat. */
  ghost predicate InDependencyOrder(nodes: seq<NodeSpec>) {
    nodes != [] ==>
      var n := |nodes| - 1;
      && InDependencyOrder(nodes[..n])
      && nodes[n].id !in Ids(nodes[..n])
      && forall d :: d in nodes[n].dependsOn ==> d in Ids(nodes[..n])
  }

  lemma {:induction false} OrderedTopo(nodes: seq<NodeSpec>)
    requires InDependencyOrder(nodes)
    ensures Distinct(Ids(nodes)) && KnownDeps(nodes)
    ensures forall i, d :: 0 <= i < |nodes| && d in nodes[i].dependsOn ==> d in Ids(nodes)[..i]
  {
    if nodes != [] {
      var n := |nodes| - 1;
      OrderedTopo(nodes[..n]);
      var ids := Ids(nodes);
      assert ids[..n] == Ids(nodes[..n]);
      assert ids == ids[..n] + [nodes[n].id];
      forall i, d | 0 <= i < |nodes| && d in nodes[i].dependsOn
        ensures d in ids[..i]
      {
        if i < n {
          assert nodes[..n][i] == nodes[i] && Ids(nodes[..n])[..i] == ids[..i];
        }
      }
    }
  }

  /** A plan listed in dependency order is accepted. */
  lemma OrderedAccepted(plan: Plan)
    requires InDependencyOrder(plan.nodes)
    ensures Accepted(plan)
  {
    OrderedTopo(plan.nodes);
    DepMapAt(plan.nodes);
    TopoAcyclic(DepMap(plan.nodes), Ids(plan.nodes));
  }

  /** chunk may follow any nodes whose ids are `have`. */
  ghost predicate FollowsOn(have: set<NodeId>, chunk: seq<NodeSpec>)
    decreases chunk
  {
    chunk != [] ==>
      && chunk[0].id !in have
      && (forall d :: d in chunk[0].dependsOn ==> d in have)
      && FollowsOn(have + {chunk[0].id}, chunk[1..])
  }

  lemma {:induction false} Append(nodes: seq<NodeSpec>, have: set<NodeId>, chunk: seq<NodeSpec>)
    requires InDependencyOrder(nodes) && ToSet(Ids(nodes)) == have && FollowsOn(have, chunk)
    ensures InDependencyOrder(nodes + chunk) && ToSet(Ids(nodes + chunk)) == have + ToSet(Ids(chunk))
    decreases chunk
  {
    if chunk == [] {
      assert nodes + chunk == nodes;
    } else {
      var big, rest := nodes + [chunk[0]], chunk[1..];
      assert nodes + chunk == big + rest;
      IdsSplit(chunk);
      AppendOne(nodes, have, chunk[0]);
      Append(big, have + {chunk[0].id}, rest);
    }
  }

  lemma IdsSplit(chunk: seq<NodeSpec>)
    requires chunk != []
    ensures ToSet(Ids(chunk)) == {chunk[0].id} + ToSet(Ids(chunk[1..]))
  {
    assert Ids(chunk) == [chunk[0].id] + Ids(chunk[1..]);
  }

  lemma AppendOne(nodes: seq<NodeSpec>, have: set<NodeId>, n: NodeSpec)
    requires InDependencyOrder(nodes) && ToSet(Ids(nodes)) == have
    requires n.id !in have && forall d :: d in n.dependsOn ==> d in have
    ensures InDependencyOrder(nodes + [n]) && ToSet(Ids(nodes + [n])) == have + {n.id}
  {
    var big := nodes + [n];
    assert big[..|nodes|] == nodes;
    assert Ids(big) == Ids(nodes) + [n.id];
    assert forall d :: d in have <==> d in Ids(nodes);
  }

  lemma OrderedThen(nodes: seq<NodeSpec>, have: set<NodeId>, n: NodeSpec, all: seq<NodeSpec>, ids: set<NodeId>)
    requires InDependencyOrder(nodes) && ToSet(Ids(nodes)) == have
    requires n.id !in have && forall d :: d in n.dependsOn ==> d in have
    requires all == nodes + [n] && ids == have + {n.id}
    ensures InDependencyOrder(all) && ToSet(Ids(all)) == ids
  {
    AppendOne(nodes, have, n);
  }

  lemma ThreeOrdered(a: NodeSpec, b: NodeSpec, c: NodeSpec)
    requires a.dependsOn == [] && b.id != a.id && c.id !in {a.id, b.id}
    requires (forall d :: d in b.dependsOn ==> d == a.id) && forall d :: d in c.dependsOn ==> d in {a.id, b.id}
    ensures InDependencyOrder([a, b, c]) && ToSet(Ids([a, b, c])) == {a.id, b.id, c.id}
  {
    OrderedThen([], {}, a, [a], {a.id});
    OrderedThen([a], {a.id}, b, [a, b], {a.id, b.id});
    OrderedThen([a, b], {a.id, b.id}, c, [a, b, c], {a.id, b.id, c.id});
  }

  lemma FollowThree(have: set<NodeId>, a: NodeSpec, b: NodeSpec, c: NodeSpec)
    requires a.id !in have && forall d :: d in a.dependsOn ==> d in have
    requires b.id !in have + {a.id} && forall d :: d in b.dependsOn ==> d in have + {a.id}
    requires c.id !in have + {a.id, b.id} && forall d :: d in c.dependsOn ==> d in have + {a.id, b.id}
    ensures FollowsOn(have, [a, b, c]) && ToSet(Ids([a, b, c])) == {a.id, b.id, c.id}
  {
    assert [a, b, c][1..] == [b, c] && [b, c][1..] == [c] && [c][1..] == [];
    assert have + {a.id} + {b.id} == have + {a.id, b.id};
    assert FollowsOn(have + {a.id, b.id}, [c]);
    assert FollowsOn(have + {a.id}, [b, c]);
    assert Ids([a, b, c]) == [a.id, b.id, c.id];
  }

  lemma CoreIds(analyse: bool, brownfield: bool)
    ensures ToSet(Ids(Front(analyse))) == if analyse then {IMPACT} else {}
    ensures ToSet(Ids(Core(analyse, brownfield))) == {DESIGN, IMPLEMENT, AUTHOR_TESTS}
    ensures FollowsOn({}, Front(analyse))
    ensures FollowsOn(ToSet(Ids(Front(analyse))), Core(analyse, brownfield))
  {
    var front, core := Front(analyse), Core(analyse, brownfield);
    assert Ids(front) == if analyse then [IMPACT] else [];
    FollowThree(ToSet(Ids(front)), core[0], core[1], core[2]);
    assert core == [core[0], core[1], core[2]];
  }

  lemma TailIds(have: set<NodeId>, document: bool)
    requires {IMPLEMENT, AUTHOR_TESTS, DESIGN} <= have && have !! {DOCUMENT, VERIFY, REVIEW, RELEASE}
    ensures FollowsOn(have, Docs(document))
    ensures FollowsOn(have + ToSet(Ids(Docs(document))), Tail(document))
  {
    var docs, tail := Docs(document), Tail(document);
    assert Ids(docs) == if document then [DOCUMENT] else [];
    FollowThree(have + ToSet(Ids(docs)), tail[0], tail[1], tail[2]);
    assert tail == [tail[0], tail[1], tail[2]];
  }

  lemma BuiltInOrder(brownfield: bool, capabilities: Option<set<StageKind>>, rationale: string)
    ensures InDependencyOrder(BuildPlan(brownfield, capabilities, rationale).nodes)
    ensures IMPLEMENT in Ids(BuildPlan(brownfield, capabilities, rationale).nodes)
  {
    var analyse := brownfield && Available(capabilities, ANALYZE);
    var document := Available(capabilities, DOCUMENT_STAGE);
    CoreIds(analyse, brownfield);
    var have := ToSet(Ids(Front(analyse))) + ToSet(Ids(Core(analyse, brownfield)));
    TailIds(have, document);
    FourChunks(Front(analyse), Core(analyse, brownfield), Docs(document), Tail(document));
  }

  lemma FourChunks(a: seq<NodeSpec>, b: seq<NodeSpec>, c: seq<NodeSpec>, d: seq<NodeSpec>)
    requires FollowsOn({}, a) && FollowsOn(ToSet(Ids(a)), b)
    requires FollowsOn(ToSet(Ids(a)) + ToSet(Ids(b)), c)
    requires FollowsOn(ToSet(Ids(a)) + ToSet(Ids(b)) + ToSet(Ids(c)), d)
    ensures InDependencyOrder(a + b + c + d)
    ensures forall n :: n in ToSet(Ids(b)) ==> n in Ids(a + b + c + d)
  {
    Append([], {}, a);
    assert [] + a == a;
    Append(a, ToSet(Ids(a)), b);
    Append(a + b, ToSet(Ids(a)) + ToSet(Ids(b)), c);
    Append(a + b + c, ToSet(Ids(a)) + ToSet(Ids(b)) + ToSet(Ids(c)), d);
    assert forall n :: n in ToSet(Ids(b)) ==> n in ToSet(Ids(a + b + c + d));
  }

  lemma BuiltNodes(brownfield: bool, capabilities: Option<set<StageKind>>, rationale: string, n: NodeSpec)
    requires n in BuildPlan(brownfield, capabilities, rationale).nodes
    ensures IMPLEMENT in n.dependsOn ==> n.id == VERIFY
    ensures n.id == IMPLEMENT ==> n.dependsOn == [DESIGN]
    ensures n.id != REFACTOR
    ensures n.id == IMPACT ==> brownfield && Available(capabilities, ANALYZE)
    ensures n.id == DESIGN && brownfield && Available(capabilities, ANALYZE) ==> n.dependsOn == [IMPACT]
  {
  }

  /** Every plan the planner builds is accepted, repairs and re-plans safely, and designs before it implements. */
  lemma BuiltAccepted(brownfield: bool, capabilities: Option<set<StageKind>>, rationale: string)
    ensures var plan := BuildPlan(brownfield, capabilities, rationale);
      && Accepted(plan) && RepairSafe(plan) && ReplanSafe(plan)
      && Reaches(DepMap(plan.nodes), IMPLEMENT, DESIGN) && !Reaches(DepMap(plan.nodes), DESIGN, IMPLEMENT)
  {
    var plan := BuildPlan(brownfield, capabilities, rationale);
    BuiltInOrder(brownfield, capabilities, rationale);
    OrderedAccepted(plan);
    forall i | 0 <= i < |plan.nodes| && IMPLEMENT in plan.nodes[i].dependsOn
      ensures plan.nodes[i].id == VERIFY
    {
      BuiltNodes(brownfield, capabilities, rationale, plan.nodes[i]);
    }
    BuiltDesignFirst(brownfield, capabilities, rationale);
    if IMPACT in DepMap(plan.nodes) {
      BuiltUpstream(brownfield, capabilities, rationale);
    }
  }

  lemma DepOf(plan: Plan, n: NodeId) returns (i: nat)
    requires Accepted(plan) && n in DepMap(plan.nodes)
    ensures i < |plan.nodes| && plan.nodes[i].id == n
    ensures DepMap(plan.nodes)[n] == Dedup(plan.nodes[i].dependsOn)
  {
    DepMapAt(plan.nodes);
    i :| 0 <= i < |plan.nodes| && plan.nodes[i].id == n;
  }

  lemma BuiltDesignFirst(brownfield: bool, capabilities: Option<set<StageKind>>, rationale: string)
    requires var plan := BuildPlan(brownfield, capabilities, rationale);
      Accepted(plan) && IMPLEMENT in Ids(plan.nodes)
    ensures var deps := DepMap(BuildPlan(brownfield, capabilities, rationale).nodes);
      Reaches(deps, IMPLEMENT, DESIGN) && !Reaches(deps, DESIGN, IMPLEMENT)
  {
    var plan := BuildPlan(brownfield, capabilities, rationale);
    var deps := DepMap(plan.nodes);
    AcceptedClosed(plan);
    var i := DepOf(plan, IMPLEMENT);
    BuiltNodes(brownfield, capabilities, rationale, plan.nodes[i]);
    EdgeReaches(deps, IMPLEMENT, DESIGN);
    if Reaches(deps, DESIGN, IMPLEMENT) {
      ReachesTrans(deps, IMPLEMENT, DESIGN, IMPLEMENT);
    }
  }

  lemma BuiltUpstream(brownfield: bool, capabilities: Option<set<StageKind>>, rationale: string)
    requires var plan := BuildPlan(brownfield, capabilities, rationale);
      Accepted(plan) && IMPACT in DepMap(plan.nodes) && IMPLEMENT in Ids(plan.nodes)
    ensures Reaches(DepMap(BuildPlan(brownfield, capabilities, rationale).nodes), IMPLEMENT, IMPACT)
  {
    var plan := BuildPlan(brownfield, capabilities, rationale);
    var deps := DepMap(plan.nodes);
    AcceptedClosed(plan);
    var i := DepOf(plan, IMPACT);
    BuiltNodes(brownfield, capabilities, rationale, plan.nodes[i]);
    var j := DepOf(plan, IMPLEMENT);
    BuiltNodes(brownfield, capabilities, rationale, plan.nodes[j]);
    EdgeReaches(deps, IMPLEMENT, DESIGN);
    var k := DepOf(plan, DESIGN);
    BuiltNodes(brownfield, capabilities, rationale, plan.nodes[k]);
    EdgeReaches(deps, DESIGN, IMPACT);
    ReachesTrans(deps, IMPLEMENT, DESIGN, IMPACT);
  }
}
