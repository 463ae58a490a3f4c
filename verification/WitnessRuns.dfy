/**
 Concrete runs at which properties of keel/executor.py fail, one round at a time.

 Most are built from rounds of a single node, which completes at once or, for the
 verification, fails once. What such a round changes is stated once, so that each run
 is a short list of rounds. The last one dispatches two nodes in the same round.
 */
module WitnessRuns {
  import opened Prelude
  import opened Digraph
  import opened PlanGraphs
  import opened Planner
  import opened Replan
  import opened SafePaths
  import opened ExecutorModel
  import opened RunInvariant
  import opened RunOrder
  import opened Races
  import opened RollbackLimits
  import Workspaces

  /** States that follow one another; a run is one that starts at its launch. */
  ghost predicate Chain(cfg: Config, rs: seq<Run>) {
    rs != [] && forall i :: 0 <= i < |rs| - 1 ==> Step(cfg, rs[i], rs[i + 1])
  }

  function Latest(rs: seq<Run>): Run
    requires rs != []
  {
    rs[|rs| - 1]
  }

  lemma Extend(cfg: Config, rs: seq<Run>, r: Run)
    requires Chain(cfg, rs) && Step(cfg, Latest(rs), r)
    ensures Chain(cfg, rs + [r]) && Latest(rs + [r]) == r && (rs + [r])[0] == rs[0]
  {
    var all := rs + [r];
    forall i | 0 <= i < |all| - 1
      ensures Step(cfg, all[i], all[i + 1])
    {
      if i < |rs| - 1 {
        assert Step(cfg, rs[i], rs[i + 1]);
      }
    }
  }

  lemma Begins(cfg: Config, r: Run)
    requires r.phase.Idle?
    ensures Step(cfg, r, BeginRound(r, false))
  {
  }

  lemma Resumes(cfg: Config, r: Run, spec: NodeSpec, o: Oracle)
    requires r.phase.Running? && CanStep(r.phase.batch, spec)
    ensures Step(cfg, r, r.(phase := Running(StepBatch(cfg, r.phase.batch, spec, o))))
  {
  }

  lemma Ends(cfg: Config, r: Run)
    requires r.phase.Running? && AllDone(r.phase.batch)
    requires forall s :: s in r.phase.batch.specs ==> s.id in r.phase.batch.flights
    ensures Step(cfg, r, EndRound(cfg, r))
  {
  }

  // ---- A round of one node ---------------------------------------------------------------

  /** The one node of a round at its next suspension points, up to its result. */
  function Alone(r: Run, s: NodeSpec, c: Ctx, f: Flight): Run {
    r.(phase := Running(Batch([s], c, map[s.id := f])))
  }

  lemma AloneResumes(cfg: Config, rs: seq<Run>, r: Run, s: NodeSpec, c: Ctx, f: Flight, o: Oracle) returns (rs': seq<Run>)
    requires Chain(cfg, rs) && Latest(rs) == Alone(r, s, c, f) && !f.Done?
    ensures var t := Resume(cfg, c, s, f, o);
      Chain(cfg, rs') && rs'[0] == rs[0] && Latest(rs') == Alone(r, s, t.ctx, t.flight)
  {
    var t := Resume(cfg, c, s, f, o);
    Resumes(cfg, Latest(rs), s, o);
    assert map[s.id := f][s.id := t.flight] == map[s.id := t.flight];
    Extend(cfg, rs, Alone(r, s, t.ctx, t.flight));
    rs' := rs + [Alone(r, s, t.ctx, t.flight)];
  }

  ghost predicate Lone(r: Run, s: NodeSpec) {
    && r.phase.Idle? && r.completed <= ToSet(Ids(r.plan.nodes)) && ReadySpecs(r) == [s]
    && (forall d :: d in s.dependsOn ==> d in r.ctx.outputs) && s.maxAttempts >= 0
  }

  function Dispatched(c: Ctx, s: NodeSpec): Ctx {
    c.(trail := c.trail + [NodeStarted(s.id), Attempted(s.id, 1)])
  }

  function Held(c: Ctx, s: NodeSpec): Flight {
    Dispatching(1, if s.rollback then Some(Workspaces.Snap(c.files)) else None, {}, false)
  }

  const YES: Oracle := Oracle(true, true, Raised)

  lemma LoneBegins(cfg: Config, rs: seq<Run>, s: NodeSpec) returns (rs': seq<Run>)
    requires Chain(cfg, rs) && Lone(Latest(rs), s)
    ensures var r := Latest(rs);
      Chain(cfg, rs') && rs'[0] == rs[0] && Latest(rs') == Alone(r, s, r.ctx, Pending)
  {
    var r := Latest(rs);
    Begins(cfg, r);
    assert Ids([s]) == [s.id];
    assert (map n | n in Ids([s]) :: Pending) == map[s.id := Pending];
    Extend(cfg, rs, BeginRound(r, false));
    rs' := rs + [BeginRound(r, false)];
  }

  /** Approved if need be, let in by the gate, and dispatched. */
  lemma LoneDispatched(cfg: Config, rs: seq<Run>, s: NodeSpec) returns (rs': seq<Run>)
    requires Chain(cfg, rs) && Lone(Latest(rs), s)
    ensures var r := Latest(rs);
      Chain(cfg, rs') && rs'[0] == rs[0] && Latest(rs') == Alone(r, s, Dispatched(r.ctx, s), Held(r.ctx, s))
  {
    var r := Latest(rs);
    rs' := LoneBegins(cfg, rs, s);
    rs' := AloneResumes(cfg, rs', r, s, r.ctx, Pending, YES);
    var c := Emit(r.ctx, NodeStarted(s.id));
    if s.needsApproval {
      rs' := AloneResumes(cfg, rs', r, s, c, Approving, YES);
    }
    assert c.trail + [Attempted(s.id, 1)] == Dispatched(r.ctx, s).trail;
  }

  function Completed(r: Run, s: NodeSpec, ev: Evidence): Run {
    var c := Dispatched(r.ctx, s);
    r.(ctx := c.(trail := c.trail + [NodeFinished(s.id, COMPLETED)], outputs := c.outputs[s.id := ev]),
       results := r.results[s.id := NodeResult(COMPLETED, 1, [], false)],
       completed := r.completed + {s.id})
  }

  /** The node of a round of its own completes at once, without artifacts. */
  lemma LoneCompletes(cfg: Config, rs: seq<Run>, s: NodeSpec, ev: Evidence) returns (rs': seq<Run>)
    requires Chain(cfg, rs) && Lone(Latest(rs), s)
    ensures Chain(cfg, rs') && rs'[0] == rs[0] && Latest(rs') == Replanned(cfg, Completed(Latest(rs), s, ev))
  {
    var r := Latest(rs);
    rs' := LoneDispatched(cfg, rs, s);
    var c, f := Dispatched(r.ctx, s), Held(r.ctx, s);
    var o := Oracle(true, true, Produced([], ev, true));
    var t := Resume(cfg, c, s, f, o);
    assert Persist(cfg, c, s.id, []) == c;
    rs' := AloneResumes(cfg, rs', r, s, c, f, o);
    assert t.flight == Done(NodeResult(COMPLETED, 1, [], false));
    SettleLone(cfg, r, s, t.ctx, t.flight);
    Ends(cfg, Latest(rs'));
    Extend(cfg, rs', EndRound(cfg, Latest(rs')));
    rs' := rs' + [EndRound(cfg, Latest(rs'))];
  }

  lemma SettleLone(cfg: Config, r: Run, s: NodeSpec, c: Ctx, f: Flight)
    requires r.phase.Idle? && f.Done? && f.result.state == COMPLETED
    ensures Settle(cfg, r.(ctx := c), [s], map[s.id := f])
         == r.(ctx := c, results := r.results[s.id := f.result], completed := r.completed + {s.id})
  {
    assert [s][1..] == [];
    var r' := r.(ctx := c, results := r.results[s.id := f.result], completed := r.completed + {s.id});
    assert Settle(cfg, r', [], map[s.id := f]) == r';
  }

  /** A failed verification of a round of its own sends the implementation round again. */
  lemma LoneRepairs(cfg: Config, rs: seq<Run>, s: NodeSpec) returns (rs': seq<Run>)
    requires Chain(cfg, rs) && Lone(Latest(rs), s) && s.id == VERIFY && s.maxAttempts == 0 && !s.rollback
    requires Latest(rs).repairs < cfg.maxRepairs && IMPLEMENT in Latest(rs).results
    ensures Chain(cfg, rs') && rs'[0] == rs[0] && Latest(rs') == Replanned(cfg, Rejected(Latest(rs), s))
  {
    var r := Latest(rs);
    rs' := LoneDispatched(cfg, rs, s);
    var c, f := Dispatched(r.ctx, s), Held(r.ctx, s);
    var o := Oracle(true, true, StageFailed);
    var t := Resume(cfg, c, s, f, o);
    rs' := AloneResumes(cfg, rs', r, s, c, f, o);
    assert t.flight == Done(NodeResult(FAILED, 1, [], false));
    SettleFailed(cfg, r, s, t.ctx, t.flight);
    Ends(cfg, Latest(rs'));
    Extend(cfg, rs', EndRound(cfg, Latest(rs')));
    rs' := rs' + [EndRound(cfg, Latest(rs'))];
  }

  function Rejected(r: Run, s: NodeSpec): Run {
    var c := Dispatched(r.ctx, s);
    Repaired(r.(ctx := c.(trail := c.trail + [NodeFinished(s.id, FAILED)]),
                results := r.results[s.id := NodeResult(FAILED, 1, [], false)]))
  }

  lemma SettleFailed(cfg: Config, r: Run, s: NodeSpec, c: Ctx, f: Flight)
    requires r.phase.Idle? && f.Done? && f.result.state == FAILED
    requires s.id == VERIFY && r.repairs < cfg.maxRepairs && IMPLEMENT in r.results
    ensures Settle(cfg, r.(ctx := c), [s], map[s.id := f]) == Repaired(r.(ctx := c, results := r.results[s.id := f.result]))
  {
    assert [s][1..] == [];
    var r' := Repaired(r.(ctx := c, results := r.results[s.id := f.result]));
    assert Settle(cfg, r', [], map[s.id := f]) == r';
  }

  /** With nothing left to run, the run is over. */
  lemma AllRun(cfg: Config, rs: seq<Run>) returns (rs': seq<Run>)
    requires Chain(cfg, rs) && Latest(rs).phase.Idle? && Latest(rs).completed == ToSet(Ids(Latest(rs).plan.nodes))
    ensures Chain(cfg, rs') && rs'[0] == rs[0] && Latest(rs') == Latest(rs).(phase := Finished(RunCompleted))
  {
    var r := Latest(rs);
    Begins(cfg, r);
    forall s | s in ReadySpecs(r)
      ensures false
    {
      ReadySpec(r, s);
    }
    EmptySeq(ReadySpecs(r));
    Extend(cfg, rs, BeginRound(r, false));
    rs' := rs + [BeginRound(r, false)];
  }

  /** Which node is alone in its round: the rest have results or wait for something not completed. */
  lemma LoneReady(r: Run, s: NodeSpec)
    requires Accepted(r.plan) && s in r.plan.nodes && s.id !in r.results && s.id !in r.completed
    requires forall d :: d in s.dependsOn ==> d in r.completed
    requires forall n :: n in r.plan.nodes && n != s ==> n.id in r.results || exists d :: d in n.dependsOn && d !in r.completed
    ensures ReadySpecs(r) == [s]
  {
    var deps := DepMap(r.plan.nodes);
    DepMapAt(r.plan.nodes);
    forall n | n in r.plan.nodes
      ensures (IsReady(deps, r.completed, n.id) && n.id !in r.results) <==> n == s
    {
      var i :| 0 <= i < |r.plan.nodes| && r.plan.nodes[i] == n;
      assert Ids(r.plan.nodes)[i] == n.id;
      assert forall d :: d in deps[n.id] <==> d in n.dependsOn;
    }
    DistinctSpecs(r.plan.nodes);
    FilterSingle(r.plan.nodes, (n: NodeSpec) => IsReady(deps, r.completed, n.id) && n.id !in r.results, s);
  }

  lemma DistinctSpecs(nodes: seq<NodeSpec>)
    requires Distinct(Ids(nodes))
    ensures Distinct(nodes)
  {
    forall i, j | 0 <= i < j < |nodes|
      ensures nodes[i] != nodes[j]
    {
      assert Ids(nodes)[i] != Ids(nodes)[j];
    }
  }

  // ---- Runs of such rounds ------------------------------------------------------------------

  /** What a round of one completing node changes, unless it asks for a revision. */
  ghost predicate Ran(r: Run, s: NodeSpec, ev: Evidence, r': Run) {
    && r'.phase.Idle? && r'.plan == r.plan && r'.repairs == r.repairs && r'.revisions == r.revisions
    && r'.completed == r.completed + {s.id} && r'.results.Keys == r.results.Keys + {s.id}
    && r'.ctx.outputs == r.ctx.outputs[s.id := ev]
    && forall n :: LastDone(r'.ctx.trail, n) == if n == s.id then |r.ctx.trail| + 2 else LastDone(r.ctx.trail, n)
  }

  lemma CompletedRan(r: Run, s: NodeSpec, ev: Evidence)
    requires r.phase.Idle?
    ensures Ran(r, s, ev, Completed(r, s, ev))
  {
    var trail := r.ctx.trail;
    var begun := trail + [NodeStarted(s.id), Attempted(s.id, 1)];
    forall n
      ensures LastDone(Completed(r, s, ev).ctx.trail, n) == if n == s.id then |trail| + 2 else LastDone(trail, n)
    {
      BegunDone(trail, s.id, n);
      LastDoneEmit(begun, NodeFinished(s.id, COMPLETED), n);
    }
  }

  lemma BegunDone(trail: seq<Event>, id: NodeId, n: NodeId)
    ensures LastDone(trail + [NodeStarted(id), Attempted(id, 1)], n) == LastDone(trail, n)
  {
    LastDoneEmit(trail, NodeStarted(id), n);
    LastDoneEmit(trail + [NodeStarted(id)], Attempted(id, 1), n);
    assert trail + [NodeStarted(id)] + [Attempted(id, 1)] == trail + [NodeStarted(id), Attempted(id, 1)];
  }

  predicate Unasked(r: Run) {
    IMPACT in r.ctx.outputs && r.ctx.outputs[IMPACT].missingExtensionPoint ==> REFACTOR in Ids(r.plan.nodes)
  }

  lemma LoneRuns(cfg: Config, rs: seq<Run>, s: NodeSpec, ev: Evidence) returns (rs': seq<Run>)
    requires Chain(cfg, rs) && Lone(Latest(rs), s) && Unasked(Completed(Latest(rs), s, ev))
    ensures Chain(cfg, rs') && rs'[0] == rs[0] && Ran(Latest(rs), s, ev, Latest(rs'))
  {
    rs' := LoneCompletes(cfg, rs, s, ev);
    CompletedRan(Latest(rs), s, ev);
  }

  const QUIET: Evidence := Evidence(false)

  const ASKING: Evidence := Evidence(true)

  const ANALYSE: NodeSpec := Node(IMPACT, [], false)

  const ANALYSIS_ONLY: Plan := Plan([ANALYSE], 1, "", None)

  lemma OneNodePlan()
    ensures Accepted(ANALYSIS_ONLY) && Ids(ANALYSIS_ONLY.nodes) == [IMPACT]
  {
    assert ANALYSIS_ONLY.nodes[..0] == [];
    OrderedAccepted(ANALYSIS_ONLY);
  }

  /** A run that ends in an uncaught error: the analysis asks for the seam and there is no design to put it behind. */
  lemma RevisionRaises(cfg: Config) returns (rs: seq<Run>)
    requires cfg.ancestors == AncestorMap(ANALYSIS_ONLY) && cfg.maxRevisions >= 1
    ensures IsRun(cfg, ANALYSIS_ONLY, map[], rs) && Latest(rs).phase == Finished(RunRaised)
  {
    OneNodePlan();
    var r := Launch(ANALYSIS_ONLY, map[]);
    LoneReady(r, ANALYSE);
    rs := LoneCompletes(cfg, [r], ANALYSE, ASKING);
    RevisedAccepted(ANALYSIS_ONLY, cfg.reason);
  }

  // ---- Rounds of one plan -------------------------------------------------------------------------

  /** Between rounds, with these nodes done and no revision asked for. */
  ghost predicate Between(r: Run, plan: Plan, done: set<NodeId>) {
    && r.phase.Idle? && r.plan == plan && r.completed == done == r.results.Keys
    && done <= r.ctx.outputs.Keys && done <= ToSet(Ids(plan.nodes)) && Unasked(r)
  }

  predicate Waits(n: NodeSpec, done: set<NodeId>) {
    exists d :: d in n.dependsOn && d !in done
  }

  ghost predicate OnlyNext(plan: Plan, s: NodeSpec, done: set<NodeId>) {
    && s in plan.nodes && s.id !in done && s.maxAttempts >= 0 && (forall d :: d in s.dependsOn ==> d in done)
    && forall n :: n in plan.nodes && n != s ==> n.id in done || Waits(n, done)
  }

  lemma OnlyNextLone(r: Run, plan: Plan, s: NodeSpec, done: set<NodeId>)
    requires Accepted(plan) && Between(r, plan, done) && OnlyNext(plan, s, done)
    ensures Lone(r, s)
  {
    forall n | n in r.plan.nodes && n != s
      ensures n.id in r.results || exists d :: d in n.dependsOn && d !in r.completed
    {
      assert n.id in done || Waits(n, done);
    }
    LoneReady(r, s);
  }

  /** A round in which the only node that can run completes. */
  lemma PlainRound(cfg: Config, rs: seq<Run>, plan: Plan, s: NodeSpec, done: set<NodeId>) returns (rs': seq<Run>)
    requires Chain(cfg, rs) && Accepted(plan) && Between(Latest(rs), plan, done) && OnlyNext(plan, s, done) && s.id != IMPACT
    ensures Chain(cfg, rs') && rs'[0] == rs[0] && Between(Latest(rs'), plan, done + {s.id})
    ensures var r, r' := Latest(rs), Latest(rs');
      && r'.repairs == r.repairs && r'.revisions == r.revisions && r'.ctx.outputs.Keys == r.ctx.outputs.Keys + {s.id}
      && forall n :: LastDone(r'.ctx.trail, n) == if n == s.id then |r.ctx.trail| + 2 else LastDone(r.ctx.trail, n)
  {
    OnlyNextLone(Latest(rs), plan, s, done);
    InIds(plan, s);
    rs' := LoneRuns(cfg, rs, s, QUIET);
  }

  lemma InIds(plan: Plan, s: NodeSpec)
    requires s in plan.nodes
    ensures s.id in ToSet(Ids(plan.nodes))
  {
    IdOf(plan.nodes, s);
  }

  lemma Launched(plan: Plan)
    ensures Between(Launch(plan, map[]), plan, {})
    ensures forall n :: LastDone(Launch(plan, map[]).ctx.trail, n) == -1
  {
  }

  /** The first two rounds of a plan in which one node at a time can run. */
  lemma TwoRounds(cfg: Config, plan: Plan, a: NodeSpec, b: NodeSpec) returns (rs: seq<Run>)
    requires Accepted(plan) && OnlyNext(plan, a, {}) && OnlyNext(plan, b, {a.id}) && a.id != IMPACT && b.id != IMPACT
    ensures Chain(cfg, rs) && rs[0] == Launch(plan, map[]) && Between(Latest(rs), plan, {a.id, b.id})
    ensures var r := Latest(rs);
      && r.repairs == 0 && r.revisions == 0 && r.ctx.outputs.Keys == {a.id, b.id}
      && LastDone(r.ctx.trail, b.id) >= 0 && forall n :: n != a.id && n != b.id ==> LastDone(r.ctx.trail, n) == -1
  {
    Launched(plan);
    rs := PlainRound(cfg, [Launch(plan, map[])], plan, a, {});
    assert {} + {a.id} == {a.id};
    rs := PlainRound(cfg, rs, plan, b, {a.id});
    assert {a.id} + {b.id} == {a.id, b.id};
  }

  // ---- A revision that comes too late ------------------------------------------------------------

  const DESIGNING: NodeSpec := Node(DESIGN, [], false)
  const IMPLEMENTING: NodeSpec := Node(IMPLEMENT, [DESIGN], true)
  const VERIFYING: NodeSpec := Node(VERIFY, [IMPLEMENT], false)
  const LATE_ANALYSIS: NodeSpec := Node(IMPACT, [VERIFY], false)

  /** The impact analysis only looks at what has been implemented and verified. */
  const LATE: Plan := Plan([DESIGNING, IMPLEMENTING, VERIFYING, LATE_ANALYSIS], 1, "", None)

  lemma LateOrdered()
    ensures InDependencyOrder(LATE.nodes)
  {
    ThreeOrdered(DESIGNING, IMPLEMENTING, VERIFYING);
    OrderedThen([DESIGNING, IMPLEMENTING, VERIFYING], {DESIGN, IMPLEMENT, VERIFY}, LATE_ANALYSIS,
                LATE.nodes, {DESIGN, IMPLEMENT, VERIFY, IMPACT});
  }

  /** What the run below uses of the plan. */
  ghost predicate IsLate(plan: Plan) {
    && Accepted(plan) && Ids(plan.nodes) == [DESIGN, IMPLEMENT, VERIFY, IMPACT]
    && !Reaches(DepMap(plan.nodes), DESIGN, IMPLEMENT)
    && OnlyNext(plan, DESIGNING, {}) && OnlyNext(plan, IMPLEMENTING, {DESIGN})
    && OnlyNext(plan, VERIFYING, {DESIGN, IMPLEMENT}) && OnlyNext(plan, LATE_ANALYSIS, {DESIGN, IMPLEMENT, VERIFY})
  }

  lemma LatePlan()
    ensures IsLate(LATE) && RepairSafe(LATE)
  {
    LateOrdered();
    OrderedAccepted(LATE);
    DepMapAt(LATE.nodes);
    LateNext();
    assert LATE.nodes[0] == DESIGNING;
    if Reaches(DepMap(LATE.nodes), DESIGN, IMPLEMENT) {
      var d := FirstStep(DepMap(LATE.nodes), DESIGN, IMPLEMENT);
    }
  }

  lemma LateNext()
    ensures OnlyNext(LATE, DESIGNING, {}) && OnlyNext(LATE, IMPLEMENTING, {DESIGN})
    ensures OnlyNext(LATE, VERIFYING, {DESIGN, IMPLEMENT}) && OnlyNext(LATE, LATE_ANALYSIS, {DESIGN, IMPLEMENT, VERIFY})
  {
    assert LATE.nodes[0] == DESIGNING && LATE.nodes[1] == IMPLEMENTING && LATE.nodes[2] == VERIFYING && LATE.nodes[3] == LATE_ANALYSIS;
    assert DESIGN in IMPLEMENTING.dependsOn && IMPLEMENT in VERIFYING.dependsOn && VERIFY in LATE_ANALYSIS.dependsOn;
  }

  lemma LateRounds(cfg: Config, plan: Plan) returns (rs: seq<Run>)
    requires IsLate(plan)
    ensures Chain(cfg, rs) && rs[0] == Launch(plan, map[])
    ensures var r := Latest(rs);
      && Between(r, plan, {DESIGN, IMPLEMENT, VERIFY}) && r.revisions == 0 && LastDone(r.ctx.trail, IMPLEMENT) >= 0
  {
    rs := TwoRounds(cfg, plan, DESIGNING, IMPLEMENTING);
    rs := PlainRound(cfg, rs, plan, VERIFYING, {DESIGN, IMPLEMENT});
    assert {DESIGN, IMPLEMENT} + {VERIFY} == {DESIGN, IMPLEMENT, VERIFY};
  }

  const ALL_BUT_SEAM: set<NodeId> := {DESIGN, IMPLEMENT, VERIFY, IMPACT}

  /** What the run uses of the revised plan. */
  ghost predicate IsLateRevised(next: Plan) {
    && Accepted(next) && ToSet(Ids(next.nodes)) == ALL_BUT_SEAM + {REFACTOR}
    && Edge(DepMap(next.nodes), IMPLEMENT, REFACTOR) && OnlyNext(next, SEAM, ALL_BUT_SEAM)
  }

  lemma LateRevised(plan: Plan, reason: string)
    requires IsLate(plan)
    ensures IsLateRevised(Revised(plan, SeamRequest(reason)))
  {
    DepMapAt(plan.nodes);
    RevisedAccepted(plan, reason);
    RevisedDeps(plan, reason);
    LateIds(plan, Revised(plan, SeamRequest(reason)));
    LastNext(Revised(plan, SeamRequest(reason)), ALL_BUT_SEAM);
  }

  lemma LateIds(plan: Plan, next: Plan)
    requires Ids(plan.nodes) == [DESIGN, IMPLEMENT, VERIFY, IMPACT] && Ids(next.nodes) == Ids(plan.nodes) + [REFACTOR]
    ensures ToSet(Ids(next.nodes)) == ALL_BUT_SEAM + {REFACTOR}
    ensures |next.nodes| == 5 && forall i :: 0 <= i < 4 ==> Ids(next.nodes)[i] in ALL_BUT_SEAM
  {
  }

  lemma LastNext(next: Plan, done: set<NodeId>)
    requires next.nodes != [] && next.nodes[|next.nodes| - 1] == SEAM && REFACTOR !in done && DESIGN in done
    requires forall i :: 0 <= i < |next.nodes| - 1 ==> Ids(next.nodes)[i] in done
    ensures OnlyNext(next, SEAM, done)
  {
    forall n | n in next.nodes && n != SEAM
      ensures n.id in done
    {
      var i :| 0 <= i < |next.nodes| && next.nodes[i] == n;
      assert Ids(next.nodes)[i] == n.id;
    }
  }

  /** The analysis asks for the seam after the implementation has completed. */
  lemma LateRevision(cfg: Config, plan: Plan, next: Plan, rs: seq<Run>) returns (rs': seq<Run>)
    requires IsLate(plan) && Chain(cfg, rs) && cfg.maxRevisions >= 1
    requires next == Revised(plan, SeamRequest(cfg.reason)) && IsLateRevised(next)
    requires Between(Latest(rs), plan, {DESIGN, IMPLEMENT, VERIFY}) && Latest(rs).revisions == 0
    ensures Chain(cfg, rs') && rs'[0] == rs[0] && Between(Latest(rs'), next, ALL_BUT_SEAM)
    ensures LastDone(Latest(rs').ctx.trail, IMPLEMENT) == LastDone(Latest(rs).ctx.trail, IMPLEMENT)
  {
    var r := Latest(rs);
    var done := Completed(r, LATE_ANALYSIS, ASKING);
    OnlyNextLone(r, plan, LATE_ANALYSIS, {DESIGN, IMPLEMENT, VERIFY});
    rs' := LoneCompletes(cfg, rs, LATE_ANALYSIS, ASKING);
    CompletedRan(r, LATE_ANALYSIS, ASKING);
    LateAsks(cfg, plan, next, done);
    LastDoneEmit(done.ctx.trail, PlanRevised, IMPLEMENT);
    BetweenRevised(r, done, next);
  }

  lemma BetweenRevised(r: Run, done: Run, next: Plan)
    requires r.completed == {DESIGN, IMPLEMENT, VERIFY} == r.results.Keys && r.completed <= r.ctx.outputs.Keys
    requires Ran(r, LATE_ANALYSIS, ASKING, done) && IsLateRevised(next)
    ensures Between(done.(plan := next, revisions := 1, ctx := Emit(done.ctx, PlanRevised)), next, ALL_BUT_SEAM)
  {
    assert {DESIGN, IMPLEMENT, VERIFY} + {IMPACT} == ALL_BUT_SEAM;
    assert REFACTOR in ToSet(Ids(next.nodes));
  }

  lemma LateAsks(cfg: Config, plan: Plan, next: Plan, r: Run)
    requires IsLate(plan) && r.plan == plan && r.revisions == 0 && cfg.maxRevisions >= 1
    requires next == Revised(plan, SeamRequest(cfg.reason)) && Accepted(next)
    requires IMPACT in r.ctx.outputs && r.ctx.outputs[IMPACT] == ASKING
    ensures Replanned(cfg, r) == r.(plan := next, revisions := 1, ctx := Emit(r.ctx, PlanRevised))
  {
  }

  lemma LateSeamRuns(cfg: Config, next: Plan, rs: seq<Run>) returns (rs': seq<Run>)
    requires IsLateRevised(next) && Chain(cfg, rs) && Between(Latest(rs), next, ALL_BUT_SEAM)
    ensures Chain(cfg, rs') && rs'[0] == rs[0] && Latest(rs').phase == Finished(RunCompleted)
    ensures !EdgesInOrder(DepMap(Latest(rs').plan.nodes), Latest(rs').ctx.trail)
  {
    rs' := PlainRound(cfg, rs, next, SEAM, ALL_BUT_SEAM);
    var trail := Latest(rs').ctx.trail;
    assert LastDone(trail, IMPLEMENT) < LastDone(trail, REFACTOR);
    rs' := AllRun(cfg, rs');
  }

  /**
   Success out of order: the plan repairs safely, yet its revision puts the seam before an
   implementation that has completed, and the run reports success without running it again.
   */
  lemma LateSeam(cfg: Config, plan: Plan) returns (rs: seq<Run>)
    requires plan == LATE && cfg.ancestors == AncestorMap(plan) && cfg.maxRevisions >= 1
    ensures IsRun(cfg, plan, map[], rs) && Latest(rs).phase == Finished(RunCompleted) && RepairSafe(plan)
    ensures !EdgesInOrder(DepMap(Latest(rs).plan.nodes), Latest(rs).ctx.trail)
  {
    LatePlan();
    LateRevised(plan, cfg.reason);
    var next := Revised(plan, SeamRequest(cfg.reason));
    rs := LateRounds(cfg, plan);
    rs := LateRevision(cfg, plan, next, rs);
    rs := LateSeamRuns(cfg, next, rs);
  }

  // ---- A repair that passes a node by ----------------------------------------------------------------

  const BUILDING: NodeSpec := Node(IMPLEMENT, [], true)
  const DESCRIBING: NodeSpec := Node(DOCUMENT, [IMPLEMENT], true)
  const CHECKING: NodeSpec := Node(VERIFY, [IMPLEMENT, DOCUMENT], false).(maxAttempts := 0)

  /** The documentation waits for the implementation but not for its verification. */
  const BYPASS: Plan := Plan([BUILDING, DESCRIBING, CHECKING], 1, "", None)

  lemma BypassOrdered()
    ensures InDependencyOrder(BYPASS.nodes) && ToSet(Ids(BYPASS.nodes)) == {IMPLEMENT, DOCUMENT, VERIFY}
  {
    ThreeOrdered(BUILDING, DESCRIBING, CHECKING);
  }

  lemma BypassPlan()
    ensures Accepted(BYPASS) && ReplanSafe(BYPASS) && ToSet(Ids(BYPASS.nodes)) == {IMPLEMENT, DOCUMENT, VERIFY}
    ensures Edge(DepMap(BYPASS.nodes), DOCUMENT, IMPLEMENT)
  {
    BypassOrdered();
    OrderedAccepted(BYPASS);
    DepMapAt(BYPASS.nodes);
    assert BYPASS.nodes[1] == DESCRIBING;
  }

  lemma BypassNext()
    ensures OnlyNext(BYPASS, BUILDING, {}) && OnlyNext(BYPASS, DESCRIBING, {IMPLEMENT})
    ensures OnlyNext(BYPASS, CHECKING, {IMPLEMENT, DOCUMENT}) && OnlyNext(BYPASS, BUILDING, {DOCUMENT})
  {
    assert BYPASS.nodes[0] == BUILDING && BYPASS.nodes[1] == DESCRIBING && BYPASS.nodes[2] == CHECKING;
    assert IMPLEMENT in DESCRIBING.dependsOn && IMPLEMENT in CHECKING.dependsOn && DOCUMENT in CHECKING.dependsOn;
  }

  lemma BypassFirst(cfg: Config) returns (rs: seq<Run>)
    ensures Chain(cfg, rs) && rs[0] == Launch(BYPASS, map[]) && Latest(rs).repairs == 0
    ensures Between(Latest(rs), BYPASS, {IMPLEMENT, DOCUMENT}) && IMPACT !in Latest(rs).ctx.outputs
  {
    BypassPlan();
    BypassNext();
    rs := TwoRounds(cfg, BYPASS, BUILDING, DESCRIBING);
  }

  /** Verification fails: the implementation has to run again, the documentation does not. */
  lemma BypassFails(cfg: Config, rs: seq<Run>) returns (rs': seq<Run>)
    requires Chain(cfg, rs) && Between(Latest(rs), BYPASS, {IMPLEMENT, DOCUMENT}) && IMPACT !in Latest(rs).ctx.outputs
    requires Latest(rs).repairs < cfg.maxRepairs
    ensures Chain(cfg, rs') && rs'[0] == rs[0] && Between(Latest(rs'), BYPASS, {DOCUMENT})
  {
    var r := Latest(rs);
    BypassPlan();
    BypassNext();
    OnlyNextLone(r, BYPASS, CHECKING, {IMPLEMENT, DOCUMENT});
    rs' := LoneRepairs(cfg, rs, CHECKING);
    assert {IMPLEMENT, DOCUMENT} - {IMPLEMENT, VERIFY} == {DOCUMENT};
  }

  lemma BypassAgain(cfg: Config, rs: seq<Run>) returns (rs': seq<Run>)
    requires Chain(cfg, rs) && Between(Latest(rs), BYPASS, {DOCUMENT})
    ensures Chain(cfg, rs') && rs'[0] == rs[0] && Between(Latest(rs'), BYPASS, {IMPLEMENT, DOCUMENT, VERIFY})
    ensures LastDone(Latest(rs').ctx.trail, DOCUMENT) < LastDone(Latest(rs').ctx.trail, IMPLEMENT)
  {
    BypassPlan();
    BypassNext();
    rs' := PlainRound(cfg, rs, BYPASS, BUILDING, {DOCUMENT});
    assert {DOCUMENT} + {IMPLEMENT} == {IMPLEMENT, DOCUMENT};
    rs' := PlainRound(cfg, rs', BYPASS, CHECKING, {IMPLEMENT, DOCUMENT});
    assert {IMPLEMENT, DOCUMENT} + {VERIFY} == {IMPLEMENT, DOCUMENT, VERIFY};
  }

  /**
   Success out of order again: a plan that re-plans safely, in which a repair runs the
   implementation again but not the documentation that describes it.
   */
  lemma BypassedRepair(cfg: Config) returns (rs: seq<Run>)
    requires cfg.ancestors == AncestorMap(BYPASS) && cfg.maxRepairs >= 1
    ensures IsRun(cfg, BYPASS, map[], rs) && Latest(rs).phase == Finished(RunCompleted) && ReplanSafe(BYPASS)
    ensures !EdgesInOrder(DepMap(Latest(rs).plan.nodes), Latest(rs).ctx.trail)
  {
    BypassPlan();
    rs := BypassFirst(cfg);
    rs := BypassFails(cfg, rs);
    rs := BypassAgain(cfg, rs);
    rs := AllRun(cfg, rs);
  }

  // ---- Two spellings of one file --------------------------------------------------------------------

  const PAIR_PLAN: Plan := Plan(PAIR, 1, "", None)

  lemma PairPlan()
    ensures Accepted(PAIR_PLAN) && Ids(PAIR) == [Other(1), Other(2)]
    ensures forall a, b :: !Reaches(DepMap(PAIR), a, b)
  {
    assert PAIR[..1] == [Writer(1)] && [Writer(1)][..0] == [];
    assert Ids([Writer(1)]) == [Other(1)] && Ids([]) == [];
    assert InDependencyOrder([Writer(1)]);
    OrderedAccepted(PAIR_PLAN);
    DepMapAt(PAIR);
    forall a | a in DepMap(PAIR)
      ensures DepMap(PAIR)[a] == []
    {
      var i :| 0 <= i < |PAIR| && PAIR[i].id == a;
    }
    forall a, b | Reaches(DepMap(PAIR), a, b)
      ensures false
    {
      var d := FirstStep(DepMap(PAIR), a, b);
    }
  }

  function WritesAs(raw: RawPath): Oracle {
    Oracle(true, true, Produced([File(raw, "text")], QUIET, true))
  }

  lemma WritesOne(cfg: Config, c: Ctx, s: NodeSpec, raw: RawPath)
    requires raw !in c.owner && Resolve(raw) == Some(README)
    ensures var t := Resume(cfg, c, s, HELD, WritesAs(raw));
      && t.flight.Done? && t.ctx.owner == c.owner[raw := s.id]
      && t.ctx.trail == c.trail + [Claimed(s.id, raw), NodeFinished(s.id, COMPLETED)]
  {
    var a := File(raw, "text");
    var c' := PersistOne(cfg, c, s.id, a);
    assert [a][1..] == [];
    assert Persist(cfg, c', s.id, []) == c';
    assert Persist(cfg, c, s.id, [a]) == c';
    assert AllSafe([a]);
  }

  /** Both nodes are dispatched in one round, write the file under their own spellings and complete. */
  lemma PairWrites(cfg: Config, plain: RawPath, dotted: RawPath) returns (rs: seq<Run>)
    requires plain != dotted && Resolve(plain) == Some(README) && Resolve(dotted) == Some(README)
    ensures Chain(cfg, rs) && rs[0] == Launch(PAIR_PLAN, map[])
    ensures Unrepaired(Latest(rs)) && CtxOf(Latest(rs)).trail == BothOut().ctx.trail +
      [Claimed(Other(1), plain), NodeFinished(Other(1), COMPLETED), Claimed(Other(2), dotted), NodeFinished(Other(2), COMPLETED)]
  {
    rs := PairDispatched(cfg);
    var r := Latest(rs);
    assert PAIR[0] == Writer(1) && PAIR[1] == Writer(2);
    WritesOne(cfg, BothOut().ctx, Writer(1), plain);
    Resumes(cfg, r, Writer(1), WritesAs(plain));
    var b := StepBatch(cfg, BothOut(), Writer(1), WritesAs(plain));
    Extend(cfg, rs, r.(phase := Running(b)));
    rs := rs + [r.(phase := Running(b))];
    WritesOne(cfg, b.ctx, Writer(2), dotted);
    Resumes(cfg, r.(phase := Running(b)), Writer(2), WritesAs(dotted));
    var b' := StepBatch(cfg, b, Writer(2), WritesAs(dotted));
    Extend(cfg, rs, r.(phase := Running(b')));
    rs := rs + [r.(phase := Running(b'))];
    assert b'.ctx.trail == BothOut().ctx.trail +
      [Claimed(Other(1), plain), NodeFinished(Other(1), COMPLETED), Claimed(Other(2), dotted), NodeFinished(Other(2), COMPLETED)];
  }

  lemma PairDispatched(cfg: Config) returns (rs: seq<Run>)
    ensures Chain(cfg, rs) && rs[0] == Launch(PAIR_PLAN, map[])
    ensures Unrepaired(Latest(rs)) && Latest(rs).phase == Running(BothOut())
  {
    var r := Launch(PAIR_PLAN, map[]);
    PairReady(r);
    Begins(cfg, r);
    var b0 := StartBatch(PAIR, BLANK);
    PairStarts(cfg, YES);
    var b1 := StepBatch(cfg, b0, Writer(1), YES);
    Extend(cfg, [r], r.(phase := Running(b0)));
    rs := [r] + [r.(phase := Running(b0))];
    Resumes(cfg, Latest(rs), Writer(1), YES);
    Extend(cfg, rs, r.(phase := Running(b1)));
    rs := rs + [r.(phase := Running(b1))];
    Resumes(cfg, Latest(rs), Writer(2), YES);
    Extend(cfg, rs, r.(phase := Running(BothOut())));
    rs := rs + [r.(phase := Running(BothOut()))];
  }

  lemma PairReady(r: Run)
    requires r == Launch(PAIR_PLAN, map[])
    ensures ReadySpecs(r) == PAIR && BeginRound(r, false) == r.(phase := Running(StartBatch(PAIR, BLANK)))
  {
    PairPlan();
    var deps := DepMap(PAIR);
    DepMapAt(PAIR);
    forall n | n in PAIR
      ensures IsReady(deps, r.completed, n.id) && n.id !in r.results
    {
      var i :| 0 <= i < |PAIR| && PAIR[i] == n;
    }
    FilterWhole(PAIR, (n: NodeSpec) => IsReady(deps, r.completed, n.id) && n.id !in r.results);
  }

  /**
   The owner table is keyed by the spelling: two unrelated nodes of one round overwrite
   each other's file under two spellings of it, and nothing is reported.
   */
  lemma SpellingHidesRace(cfg: Config) returns (rs: seq<Run>)
    requires cfg.ancestors == AncestorMap(PAIR_PLAN)
    ensures IsRun(cfg, PAIR_PLAN, map[], rs) && Unrepaired(Latest(rs))
    ensures var deps, trail := DepMap(PAIR), CtxOf(Latest(rs)).trail;
      FileRaced(deps, trail, README) && !FileReported(trail, README)
  {
    var plain, dotted := RawPath("README.md"), RawPath("./README.md");
    ReadmeSpelled(plain, dotted);
    PairPlan();
    rs := PairWrites(cfg, plain, dotted);
    HiddenRace(DepMap(PAIR), BothOut().ctx.trail, CtxOf(Latest(rs)).trail, plain, dotted);
  }

  lemma HiddenRace(deps: Adj, before: seq<Event>, trail: seq<Event>, plain: RawPath, dotted: RawPath)
    requires plain != dotted && Names(plain, README) && Names(dotted, README)
    requires (forall a, b :: !Reaches(deps, a, b)) && forall e :: e in before ==> !e.Conflict?
    requires trail == before +
      [Claimed(Other(1), plain), NodeFinished(Other(1), COMPLETED), Claimed(Other(2), dotted), NodeFinished(Other(2), COMPLETED)]
    ensures FileRaced(deps, trail, README) && !FileReported(trail, README)
  {
    assert trail[|before|] == Claimed(Other(1), plain) && trail[|before| + 2] == Claimed(Other(2), dotted);
    assert Contenders(deps, trail, README, Other(1), Other(2), plain, dotted);
    assert forall e :: e in trail ==> !e.Conflict?;
  }
}
