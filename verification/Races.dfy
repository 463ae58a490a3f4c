/** Concurrent writes are reported when two nodes claiming a path are unrelated. */
module Races {
  import opened Prelude
  import opened Digraph
  import opened PlanGraphs
  import opened Planner
  import opened SafePaths
  import opened ExecutorModel
  import opened RunInvariant
  import Workspaces

  // path_owner remembers only the last writer of a path, yet in a run without repair
  // or re-plan no race is lost and none is reported that is not there.

  ghost predicate Quiet(trail: seq<Event>, raw: RawPath) {
    forall n, o :: Conflict(n, raw, o) !in trail
  }

  ghost predicate Transitive(cfg: Config) {
    forall a, b, c :: Upstream(cfg, a, b) && Upstream(cfg, b, c) ==> Upstream(cfg, a, c)
  }

  /** Whoever has claimed a path had all its ancestors completed. */
  ghost predicate Grounded(cfg: Config, completed: set<NodeId>, trail: seq<Event>) {
    forall n, raw, a :: Claimed(n, raw) in trail && Upstream(cfg, a, n) ==> a in completed
  }

  /** The owner of a path is one of its writers, and without a report the latest in dependency order. */
  ghost predicate OwnerLatest(cfg: Config, c: Ctx) {
    && (forall raw :: raw in c.owner ==> Claimed(c.owner[raw], raw) in c.trail)
    && (forall n, raw :: Claimed(n, raw) in c.trail ==> raw in c.owner)
    && (forall n, raw :: Claimed(n, raw) in c.trail && Quiet(c.trail, raw) ==>
         n == c.owner[raw] || Upstream(cfg, n, c.owner[raw]))
  }

  ghost predicate QuietMeansRelated(cfg: Config, trail: seq<Event>) {
    forall m, n, raw :: Claimed(m, raw) in trail && Claimed(n, raw) in trail && Quiet(trail, raw) ==>
      m == n || Related(cfg, m, n)
  }

  ghost predicate ReportsAreReal(cfg: Config, trail: seq<Event>) {
    forall n, raw, o :: Conflict(n, raw, o) in trail ==>
      Claimed(n, raw) in trail && Claimed(o, raw) in trail && n != o && !Related(cfg, o, n)
  }

  ghost predicate RaceCtx(cfg: Config, completed: set<NodeId>, c: Ctx) {
    && Grounded(cfg, completed, c.trail)
    && OwnerLatest(cfg, c)
    && QuietMeansRelated(cfg, c.trail)
    && ReportsAreReal(cfg, c.trail)
  }

  lemma ClaimGrounded(cfg: Config, completed: set<NodeId>, c: Ctx, node: NodeId, raw: RawPath)
    requires Grounded(cfg, completed, c.trail) && forall a :: Upstream(cfg, a, node) ==> a in completed
    ensures Grounded(cfg, completed, CheckConflict(cfg, c, node, raw).trail)
  {
  }

  lemma ClaimReports(cfg: Config, c: Ctx, node: NodeId, raw: RawPath)
    requires ReportsAreReal(cfg, c.trail) && OwnerLatest(cfg, c)
    ensures ReportsAreReal(cfg, CheckConflict(cfg, c, node, raw).trail)
  {
  }

  /** An unreported new claim follows the previous owner, so it follows every earlier writer. */
  lemma ClaimFollows(cfg: Config, completed: set<NodeId>, c: Ctx, node: NodeId, raw: RawPath, n: NodeId)
    requires RaceCtx(cfg, completed, c) && Transitive(cfg) && node !in completed
    requires Claimed(n, raw) in c.trail && Quiet(CheckConflict(cfg, c, node, raw).trail, raw)
    ensures n == node || Upstream(cfg, n, node)
  {
    var c' := CheckConflict(cfg, c, node, raw);
    var o := c.owner[raw];
    assert Quiet(c.trail, raw) by {
      forall m, p
        ensures Conflict(m, raw, p) !in c.trail
      {
        assert Conflict(m, raw, p) !in c'.trail;
      }
    }
    assert Conflict(node, raw, o) !in c'.trail;
    assert o == node || Related(cfg, o, node);
    assert Claimed(o, raw) in c.trail;
    assert !Upstream(cfg, node, o);
  }

  lemma ClaimOwner(cfg: Config, completed: set<NodeId>, c: Ctx, node: NodeId, raw: RawPath)
    requires RaceCtx(cfg, completed, c) && Transitive(cfg) && node !in completed
    ensures OwnerLatest(cfg, CheckConflict(cfg, c, node, raw))
  {
    var c' := CheckConflict(cfg, c, node, raw);
    forall n, r | Claimed(n, r) in c'.trail && Quiet(c'.trail, r)
      ensures n == c'.owner[r] || Upstream(cfg, n, c'.owner[r])
    {
      if r == raw {
        if Claimed(n, r) in c.trail {
          ClaimFollows(cfg, completed, c, node, raw, n);
        }
      } else {
        QuietBefore(cfg, c, node, raw, r);
        assert Claimed(n, r) in c.trail;
      }
    }
  }

  lemma QuietBefore(cfg: Config, c: Ctx, node: NodeId, raw: RawPath, r: RawPath)
    requires Quiet(CheckConflict(cfg, c, node, raw).trail, r)
    ensures Quiet(c.trail, r)
  {
    forall m, p
      ensures Conflict(m, r, p) !in c.trail
    {
      assert Conflict(m, r, p) !in CheckConflict(cfg, c, node, raw).trail;
    }
  }

  lemma ClaimRelated(cfg: Config, completed: set<NodeId>, c: Ctx, node: NodeId, raw: RawPath)
    requires RaceCtx(cfg, completed, c) && Transitive(cfg) && node !in completed
    ensures QuietMeansRelated(cfg, CheckConflict(cfg, c, node, raw).trail)
  {
    var c' := CheckConflict(cfg, c, node, raw);
    forall m, n, r | Claimed(m, r) in c'.trail && Claimed(n, r) in c'.trail && Quiet(c'.trail, r)
      ensures m == n || Related(cfg, m, n)
    {
      QuietBefore(cfg, c, node, raw, r);
      if Claimed(m, r) in c.trail && Claimed(n, r) in c.trail {
      } else {
        assert r == raw && (m == node || n == node);
        if Claimed(m, r) in c.trail {
          ClaimFollows(cfg, completed, c, node, raw, m);
        } else if Claimed(n, r) in c.trail {
          ClaimFollows(cfg, completed, c, node, raw, n);
        }
      }
    }
  }

  lemma ClaimKeeps(cfg: Config, completed: set<NodeId>, c: Ctx, node: NodeId, raw: RawPath)
    requires RaceCtx(cfg, completed, c) && Transitive(cfg)
    requires node !in completed && forall a :: Upstream(cfg, a, node) ==> a in completed
    ensures RaceCtx(cfg, completed, CheckConflict(cfg, c, node, raw))
  {
    ClaimGrounded(cfg, completed, c, node, raw);
    ClaimReports(cfg, c, node, raw);
    ClaimOwner(cfg, completed, c, node, raw);
    ClaimRelated(cfg, completed, c, node, raw);
  }

  /** Other events and other fields do not matter. */
  lemma OtherKeeps(cfg: Config, completed: set<NodeId>, c: Ctx, e: Event, c': Ctx)
    requires RaceCtx(cfg, completed, c) && !e.Claimed? && !e.Conflict?
    requires c'.owner == c.owner && c'.trail == c.trail + [e]
    ensures RaceCtx(cfg, completed, c')
  {
    forall raw | Quiet(c'.trail, raw)
      ensures Quiet(c.trail, raw)
    {
      forall m, p
        ensures Conflict(m, raw, p) !in c.trail
      {
        assert Conflict(m, raw, p) !in c'.trail;
      }
    }
  }

  lemma {:induction false} PersistKeeps(cfg: Config, completed: set<NodeId>, c: Ctx, node: NodeId, artifacts: seq<Artifact>)
    requires RaceCtx(cfg, completed, c) && Transitive(cfg)
    requires node !in completed && forall a :: Upstream(cfg, a, node) ==> a in completed
    ensures RaceCtx(cfg, completed, Persist(cfg, c, node, artifacts))
    decreases artifacts
  {
    if artifacts != [] {
      var a := artifacts[0];
      if !a.Inline? {
        ClaimKeeps(cfg, completed, c, node, a.raw);
      }
      if !Unsafe(a) {
        PersistKeeps(cfg, completed, PersistOne(cfg, c, node, a), node, artifacts[1..]);
      }
    }
  }

  lemma FinishKeeps(cfg: Config, completed: set<NodeId>, c: Ctx, spec: NodeSpec, r: NodeResult)
    requires RaceCtx(cfg, completed, c)
    ensures RaceCtx(cfg, completed, Finish(c, spec, r).ctx)
  {
    OtherKeeps(cfg, completed, c, NodeFinished(spec.id, r.state), Finish(c, spec, r).ctx);
  }

  lemma NextKeeps(cfg: Config, completed: set<NodeId>, c: Ctx, spec: NodeSpec, attempt: int,
                  snap: Option<Workspaces.Files>, written: set<Workspaces.Path>, rolledBack: bool)
    requires RaceCtx(cfg, completed, c)
    ensures RaceCtx(cfg, completed, NextAttempt(c, spec, attempt, snap, written, rolledBack).ctx)
  {
    var t := NextAttempt(c, spec, attempt, snap, written, rolledBack);
    if t.flight.Done? {
      OtherKeeps(cfg, completed, c, NodeFinished(spec.id, FAILED), t.ctx);
    }
  }

  lemma EnterKeeps(cfg: Config, completed: set<NodeId>, c: Ctx, spec: NodeSpec, entryAllowed: bool)
    requires RaceCtx(cfg, completed, c)
    ensures RaceCtx(cfg, completed, Enter(c, spec, entryAllowed).ctx)
  {
    var t := Enter(c, spec, entryAllowed);
    OtherKeeps(cfg, completed, c, t.ctx.trail[|t.ctx.trail| - 1], t.ctx);
  }

  lemma TurnKeeps(cfg: Config, completed: set<NodeId>, c: Ctx, spec: NodeSpec, f: Flight, o: Oracle)
    requires RaceCtx(cfg, completed, c) && Transitive(cfg)
    requires spec.id !in completed && forall a :: Upstream(cfg, a, spec.id) ==> a in completed
    ensures RaceCtx(cfg, completed, Resume(cfg, c, spec, f, o).ctx)
  {
    match f {
      case Pending =>
        var c' := Emit(c, NodeStarted(spec.id));
        OtherKeeps(cfg, completed, c, NodeStarted(spec.id), c');
        EnterKeeps(cfg, completed, c', spec, o.entryAllowed);
      case Approving =>
        EnterKeeps(cfg, completed, c, spec, o.entryAllowed);
        FinishKeeps(cfg, completed, c, spec, NodeResult(REJECTED, 1, [], false));
      case Sleeping(attempt, _, _, _) =>
        OtherKeeps(cfg, completed, c, Attempted(spec.id, attempt), Emit(c, Attempted(spec.id, attempt)));
      case Dispatching(_, _, _, _) => AfterKeeps(cfg, completed, c, spec, f, o.outcome);
      case Done(_) =>
    }
  }

  lemma AfterKeeps(cfg: Config, completed: set<NodeId>, c: Ctx, spec: NodeSpec, f: Flight, o: Outcome)
    requires f.Dispatching? && RaceCtx(cfg, completed, c) && Transitive(cfg)
    requires spec.id !in completed && forall a :: Upstream(cfg, a, spec.id) ==> a in completed
    ensures RaceCtx(cfg, completed, AfterDispatch(cfg, c, spec, f, o).ctx)
  {
    match o {
      case Raised =>
      case NeedsInput => FinishKeeps(cfg, completed, c, spec, NodeResult(INPUT_REQUIRED, f.attempt, [], f.rolledBack));
      case StageFailed => NextKeeps(cfg, completed, c, spec, f.attempt, f.snap, f.written, f.rolledBack);
      case Produced(artifacts, evidence, allowed) =>
        PersistKeeps(cfg, completed, c, spec.id, artifacts);
        if AllSafe(artifacts) {
          var c' := Persist(cfg, c, spec.id, artifacts);
          var written := f.written + PathsOf(artifacts);
          if allowed {
            FinishKeeps(cfg, completed, c'.(outputs := c'.outputs[spec.id := evidence]), spec,
                        NodeResult(COMPLETED, f.attempt, artifacts, f.rolledBack));
          } else if f.snap.Some? {
            NextKeeps(cfg, completed, c'.(files := Workspaces.RestoredPaths(c'.files, f.snap.value, written)), spec,
                      f.attempt, f.snap, written, true);
          } else {
            NextKeeps(cfg, completed, c', spec, f.attempt, f.snap, written, f.rolledBack);
          }
        }
    }
  }

  // ---- Along a run --------------------------------------------------------------------

  ghost predicate DownClosed(deps: Adj, completed: set<NodeId>) {
    forall n, d :: n in completed && Edge(deps, n, d) ==> d in completed
  }

  ghost predicate Unrepaired(r: Run) {
    r.repairs == 0 && r.revisions == 0
  }

  ghost predicate RaceInv(cfg: Config, plan: Plan, r: Run) {
    && r.repairs >= 0 && r.revisions >= 0
    && (Unrepaired(r) ==>
          && r.plan == plan
          && DownClosed(DepMap(plan.nodes), r.completed)
          && RaceCtx(cfg, r.completed, CtxOf(r)))
  }

  lemma AncestorsTransitive(cfg: Config, plan: Plan)
    requires Accepted(plan) && cfg.ancestors == AncestorMap(plan)
    ensures Transitive(cfg)
    ensures forall a, b :: Upstream(cfg, a, b) <==> Reaches(DepMap(plan.nodes), b, a)
  {
    var deps := DepMap(plan.nodes);
    forall a, b
      ensures Upstream(cfg, a, b) <==> Reaches(deps, b, a)
    {
      if Reaches(deps, b, a) {
        ReachesInside(deps, b, a);
      }
    }
    forall a, b, c | Upstream(cfg, a, b) && Upstream(cfg, b, c)
      ensures Upstream(cfg, a, c)
    {
      ReachesTrans(deps, c, b, a);
    }
  }

  /** Everything upstream of a node that is ready has completed. */
  lemma ReadyUpstream(cfg: Config, plan: Plan, completed: set<NodeId>, n: NodeId)
    requires Accepted(plan) && cfg.ancestors == AncestorMap(plan)
    requires DownClosed(DepMap(plan.nodes), completed) && IsReady(DepMap(plan.nodes), completed, n)
    ensures forall a :: Upstream(cfg, a, n) ==> a in completed
  {
    var deps := DepMap(plan.nodes);
    forall a | Upstream(cfg, a, n)
      ensures a in completed
    {
      var d := FirstStep(deps, n, a);
      if d != a {
        ClosedUnderReach(deps, completed, d, a);
      }
    }
  }

  lemma MoreCompleted(cfg: Config, small: set<NodeId>, big: set<NodeId>, c: Ctx)
    requires RaceCtx(cfg, small, c) && small <= big
    ensures RaceCtx(cfg, big, c)
  {
  }

  lemma {:induction false} SettleRaces(cfg: Config, deps: Adj, start: set<NodeId>, r: Run, specs: seq<NodeSpec>, flights: map<NodeId, Flight>)
    requires forall s :: s in specs ==> s.id in flights && flights[s.id].Done? && IsReady(deps, start, s.id)
    requires r.repairs >= 0 && start <= r.completed && DownClosed(deps, r.completed)
    ensures var r' := Settle(cfg, r, specs, flights);
      && r'.repairs >= r.repairs && r'.revisions == r.revisions && r'.plan == r.plan
      && (r'.repairs == r.repairs ==> r'.ctx == r.ctx && r.completed <= r'.completed && DownClosed(deps, r'.completed))
    decreases specs
  {
    if specs != [] {
      var id, outcome, rest := specs[0].id, flights[specs[0].id].result, specs[1..];
      assert specs[0] in specs;
      var r1 := r.(results := r.results[id := outcome]);
      if outcome.state == COMPLETED {
        SettleRaces(cfg, deps, start, r1.(completed := r.completed + {id}), rest, flights);
      } else if outcome.state != INPUT_REQUIRED && CanRepair(cfg, r1, id, outcome) {
        SettleCounts(cfg, Repaired(r1), rest, flights);
      }
    }
  }

  lemma {:induction false} SettleCounts(cfg: Config, r: Run, specs: seq<NodeSpec>, flights: map<NodeId, Flight>)
    requires forall s :: s in specs ==> s.id in flights && flights[s.id].Done?
    ensures var r' := Settle(cfg, r, specs, flights);
      r'.repairs >= r.repairs && r'.revisions == r.revisions && r'.plan == r.plan
    decreases specs
  {
    if specs != [] {
      var id, outcome, rest := specs[0].id, flights[specs[0].id].result, specs[1..];
      var r1 := r.(results := r.results[id := outcome]);
      if outcome.state == COMPLETED {
        SettleCounts(cfg, r1.(completed := r.completed + {id}), rest, flights);
      } else if outcome.state != INPUT_REQUIRED && CanRepair(cfg, r1, id, outcome) {
        SettleCounts(cfg, Repaired(r1), rest, flights);
      }
    }
  }

  lemma EndRaces(cfg: Config, plan: Plan, r: Run)
    requires Accepted(plan) && cfg.ancestors == AncestorMap(plan)
    requires r.phase.Running? && Sane(r) && RaceInv(cfg, plan, r) && AllDone(r.phase.batch)
    requires forall s :: s in r.phase.batch.specs ==> s.id in r.phase.batch.flights
    ensures RaceInv(cfg, plan, EndRound(cfg, r))
  {
    var b := r.phase.batch;
    SettleCounts(cfg, r.(ctx := b.ctx, phase := Idle), b.specs, b.flights);
    var r1 := Settle(cfg, r.(ctx := b.ctx, phase := Idle), b.specs, b.flights);
    ReplannedCounts(cfg, r1);
    var r2 := EndRound(cfg, r);
    assert r2 == r1 || r2 == Replanned(cfg, r1);
    if Unrepaired(r2) {
      assert Unrepaired(r) && r2 == r1;
      SettledRaces(cfg, plan, r);
      SettleNotRunning(cfg, r.(ctx := b.ctx, phase := Idle), b.specs, b.flights);
    }
  }

  lemma ReplannedCounts(cfg: Config, r: Run)
    ensures var r' := Replanned(cfg, r);
      r'.repairs == r.repairs && (r' == r || r'.revisions == r.revisions + 1)
  {
  }

  lemma {:induction false} SettleNotRunning(cfg: Config, r: Run, specs: seq<NodeSpec>, flights: map<NodeId, Flight>)
    requires forall s :: s in specs ==> s.id in flights && flights[s.id].Done?
    requires !r.phase.Running?
    ensures !Settle(cfg, r, specs, flights).phase.Running?
    decreases specs
  {
    if specs != [] {
      var id, outcome, rest := specs[0].id, flights[specs[0].id].result, specs[1..];
      var r1 := r.(results := r.results[id := outcome]);
      if outcome.state == COMPLETED {
        SettleNotRunning(cfg, r1.(completed := r.completed + {id}), rest, flights);
      } else if outcome.state != INPUT_REQUIRED && CanRepair(cfg, r1, id, outcome) {
        SettleNotRunning(cfg, Repaired(r1), rest, flights);
      }
    }
  }

  lemma SettledRaces(cfg: Config, plan: Plan, r: Run)
    requires Accepted(plan) && cfg.ancestors == AncestorMap(plan)
    requires r.phase.Running? && Sane(r) && RaceInv(cfg, plan, r) && Unrepaired(r) && AllDone(r.phase.batch)
    requires forall s :: s in r.phase.batch.specs ==> s.id in r.phase.batch.flights
    ensures var b := r.phase.batch;
      var r1 := Settle(cfg, r.(ctx := b.ctx, phase := Idle), b.specs, b.flights);
      r1.repairs == 0 ==>
        r1.plan == plan && DownClosed(DepMap(plan.nodes), r1.completed) && RaceCtx(cfg, r1.completed, r1.ctx)
  {
    var b := r.phase.batch;
    var r0 := r.(ctx := b.ctx, phase := Idle);
    forall s | s in b.specs
      ensures IsReady(DepMap(plan.nodes), r.completed, s.id)
    {
      ReadySpec(r, s);
    }
    SettleRaces(cfg, DepMap(plan.nodes), r.completed, r0, b.specs, b.flights);
    var r1 := Settle(cfg, r0, b.specs, b.flights);
    if r1.repairs == 0 {
      MoreCompleted(cfg, r.completed, r1.completed, r1.ctx);
    }
  }

  lemma StepRaces(cfg: Config, plan: Plan, r: Run, r': Run)
    requires Accepted(plan) && cfg.ancestors == AncestorMap(plan)
    requires Sane(r) && RaceInv(cfg, plan, r) && Step(cfg, r, r')
    ensures RaceInv(cfg, plan, r')
  {
    AncestorsTransitive(cfg, plan);
    match r.phase {
      case Idle =>
        var stop :| r' == BeginRound(r, stop);
      case Running(b) =>
        if spec, o :| CanStep(b, spec) && r' == r.(phase := Running(StepBatch(cfg, b, spec, o))) {
          if Unrepaired(r) {
            ReadySpec(r, spec);
            ReadyUpstream(cfg, plan, r.completed, spec.id);
            TurnKeeps(cfg, r.completed, b.ctx, spec, b.flights[spec.id], o);
          }
        } else {
          EndRaces(cfg, plan, r);
        }
      case Finished(_) =>
    }
  }

  lemma {:induction false} RunRaces(cfg: Config, plan: Plan, files: Workspaces.Files, rs: seq<Run>, i: nat)
    requires IsRun(cfg, plan, files, rs) && i < |rs|
    ensures RaceInv(cfg, plan, rs[i])
  {
    if i > 0 {
      RunRaces(cfg, plan, files, rs, i - 1);
      RunSane(cfg, plan, files, rs, i - 1);
      StepRaces(cfg, plan, rs[i - 1], rs[i]);
    }
  }

  /** Two different nodes claimed the spelling and neither depends on the other. */
  ghost predicate UnrelatedWriters(deps: Adj, trail: seq<Event>, raw: RawPath, a: NodeId, b: NodeId) {
    Claimed(a, raw) in trail && Claimed(b, raw) in trail && a != b && !Reaches(deps, a, b) && !Reaches(deps, b, a)
  }

  ghost predicate Reported(trail: seq<Event>, raw: RawPath) {
    exists n, o :: Conflict(n, raw, o) in trail
  }

  ghost predicate Raced(deps: Adj, trail: seq<Event>, raw: RawPath) {
    exists a, b :: UnrelatedWriters(deps, trail, raw, a, b)
  }

  lemma ReportedExactly(cfg: Config, deps: Adj, trail: seq<Event>, raw: RawPath)
    requires QuietMeansRelated(cfg, trail) && ReportsAreReal(cfg, trail)
    requires forall a, b :: Upstream(cfg, a, b) <==> Reaches(deps, b, a)
    ensures Reported(trail, raw) <==> Raced(deps, trail, raw)
  {
    if n, o :| Conflict(n, raw, o) in trail {
      assert UnrelatedWriters(deps, trail, raw, n, o);
    } else {
      assert Quiet(trail, raw);
    }
  }

  /**
   No lost race, no false alarm: while nothing has been repaired or re-planned, a
   conflict on a spelling has been reported exactly when two unrelated nodes claimed it.
   */
  lemma RaceReported(cfg: Config, plan: Plan, files: Workspaces.Files, rs: seq<Run>, i: nat, raw: RawPath)
    requires IsRun(cfg, plan, files, rs) && i < |rs| && Unrepaired(rs[i])
    ensures Reported(CtxOf(rs[i]).trail, raw) <==> Raced(DepMap(plan.nodes), CtxOf(rs[i]).trail, raw)
  {
    RunRaces(cfg, plan, files, rs, i);
    AncestorsTransitive(cfg, plan);
    ReportedExactly(cfg, DepMap(plan.nodes), CtxOf(rs[i]).trail, raw);
  }

  // ---- By file instead of by spelling --------------------------------------------------

  predicate Names(raw: RawPath, p: Workspaces.Path) {
    Resolve(raw) == Some(p)
  }

  /** Two unrelated nodes claimed the file, each under some spelling of it. */
  ghost predicate Contenders(deps: Adj, trail: seq<Event>, p: Workspaces.Path, a: NodeId, b: NodeId, mine: RawPath, yours: RawPath) {
    && Names(mine, p) && Names(yours, p)
    && Claimed(a, mine) in trail && Claimed(b, yours) in trail
    && a != b && !Reaches(deps, a, b) && !Reaches(deps, b, a)
  }

  ghost predicate FileRaced(deps: Adj, trail: seq<Event>, p: Workspaces.Path) {
    exists a, b, mine, yours :: Contenders(deps, trail, p, a, b, mine, yours)
  }

  ghost predicate FileReported(trail: seq<Event>, p: Workspaces.Path) {
    exists raw :: Names(raw, p) && Reported(trail, raw)
  }

  /** Two unrelated nodes agree on a spelling of the file. */
  ghost predicate SpelledAlike(deps: Adj, trail: seq<Event>, p: Workspaces.Path) {
    exists raw :: Names(raw, p) && Raced(deps, trail, raw)
  }

  ghost predicate OneSpelling(trail: seq<Event>, p: Workspaces.Path) {
    forall a, b, mine, yours :: Claimed(a, mine) in trail && Claimed(b, yours) in trail && Names(mine, p) && Names(yours, p) ==>
      mine == yours
  }

  /**
   Reports are kept by spelling: a race on a file is reported exactly when two unrelated
   nodes claimed one common spelling of it, so never falsely, and surely when the file
   has one spelling only.
   */
  lemma FileRaceReported(cfg: Config, plan: Plan, files: Workspaces.Files, rs: seq<Run>, i: nat, p: Workspaces.Path)
    requires IsRun(cfg, plan, files, rs) && i < |rs| && Unrepaired(rs[i])
    ensures var deps, trail := DepMap(plan.nodes), CtxOf(rs[i]).trail;
      && (FileReported(trail, p) <==> SpelledAlike(deps, trail, p))
      && (FileReported(trail, p) ==> FileRaced(deps, trail, p))
      && (OneSpelling(trail, p) ==> (FileReported(trail, p) <==> FileRaced(deps, trail, p)))
  {
    var deps, trail := DepMap(plan.nodes), CtxOf(rs[i]).trail;
    forall raw
      ensures Reported(trail, raw) <==> Raced(deps, trail, raw)
    {
      RaceReported(cfg, plan, files, rs, i, raw);
    }
    AlikeIsRaced(deps, trail, p);
  }

  lemma AlikeIsRaced(deps: Adj, trail: seq<Event>, p: Workspaces.Path)
    ensures SpelledAlike(deps, trail, p) ==> FileRaced(deps, trail, p)
    ensures OneSpelling(trail, p) && FileRaced(deps, trail, p) ==> SpelledAlike(deps, trail, p)
  {
    if SpelledAlike(deps, trail, p) {
      var raw :| Names(raw, p) && Raced(deps, trail, raw);
      var a, b :| UnrelatedWriters(deps, trail, raw, a, b);
      assert Contenders(deps, trail, p, a, b, raw, raw);
    }
    if OneSpelling(trail, p) && FileRaced(deps, trail, p) {
      var a, b, mine, yours :| Contenders(deps, trail, p, a, b, mine, yours);
      assert UnrelatedWriters(deps, trail, mine, a, b);
      assert Raced(deps, trail, mine);
    }
  }

  /** Until it is repaired or re-planned, a run keeps its plan. */
  lemma PlanKept(cfg: Config, plan: Plan, files: Workspaces.Files, rs: seq<Run>, i: nat)
    requires IsRun(cfg, plan, files, rs) && i < |rs|
    ensures rs[i].repairs >= 0 && rs[i].revisions >= 0 && (Unrepaired(rs[i]) ==> rs[i].plan == plan)
  {
    RunRaces(cfg, plan, files, rs, i);
  }
}
