/**
 keel/executor.py, the engine itself, proved to follow the step system.

 The class keeps its state in mutable fields, as the source does. Each method is
 proved against the function of the step system it carries out, and a ghost sequence
 of states records the run. Oracles and the scheduler's choices come as arguments.
 Suspended nodes are kept in a map from ids to flights.
 */
module Executors {
  import opened Prelude
  import opened Digraph
  import opened PlanGraphs
  import opened BuildGraph
  import opened GraphQueries
  import opened Planner
  import opened Workspaces
  import opened SafePaths
  import opened ExecutorModel
  import opened RunInvariant
  import opened RunBounds
  import opened RunCounts

  // Its methods change the workspace, the shared context and the run's books in place;
  // each makes exactly the moves of ExecutorModel, so everything proved there about
  // runs holds of this code. Approvals, gates, dispatches, the scheduler's choices and
  // stop requests are arbitrary.

  class Executor {
    const workspace: Workspace
    const maxRepairs: int
    const maxRevisions: int
    const reason: string

    // The shared context of a run.
    var ancestors: map<NodeId, set<NodeId>>
    var owner: map<RawPath, NodeId>
    var outputs: map<NodeId, Evidence>
    var trail: seq<Event>

    // The run's books.
    var plan: Plan
    var completed: set<NodeId>
    var results: map<NodeId, NodeResult>
    var repairs: int
    var revisions: int

    constructor (workspace: Workspace, maxRepairs: int, maxRevisions: int, reason: string)
      ensures this.workspace == workspace && this.maxRepairs == maxRepairs
      ensures this.maxRevisions == maxRevisions && this.reason == reason
    {
      this.workspace, this.maxRepairs, this.maxRevisions, this.reason := workspace, maxRepairs, maxRevisions, reason;
      ancestors, owner, outputs, trail := map[], map[], map[], [];
      plan, completed, results, repairs, revisions := Plan([], 1, "", None), {}, map[], 0, 0;
    }

    ghost function Cfg(): Config
      reads this`ancestors
    {
      Config(ancestors, maxRepairs, maxRevisions, reason)
    }

    ghost function Shared(): Ctx
      reads this, workspace
    {
      Ctx(workspace.files, owner, outputs, trail)
    }

    ghost function Books(ctx: Ctx, phase: Phase): Run
      reads this
    {
      Run(plan, completed, results, repairs, revisions, ctx, phase)
    }

    // ---- One node ------------------------------------------------------------------

    method Log(e: Event)
      modifies this`trail
      ensures trail == old(trail) + [e]
    {
      trail := trail + [e];
    }

    method CheckWriteConflict(node: NodeId, raw: RawPath)
      modifies this`trail, this`owner
      ensures Shared() == CheckConflict(Cfg(), old(Shared()), node, raw)
    {
      if raw in owner && owner[raw] != node {
        var related := (node in ancestors && owner[raw] in ancestors[node]) || (owner[raw] in ancestors && node in ancestors[owner[raw]]);
        if !related {
          Log(Conflict(node, raw, owner[raw]));
        }
      }
      Log(Claimed(node, raw));
      owner := owner[raw := node];
    }

    method PersistArtifact(node: NodeId, a: Artifact) returns (ok: bool)
      modifies this`trail, this`owner, workspace
      ensures Shared() == PersistOne(Cfg(), old(Shared()), node, a)
      ensures ok == !Unsafe(a)
    {
      match a {
        case Inline => ok := true;
        case File(raw, content) =>
          CheckWriteConflict(node, raw);
          ok := !Unsafe(a);
          if ok {
            workspace.Write(Target(a), content);
          }
      }
    }

    /** False stands for the WorkspaceError an unsafe path raises. */
    method PersistArtifacts(node: NodeId, artifacts: seq<Artifact>) returns (ok: bool)
      modifies this`trail, this`owner, workspace
      ensures Shared() == Persist(Cfg(), old(Shared()), node, artifacts)
      ensures ok == AllSafe(artifacts)
    {
      var i := 0;
      while i < |artifacts|
        invariant 0 <= i <= |artifacts|
        invariant outputs == old(outputs)
        invariant Persist(Cfg(), Shared(), node, artifacts[i..]) == Persist(Cfg(), old(Shared()), node, artifacts)
        invariant forall j :: 0 <= j < i ==> !Unsafe(artifacts[j])
      {
        assert artifacts[i..][0] == artifacts[i] && artifacts[i..][1..] == artifacts[i + 1..];
        var stored := PersistArtifact(node, artifacts[i]);
        if !stored {
          assert artifacts[i] in artifacts;
          return false;
        }
        i := i + 1;
      }
      ok := true;
    }

    method FinishNode(spec: NodeSpec, r: NodeResult) returns (f: Flight)
      modifies this`trail
      ensures Turn(Shared(), f) == Finish(old(Shared()), spec, r)
    {
      Log(NodeFinished(spec.id, r.state));
      f := Done(r);
    }

    method Rollback(snap: Files, ghost paths: set<Path>, sorted: seq<Path>)
      requires ToSet(sorted) == paths
      modifies workspace
      ensures workspace.files == RestoredPaths(old(workspace.files), snap, paths)
    {
      var _ := workspace.RestorePaths(snap, sorted);
    }

    method GiveUp(spec: NodeSpec, attempts: int, snap: Option<Files>, written: seq<Path>, rolledBack: bool) returns (f: Flight)
      modifies this`trail, workspace
      ensures Turn(Shared(), f) == Exhausted(old(Shared()), spec, attempts, snap, ToSet(written), rolledBack)
    {
      if snap.Some? && !rolledBack {
        Rollback(snap.value, ToSet(written), written);
        f := FinishNode(spec, NodeResult(FAILED, attempts, [], true));
      } else {
        f := FinishNode(spec, NodeResult(FAILED, attempts, [], rolledBack));
      }
    }

    method NextTry(spec: NodeSpec, attempt: int, snap: Option<Files>, written: seq<Path>, rolledBack: bool) returns (f: Flight)
      modifies this`trail, workspace
      ensures Turn(Shared(), f) == NextAttempt(old(Shared()), spec, attempt, snap, ToSet(written), rolledBack)
    {
      if attempt < Attempts(spec) {
        f := Sleeping(attempt + 1, snap, ToSet(written), rolledBack);
      } else {
        f := GiveUp(spec, attempt, snap, written, rolledBack);
      }
    }

    method EnterNode(spec: NodeSpec, entryAllowed: bool) returns (f: Flight)
      modifies this`trail, workspace
      ensures Turn(Shared(), f) == Enter(old(Shared()), spec, entryAllowed)
    {
      var missing := exists d :: d in spec.dependsOn && d !in outputs;
      if !entryAllowed || missing {
        f := FinishNode(spec, NodeResult(REJECTED, 1, [], false));
        return;
      }
      var snap: Option<Files> := None;
      if spec.rollback {
        var s := workspace.Snapshot();
        snap := Some(s);
      }
      if Attempts(spec) < 1 {
        f := GiveUp(spec, 1, snap, [], false);
      } else {
        Log(Attempted(spec.id, 1));
        f := Dispatching(1, snap, {}, false);
      }
    }

    /** sorted(written_paths): any listing of the set will do. */
    method Listing(paths: set<Path>) returns (listed: seq<Path>)
      ensures ToSet(listed) == paths
    {
      listed := [];
      var rest := paths;
      while rest != {}
        invariant ToSet(listed) + rest == paths
        decreases rest
      {
        var p :| p in rest;
        listed := listed + [p];
        rest := rest - {p};
      }
    }

    /** Persist, exit gate, and commit or rollback, without a suspension in between. */
    method Dispatched(spec: NodeSpec, f0: Flight, o: Outcome) returns (f: Flight)
      requires f0.Dispatching?
      modifies this`trail, this`owner, this`outputs, workspace
      ensures Turn(Shared(), f) == AfterDispatch(Cfg(), old(Shared()), spec, f0, o)
    {
      match o {
        case Raised =>
          f := Done(CRASHED);
        case NeedsInput =>
          f := FinishNode(spec, NodeResult(INPUT_REQUIRED, f0.attempt, [], f0.rolledBack));
        case StageFailed =>
          var listed := Listing(f0.written);
          f := NextTry(spec, f0.attempt, f0.snap, listed, f0.rolledBack);
        case Produced(artifacts, evidence, allowed) =>
          var ok := PersistArtifacts(spec.id, artifacts);
          if !ok {
            f := Done(CRASHED);
            return;
          }
          var listed := Listing(f0.written + PathsOf(artifacts));
          if allowed {
            outputs := outputs[spec.id := evidence];
            f := FinishNode(spec, NodeResult(COMPLETED, f0.attempt, artifacts, f0.rolledBack));
          } else if f0.snap.Some? {
            Rollback(f0.snap.value, f0.written + PathsOf(artifacts), listed);
            f := NextTry(spec, f0.attempt, f0.snap, listed, true);
          } else {
            f := NextTry(spec, f0.attempt, f0.snap, listed, f0.rolledBack);
          }
      }
    }

    /** _run_node from one suspension point to the next. */
    method ResumeNode(spec: NodeSpec, f0: Flight, o: Oracle) returns (f: Flight)
      modifies this`trail, this`owner, this`outputs, workspace
      ensures Turn(Shared(), f) == Resume(Cfg(), old(Shared()), spec, f0, o)
    {
      match f0 {
        case Pending =>
          Log(NodeStarted(spec.id));
          if spec.needsApproval {
            f := Approving;
          } else {
            f := EnterNode(spec, o.entryAllowed);
          }
        case Approving =>
          if o.approved {
            f := EnterNode(spec, o.entryAllowed);
          } else {
            f := FinishNode(spec, NodeResult(REJECTED, 1, [], false));
          }
        case Sleeping(attempt, snap, written, rolledBack) =>
          Log(Attempted(spec.id, attempt));
          f := Dispatching(attempt, snap, written, rolledBack);
        case Dispatching(_, _, _, _) =>
          f := Dispatched(spec, f0, o.outcome);
        case Done(_) =>
          f := f0;
      }
    }

    // ---- One batch -----------------------------------------------------------------

    /** Some batch is in the air: the trace so far ends with it, and the books have not moved. */
    ghost predicate InFlight(cfg: Config, r: Run, specs: seq<NodeSpec>, flights: map<NodeId, Flight>)
      reads this, workspace
    {
      && cfg == Cfg()
      && r.phase.Running? && r == Books(r.ctx, r.phase)
      && r.phase.batch == Batch(specs, Shared(), flights)
      && forall s :: s in specs ==> s.id in flights
    }

    method ResumeInBatch(specs: seq<NodeSpec>, flights0: map<NodeId, Flight>, spec: NodeSpec, o: Oracle)
      returns (flights: map<NodeId, Flight>)
      requires spec.id in flights0
      modifies this`trail, this`owner, this`outputs, workspace
      ensures Batch(specs, Shared(), flights) == StepBatch(Cfg(), Batch(specs, old(Shared()), flights0), spec, o)
    {
      var f := ResumeNode(spec, flights0[spec.id], o);
      flights := flights0[spec.id := f];
    }

    /** One node resumes: one more step of the run. */
    method TakeTurn(specs: seq<NodeSpec>, flights0: map<NodeId, Flight>, spec: NodeSpec, o: Oracle,
                    ghost plan0: Plan, ghost files0: Files, ghost rs0: seq<Run>)
      returns (flights: map<NodeId, Flight>, ghost rs: seq<Run>)
      requires IsRun(Cfg(), plan0, files0, rs0) && InFlight(Cfg(), rs0[|rs0| - 1], specs, flights0)
      requires spec in specs && !flights0[spec.id].Done?
      modifies this`trail, this`owner, this`outputs, workspace
      ensures IsRun(Cfg(), plan0, files0, rs) && InFlight(Cfg(), rs[|rs| - 1], specs, flights)
      ensures FlightsLeft(specs, flights) < FlightsLeft(specs, flights0)
    {
      ghost var r := rs0[|rs0| - 1];
      flights := ResumeInBatch(specs, flights0, spec, o);
      TurnedRun(Cfg(), plan0, files0, rs0, spec, o, Batch(specs, Shared(), flights));
      rs := rs0 + [r.(phase := Running(Batch(specs, Shared(), flights)))];
    }

    /** asyncio.gather: whichever node is chosen resumes, until all are done. */
    method Gather(specs: seq<NodeSpec>, ghost plan0: Plan, ghost files0: Files, ghost rs0: seq<Run>)
      returns (flights: map<NodeId, Flight>, ghost rs: seq<Run>)
      requires IsRun(Cfg(), plan0, files0, rs0)
      requires InFlight(Cfg(), rs0[|rs0| - 1], specs, StartBatch(specs, Shared()).flights)
      modifies this`trail, this`owner, this`outputs, workspace
      ensures IsRun(Cfg(), plan0, files0, rs)
      ensures InFlight(Cfg(), rs[|rs| - 1], specs, flights)
      ensures AllDone(rs[|rs| - 1].phase.batch)
    {
      flights := map n | n in Ids(specs) :: Pending;
      rs := rs0;
      ghost var cfg := Cfg();
      while exists s :: s in specs && !flights[s.id].Done?
        invariant Cfg() == cfg && IsRun(cfg, plan0, files0, rs)
        invariant InFlight(cfg, rs[|rs| - 1], specs, flights)
        decreases FlightsLeft(specs, flights)
      {
        var spec :| spec in specs && !flights[spec.id].Done?;
        var o: Oracle := *;
        flights, rs := TakeTurn(specs, flights, spec, o, plan0, files0, rs);
      }
      RunSane(cfg, plan0, files0, rs, |rs| - 1);
      EveryFlightDone(rs[|rs| - 1]);
    }

    // ---- The outer loop ----------------------------------------------------------------

    /** _repair: put the implementation and the verification back to be run again. */
    method Repair(id: NodeId, outcome: NodeResult, ghost ctx: Ctx) returns (scheduled: bool)
      requires ctx == Shared()
      modifies this`repairs, this`results, this`completed, this`trail
      ensures scheduled == CanRepair(Cfg(), old(Books(ctx, Idle)), id, outcome)
      ensures Books(Shared(), Idle) == if scheduled then Repaired(old(Books(ctx, Idle))) else old(Books(ctx, Idle))
    {
      if id != VERIFY || outcome.state != FAILED || repairs >= maxRepairs || IMPLEMENT !in results {
        return false;
      }
      repairs := repairs + 1;
      results := results - {IMPLEMENT, VERIFY};
      completed := completed - {IMPLEMENT, VERIFY};
      Log(RepairStarted);
      scheduled := true;
    }

    /** Record the outcomes in batch order; a stop carries the state the run ends in. */
    method SettleBatch(specs: seq<NodeSpec>, flights: map<NodeId, Flight>) returns (stop: Option<RunState>)
      requires forall s :: s in specs ==> s.id in flights && flights[s.id].Done?
      modifies this`repairs, this`results, this`completed, this`trail
      ensures Books(Shared(), if stop.Some? then Finished(stop.value) else Idle)
           == Settle(Cfg(), old(Books(Shared(), Idle)), specs, flights)
    {
      var i := 0;
      ghost var cfg, start := Cfg(), Books(Shared(), Idle);
      while i < |specs|
        invariant 0 <= i <= |specs| && Cfg() == cfg
        invariant Settle(cfg, Books(Shared(), Idle), specs[i..], flights) == Settle(cfg, start, specs, flights)
      {
        ghost var before := Books(Shared(), Idle);
        assert specs[i..][0] == specs[i] && specs[i..][1..] == specs[i + 1..];
        var id, outcome := specs[i].id, flights[specs[i].id].result;
        results := results[id := outcome];
        if outcome.state == COMPLETED {
          completed := completed + {id};
        } else if outcome.state == INPUT_REQUIRED {
          return Some(RunNeedsInput);
        } else {
          var scheduled := Repair(id, outcome, Shared());
          if !scheduled {
            return Some(RunFailed);
          }
        }
        i := i + 1;
      }
      stop := None;
    }

    /** _maybe_replan; the revised plan may turn out not to be one PlanGraph accepts. */
    method MaybeReplan(g: PlanGraph) returns (next: Result<PlanGraph, GraphError>)
      requires Represents(g, plan)
      modifies this`plan, this`revisions, this`trail
      ensures Books(Shared(), if next.Err? then Finished(RunRaised) else Idle) == Replanned(Cfg(), old(Books(Shared(), Idle)))
      ensures next.Ok? ==> Represents(next.value, plan)
    {
      var revised := RevisionWanted();
      ReplannedIs(Cfg(), Books(Shared(), Idle), revised);
      if revised == None {
        return Ok(g);
      }
      next := Adopt(revised.value);
    }

    method RevisionWanted() returns (revised: Option<Plan>)
      ensures revised == WantsRevision(Cfg(), Books(Shared(), Idle))
    {
      if revisions >= maxRevisions || IMPACT !in outputs {
        return None;
      }
      revised := ReviseFromEvidence(plan, outputs[IMPACT], reason);
    }

    method Adopt(revised: Plan) returns (next: Result<PlanGraph, GraphError>)
      modifies this`plan, this`revisions, this`trail
      ensures plan == revised && revisions == old(revisions) + 1 && trail == old(trail) + [PlanRevised]
      ensures next.Ok? <==> Accepted(revised)
      ensures next.Ok? ==> Represents(next.value, revised)
    {
      plan := revised;
      revisions := revisions + 1;
      Log(PlanRevised);
      next := Build(revised);
    }

    /** graph.ready(completed), without the nodes that already have a result. */
    method ReadyNow(g: PlanGraph) returns (ready: seq<NodeSpec>)
      requires Represents(g, plan)
      ensures ready == ReadySpecs(Books(Shared(), Idle))
    {
      ready := ReadyAmong(g.plan.nodes, g.deps, completed, results);
    }

    method LearnAncestors(g: PlanGraph)
      requires Represents(g, plan)
      modifies this`ancestors
      ensures ancestors == AncestorMap(plan)
    {
      BuiltIsSound(g, plan);
      ancestors := AllAncestors(g);
    }

    /** Settle a finished batch and re-plan if the evidence asks for it. */
    method CloseRound(g: PlanGraph, specs: seq<NodeSpec>, flights: map<NodeId, Flight>)
      returns (next: Option<PlanGraph>, state: RunState)
      requires Represents(g, plan)
      requires forall s :: s in specs ==> s.id in flights && flights[s.id].Done?
      modifies this`trail, this`plan, this`completed, this`results, this`repairs, this`revisions
      ensures Books(Shared(), if next.Some? then Idle else Finished(state)) == Concluded(Cfg(), old(Books(Shared(), Idle)), specs, flights)
      ensures next.Some? ==> Represents(next.value, plan)
    {
      var stop := SettleBatch(specs, flights);
      if stop.Some? {
        return None, stop.value;
      }
      var replanned := MaybeReplan(g);
      if replanned.Err? {
        return None, RunRaised;
      }
      next, state := Some(replanned.value), RunCompleted;
    }

    /** One turn of the loop: stop, finish, or run, settle and perhaps re-plan one batch. */
    method Round(g: PlanGraph, stopRequested: bool, ghost plan0: Plan, ghost files0: Files, ghost rs0: seq<Run>)
      returns (next: Option<PlanGraph>, state: RunState, ghost rs: seq<Run>)
      requires IsRun(Cfg(), plan0, files0, rs0) && rs0[|rs0| - 1] == Books(Shared(), Idle)
      requires Represents(g, plan)
      modifies this`trail, this`owner, this`outputs, workspace, this`plan, this`completed, this`results, this`repairs, this`revisions
      ensures IsRun(Cfg(), plan0, files0, rs)
      ensures rs[|rs| - 1] == Books(Shared(), if next.Some? then Idle else Finished(state))
      ensures next.Some? ==> Represents(next.value, plan)
      ensures next.Some? ==> Shorter(Cfg(), rs[|rs| - 1], rs0[|rs0| - 1])
    {
      rs := rs0;
      if stopRequested {
        BegunRun(Cfg(), plan0, files0, rs, true);
        rs := rs + [BeginRound(rs[|rs| - 1], true)];
        return None, RunFailed, rs;
      }
      var ready := ReadyNow(g);
      BegunRun(Cfg(), plan0, files0, rs, false);
      rs := rs + [BeginRound(rs[|rs| - 1], false)];
      if ready == [] {
        return None, RunCompleted, rs;
      }
      next, state, rs := RunBatch(g, ready, plan0, files0, rs, rs0[|rs0| - 1]);
    }

    /** Run one batch to the end, settle it and perhaps re-plan. */
    method RunBatch(g: PlanGraph, ready: seq<NodeSpec>, ghost plan0: Plan, ghost files0: Files, ghost rs0: seq<Run>, ghost begun: Run)
      returns (next: Option<PlanGraph>, state: RunState, ghost rs: seq<Run>)
      requires IsRun(Cfg(), plan0, files0, rs0) && InFlight(Cfg(), rs0[|rs0| - 1], ready, StartBatch(ready, Shared()).flights)
      requires Represents(g, plan) && begun == Books(begun.ctx, Idle)
      modifies this`trail, this`owner, this`outputs, workspace, this`plan, this`completed, this`results, this`repairs, this`revisions
      ensures IsRun(Cfg(), plan0, files0, rs)
      ensures rs[|rs| - 1] == Books(Shared(), if next.Some? then Idle else Finished(state))
      ensures next.Some? ==> Represents(next.value, plan) && Shorter(Cfg(), rs[|rs| - 1], begun)
    {
      var flights;
      flights, rs := Gather(ready, plan0, files0, rs0);
      EndedRun(Cfg(), plan0, files0, rs, begun);
      ghost var ended := EndRound(Cfg(), rs[|rs| - 1]);
      rs := rs + [ended];
      assert rs[|rs| - 1] == ended;
      next, state := CloseRound(g, ready, flights);
      assert ended == Books(Shared(), if next.Some? then Idle else Finished(state));
    }

    /** Validate the plan and clear the books; nothing is written when the plan is refused. */
    method Prepare(initial: Plan) returns (built: Result<PlanGraph, GraphError>)
      modifies this
      ensures built.Ok? <==> Accepted(initial)
      ensures built.Err? ==> Refuses(initial, built.error)
      ensures built.Ok? ==> Represents(built.value, plan) && ancestors == AncestorMap(initial)
      ensures built.Ok? ==> Books(Shared(), Idle) == Launch(initial, workspace.files)
    {
      built := Build(initial);
      if built.Ok? {
        ClearBooks(initial);
        LearnAncestors(built.value);
      }
    }

    method ClearBooks(initial: Plan)
      modifies this
      ensures Books(Shared(), Idle) == Launch(initial, workspace.files)
    {
      plan, completed, results, repairs, revisions := initial, {}, map[], 0, 0;
      owner, outputs, trail := map[], map[], [];
    }

    /** The outer loop; it ends because every round that goes on is shorter than the last. */
    method Loop(g0: PlanGraph, ghost plan0: Plan, ghost files0: Files, ghost rs0: seq<Run>)
      returns (state: RunState, ghost rs: seq<Run>)
      requires IsRun(Cfg(), plan0, files0, rs0) && rs0[|rs0| - 1] == Books(Shared(), Idle)
      requires Represents(g0, plan)
      modifies this`trail, this`owner, this`outputs, workspace, this`plan, this`completed, this`results, this`repairs, this`revisions
      ensures IsRun(Cfg(), plan0, files0, rs)
      ensures rs[|rs| - 1] == Books(Shared(), Finished(state))
    {
      var g := g0;
      rs := rs0;
      ghost var cfg := Cfg();
      while true
        invariant Cfg() == cfg && IsRun(cfg, plan0, files0, rs)
        invariant rs[|rs| - 1] == Books(Shared(), Idle) && Represents(g, plan)
        decreases RepairsLeft(cfg, rs[|rs| - 1]), RevisionsLeft(rs[|rs| - 1]), Undone(rs[|rs| - 1])
      {
        var stopRequested: bool := *;
        var next;
        next, state, rs := Round(g, stopRequested, plan0, files0, rs);
        if next == None {
          return state, rs;
        }
        g := next.value;
      }
    }

    /**
     run: a refused plan raises before anything starts; otherwise the states passed
     through form a run of the model, from its launch to the state reported.
     */
    method Execute(initial: Plan) returns (outcome: Result<RunState, GraphError>, ghost rs: seq<Run>)
      modifies this, workspace
      ensures outcome.Err? <==> !Accepted(initial)
      ensures outcome.Err? ==> Refuses(initial, outcome.error) && workspace.files == old(workspace.files)
      ensures outcome.Ok? ==> IsRun(Cfg(), initial, old(workspace.files), rs)
      ensures outcome.Ok? ==> rs[|rs| - 1] == Books(Shared(), Finished(outcome.value))
    {
      rs := [];
      var built := Prepare(initial);
      if built.Err? {
        return Err(built.error), rs;
      }
      rs := [Launch(initial, workspace.files)];
      assert IsRun(Cfg(), initial, workspace.files, rs);
      var state;
      state, rs := Loop(built.value, initial, workspace.files, rs);
      outcome := Ok(state);
    }
  }

  method AllAncestors(g: PlanGraph) returns (up: map<NodeId, set<NodeId>>)
    requires Sound(g)
    ensures up == map n | n in g.deps :: Cone(g.deps, n)
  {
    up := map[];
    for i := 0 to |g.order|
      invariant up.Keys == ToSet(g.order[..i])
      invariant forall n :: n in up ==> up[n] == Cone(g.deps, n)
    {
      var n := g.order[i];
      TakeOne(g.order, i);
      assert n in ToSet(g.order);
      var cone := AncestorsOf(g, n);
      up := up[n := cone.value];
    }
    assert g.order[..|g.order|] == g.order;
  }

  lemma ReplannedIs(cfg: Config, r: Run, revised: Option<Plan>)
    requires revised == WantsRevision(cfg, r)
    ensures revised.None? ==> Replanned(cfg, r) == r
    ensures revised.Some? ==>
      var r' := r.(plan := revised.value, revisions := r.revisions + 1, ctx := Emit(r.ctx, PlanRevised));
      Replanned(cfg, r) == if Accepted(revised.value) then r' else r'.(phase := Finished(RunRaised))
  {
  }

  /** Settling from the books alone, as EndRound does from a running batch. */
  ghost function Concluded(cfg: Config, r: Run, specs: seq<NodeSpec>, flights: map<NodeId, Flight>): Run
    requires forall s :: s in specs ==> s.id in flights && flights[s.id].Done?
  {
    var r' := Settle(cfg, r, specs, flights);
    if r'.phase.Finished? then r' else Replanned(cfg, r')
  }

  /** Smaller in (repairs left, revisions left, uncompleted nodes). */
  ghost predicate Shorter(cfg: Config, a: Run, b: Run) {
    if RepairsLeft(cfg, a) != RepairsLeft(cfg, b) then RepairsLeft(cfg, a) < RepairsLeft(cfg, b)
    else if RevisionsLeft(a) != RevisionsLeft(b) then RevisionsLeft(a) < RevisionsLeft(b)
    else Undone(a) < Undone(b)
  }

  lemma BegunRun(cfg: Config, plan: Plan, files: Files, rs: seq<Run>, stop: bool)
    requires IsRun(cfg, plan, files, rs) && rs[|rs| - 1].phase.Idle?
    ensures var r := rs[|rs| - 1];
      && r.completed <= ToSet(Ids(r.plan.nodes))
      && IsRun(cfg, plan, files, rs + [BeginRound(r, stop)])
      && forall s :: s in ReadySpecs(r) ==> s.id in StartBatch(ReadySpecs(r), r.ctx).flights
  {
    RunSane(cfg, plan, files, rs, |rs| - 1);
    var r := rs[|rs| - 1];
    ExtendRun(cfg, plan, files, rs, BeginRound(r, stop));
    forall s | s in ReadySpecs(r)
      ensures s.id in Ids(ReadySpecs(r))
    {
      IdOf(ReadySpecs(r), s);
    }
  }

  lemma EndedRun(cfg: Config, plan: Plan, files: Files, rs: seq<Run>, begun: Run)
    requires IsRun(cfg, plan, files, rs) && rs[|rs| - 1].phase.Running? && AllDone(rs[|rs| - 1].phase.batch)
    requires forall s :: s in rs[|rs| - 1].phase.batch.specs ==> s.id in rs[|rs| - 1].phase.batch.flights
    requires var r := rs[|rs| - 1];
      begun.plan == r.plan && begun.completed == r.completed && begun.repairs == r.repairs
    ensures var r := rs[|rs| - 1];
      && IsRun(cfg, plan, files, rs + [EndRound(cfg, r)])
      && (EndRound(cfg, r).phase.Idle? ==> Shorter(cfg, EndRound(cfg, r), begun))
      && EndRound(cfg, r) == Concluded(cfg, r.(ctx := r.phase.batch.ctx, phase := Idle), r.phase.batch.specs, r.phase.batch.flights)
  {
    RunSane(cfg, plan, files, rs, |rs| - 1);
    var r := rs[|rs| - 1];
    ExtendRun(cfg, plan, files, rs, EndRound(cfg, r));
    EndLess(cfg, r);
  }

  method ReadyAmong(nodes: seq<NodeSpec>, deps: Adj, completed: set<NodeId>, results: map<NodeId, NodeResult>)
    returns (ready: seq<NodeSpec>)
    ensures ready == Filter(nodes, (n: NodeSpec) => IsReady(deps, completed, n.id) && n.id !in results)
  {
    ready := [];
    ghost var p := (n: NodeSpec) => IsReady(deps, completed, n.id) && n.id !in results;
    for i := 0 to |nodes|
      invariant ready == Filter(nodes[..i], p)
    {
      assert nodes[..i + 1] == nodes[..i] + [nodes[i]];
      FilterConcat(nodes[..i], [nodes[i]], p);
      if IsReady(deps, completed, nodes[i].id) && nodes[i].id !in results {
        ready := ready + [nodes[i]];
      }
    }
    assert nodes[..|nodes|] == nodes;
  }

  lemma TurnedRun(cfg: Config, plan: Plan, files: Files, rs: seq<Run>, spec: NodeSpec, o: Oracle, b': Batch)
    requires IsRun(cfg, plan, files, rs) && rs[|rs| - 1].phase.Running? && CanStep(rs[|rs| - 1].phase.batch, spec)
    requires b' == StepBatch(cfg, rs[|rs| - 1].phase.batch, spec, o)
    ensures var r := rs[|rs| - 1];
      && IsRun(cfg, plan, files, rs + [r.(phase := Running(b'))])
      && FlightsLeft(r.phase.batch.specs, b'.flights) < FlightsLeft(r.phase.batch.specs, r.phase.batch.flights)
  {
    var r := rs[|rs| - 1];
    var b := r.phase.batch;
    RunTally(cfg, plan, files, rs, |rs| - 1);
    ExtendRun(cfg, plan, files, rs, r.(phase := Running(b')));
    TurnRank(cfg, b.ctx, spec, b.flights[spec.id], o);
    FlightsDrop(b.specs, b.flights, spec, b'.flights[spec.id]);
  }

  lemma ExtendRun(cfg: Config, plan: Plan, files: Files, rs: seq<Run>, r: Run)
    requires IsRun(cfg, plan, files, rs) && Step(cfg, rs[|rs| - 1], r)
    ensures IsRun(cfg, plan, files, rs + [r])
  {
    var big := rs + [r];
    forall i | 0 <= i < |big| - 1
      ensures Step(cfg, big[i], big[i + 1])
    {
      if i < |rs| - 1 {
        assert Step(cfg, rs[i], rs[i + 1]);
      }
    }
  }

  lemma EveryFlightDone(r: Run)
    requires r.phase.Running? && Sane(r)
    requires forall s :: s in r.phase.batch.specs && s.id in r.phase.batch.flights ==> r.phase.batch.flights[s.id].Done?
    ensures AllDone(r.phase.batch)
  {
    var b := r.phase.batch;
    forall n | n in b.flights
      ensures b.flights[n].Done?
    {
      assert n in Ids(b.specs);
      var s := SpecById(b.specs, n);
    }
  }
}
