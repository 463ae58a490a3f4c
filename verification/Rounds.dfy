/**
 The executor recomputes the ready set every round; without repair or re-plan,
 the rounds it runs are exactly the levels of the plan, in order.
 */
module Rounds {
  import opened Prelude
  import opened Digraph
  import opened PlanGraphs
  import opened Planner
  import opened ExecutorModel
  import opened RunInvariant
  import opened RunBounds
  import opened Races
  import Workspaces

  /** How many rounds have begun by state i. */
  function Begun(rs: seq<Run>, i: nat): nat
    requires i < |rs|
  {
    if i == 0 then 0
    else Begun(rs, i - 1) + if rs[i - 1].phase.Idle? && rs[i].phase.Running? then 1 else 0
  }

  lemma {:induction false} IdsFilter(nodes: seq<NodeSpec>, p: NodeSpec -> bool, q: NodeId -> bool)
    requires forall n :: n in nodes ==> p(n) == q(n.id)
    ensures Ids(Filter(nodes, p)) == Filter(Ids(nodes), q)
  {
    if nodes != [] {
      IdsFilter(nodes[1..], p, q);
      assert Ids(nodes) == [nodes[0].id] + Ids(nodes[1..]);
      var rest := Filter(nodes[1..], p);
      assert Ids([nodes[0]] + rest) == [nodes[0].id] + Ids(rest);
    }
  }

  /** Between rounds, what the executor will run is what ready() offers. */
  lemma ReadySpecsAreReady(r: Run)
    requires Books(r, r.ctx.outputs)
    ensures Ids(ReadySpecs(r)) == ReadyIds(Ids(r.plan.nodes), DepMap(r.plan.nodes), r.completed)
  {
    var deps := DepMap(r.plan.nodes);
    IdsFilter(r.plan.nodes, (n: NodeSpec) => IsReady(deps, r.completed, n.id) && n.id !in r.results,
              n => IsReady(deps, r.completed, n));
  }

  ghost predicate OnSchedule(levels: seq<seq<NodeId>>, r: Run, begun: nat) {
    match r.phase
    case Idle => begun <= |levels| && r.completed == Below(levels, begun)
    case Running(b) => 0 < begun <= |levels| && r.completed == Below(levels, begun - 1) && Ids(b.specs) == levels[begun - 1]
    case Finished(RunCompleted) => begun == |levels|
    case _ => true
  }

  lemma BeginOnSchedule(levels: seq<seq<NodeId>>, r: Run, stop: bool, begun: nat)
    requires r.phase.Idle? && Sane(r) && OnSchedule(levels, r, begun)
    requires IsLayering(Ids(r.plan.nodes), DepMap(r.plan.nodes), levels)
    ensures var r' := BeginRound(r, stop);
      OnSchedule(levels, r', begun + if r'.phase.Running? then 1 else 0)
  {
    ReadyIsNextLayer(Ids(r.plan.nodes), DepMap(r.plan.nodes), levels, begun);
    ReadySpecsAreReady(r);
    if begun < |levels| {
      assert Layer(Ids(r.plan.nodes), DepMap(r.plan.nodes), levels, begun);
    }
  }

  lemma EndOnSchedule(cfg: Config, levels: seq<seq<NodeId>>, r: Run, begun: nat)
    requires r.phase.Running? && Sane(r) && OnSchedule(levels, r, begun) && AllDone(r.phase.batch)
    requires forall s :: s in r.phase.batch.specs ==> s.id in r.phase.batch.flights
    requires Unrepaired(EndRound(cfg, r)) && r.repairs >= 0 && r.revisions >= 0
    ensures OnSchedule(levels, EndRound(cfg, r), begun)
  {
    var b := r.phase.batch;
    var r0 := r.(ctx := b.ctx, phase := Idle);
    SettleProgress(cfg, r0, b.specs, b.flights);
    SettleBalanced(cfg, r0, b.specs, b.flights);
    ReplannedCounts(cfg, Settle(cfg, r0, b.specs, b.flights));
  }

  lemma RevisionsGrow(cfg: Config, r: Run, r': Run)
    requires Step(cfg, r, r')
    ensures r'.repairs >= r.repairs && r'.revisions >= r.revisions
    ensures r'.revisions == r.revisions ==> r'.plan == r.plan
  {
    match r.phase {
      case Idle =>
      case Running(b) =>
        if AllDone(b) && (forall s :: s in b.specs ==> s.id in b.flights) && r' == EndRound(cfg, r) {
          var r0 := r.(ctx := b.ctx, phase := Idle);
          SettleCounts(cfg, r0, b.specs, b.flights);
          ReplannedCounts(cfg, Settle(cfg, r0, b.specs, b.flights));
        }
      case Finished(_) =>
    }
  }

  lemma StepOnSchedule(cfg: Config, levels: seq<seq<NodeId>>, r: Run, r': Run, begun: nat)
    requires Step(cfg, r, r') && Sane(r) && OnSchedule(levels, r, begun)
    requires IsLayering(Ids(r.plan.nodes), DepMap(r.plan.nodes), levels)
    requires Unrepaired(r') && r.repairs >= 0 && r.revisions >= 0
    ensures OnSchedule(levels, r', begun + if r.phase.Idle? && r'.phase.Running? then 1 else 0)
  {
    match r.phase {
      case Idle =>
        var stop :| r' == BeginRound(r, stop);
        BeginOnSchedule(levels, r, stop, begun);
      case Running(b) =>
        if r'.phase.Running? {
          EndNotRunning(cfg, r);
        } else {
          EndOnSchedule(cfg, levels, r, begun);
        }
      case Finished(_) =>
    }
  }

  /**
   In any run, as long as nothing has been repaired or re-planned, the k-th round
   runs exactly level k and completes it before the next round begins.
   */
  lemma {:induction false} RoundsAreLevels(cfg: Config, plan: Plan, files: Workspaces.Files, rs: seq<Run>,
                                           levels: seq<seq<NodeId>>, i: nat)
    requires IsRun(cfg, plan, files, rs) && i < |rs| && Unrepaired(rs[i])
    requires IsLayering(Ids(plan.nodes), DepMap(plan.nodes), levels)
    ensures rs[i].plan == plan && OnSchedule(levels, rs[i], Begun(rs, i))
  {
    PlanKept(cfg, plan, files, rs, i);
    if i > 0 {
      StillUnrepaired(cfg, plan, files, rs, i);
      RoundsAreLevels(cfg, plan, files, rs, levels, i - 1);
      NextOnSchedule(cfg, plan, files, rs, levels, i);
    }
  }

  lemma StillUnrepaired(cfg: Config, plan: Plan, files: Workspaces.Files, rs: seq<Run>, i: nat)
    requires IsRun(cfg, plan, files, rs) && 0 < i < |rs| && Unrepaired(rs[i])
    ensures Unrepaired(rs[i - 1])
  {
    PlanKept(cfg, plan, files, rs, i - 1);
    StepOfRun(cfg, plan, files, rs, i - 1);
    WasUnrepaired(cfg, rs[i - 1], rs[i]);
  }

  lemma WasUnrepaired(cfg: Config, r: Run, r': Run)
    requires Step(cfg, r, r') && r.repairs >= 0 && r.revisions >= 0 && Unrepaired(r')
    ensures Unrepaired(r)
  {
    RevisionsGrow(cfg, r, r');
  }

  lemma {:induction false} NextOnSchedule(cfg: Config, plan: Plan, files: Workspaces.Files, rs: seq<Run>,
                                          levels: seq<seq<NodeId>>, i: nat)
    requires IsRun(cfg, plan, files, rs) && 0 < i < |rs| && Unrepaired(rs[i])
    requires rs[i - 1].plan == plan && OnSchedule(levels, rs[i - 1], Begun(rs, i - 1))
    requires IsLayering(Ids(plan.nodes), DepMap(plan.nodes), levels)
    ensures OnSchedule(levels, rs[i], Begun(rs, i))
  {
    SoundBefore(cfg, plan, files, rs, i - 1);
    StepOfRun(cfg, plan, files, rs, i - 1);
    ScheduleStep(cfg, plan, levels, rs, i);
  }

  lemma SoundBefore(cfg: Config, plan: Plan, files: Workspaces.Files, rs: seq<Run>, i: nat)
    requires IsRun(cfg, plan, files, rs) && i < |rs|
    ensures Sane(rs[i]) && rs[i].repairs >= 0 && rs[i].revisions >= 0
  {
    PlanKept(cfg, plan, files, rs, i);
    RunSane(cfg, plan, files, rs, i);
  }

  lemma {:induction false} ScheduleStep(cfg: Config, plan: Plan, levels: seq<seq<NodeId>>, rs: seq<Run>, i: nat)
    requires 0 < i < |rs| && Step(cfg, rs[i - 1], rs[i]) && Sane(rs[i - 1])
    requires rs[i - 1].plan == plan && OnSchedule(levels, rs[i - 1], Begun(rs, i - 1))
    requires IsLayering(Ids(plan.nodes), DepMap(plan.nodes), levels)
    requires Unrepaired(rs[i]) && rs[i - 1].repairs >= 0 && rs[i - 1].revisions >= 0
    ensures OnSchedule(levels, rs[i], Begun(rs, i))
  {
    StepOnSchedule(cfg, levels, rs[i - 1], rs[i], Begun(rs, i - 1));
  }

  lemma EndNotRunning(cfg: Config, r: Run)
    requires r.phase.Running?
    ensures AllDone(r.phase.batch) && (forall s :: s in r.phase.batch.specs ==> s.id in r.phase.batch.flights) ==>
      !EndRound(cfg, r).phase.Running?
  {
    var b := r.phase.batch;
    if AllDone(b) && forall s :: s in b.specs ==> s.id in b.flights {
      SettleNotRunning(cfg, r.(ctx := b.ctx, phase := Idle), b.specs, b.flights);
    }
  }
}
