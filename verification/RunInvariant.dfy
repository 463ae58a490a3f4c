/** What holds in every state of every run of keel/executor.py. */
module RunInvariant {
  import opened Prelude
  import opened Digraph
  import opened PlanGraphs
  import opened Planner
  import opened Replan
  import opened ExecutorModel
  import Workspaces

  function IdSet(plan: Plan): set<NodeId> {
    ToSet(Ids(plan.nodes))
  }

  /** Only completed nodes have results between rounds, and each of them left its output. */
  ghost predicate Books(r: Run, outputs: map<NodeId, Evidence>) {
    && Accepted(r.plan)
    && r.results.Keys == r.completed
    && (forall n :: n in r.results ==> r.results[n].state == COMPLETED)
    && r.completed <= outputs.Keys <= IdSet(r.plan)
  }

  ghost predicate BatchBooks(r: Run, b: Batch) {
    && Books(r, b.ctx.outputs)
    && b.specs == ReadySpecs(r) && b.specs != []
    && b.flights.Keys == ToSet(Ids(b.specs))
    && (forall n :: n in b.flights && b.flights[n].Done? && b.flights[n].result.state == COMPLETED ==> n in b.ctx.outputs)
  }

  ghost predicate Sane(r: Run) {
    match r.phase
    case Idle => Books(r, r.ctx.outputs)
    case Running(b) => BatchBooks(r, b)
    case Finished(RunCompleted) => Accepted(r.plan) && r.completed == IdSet(r.plan) && Books(r, r.ctx.outputs)
    case Finished(RunRaised) => !Accepted(r.plan) && r.revisions > 0
    case _ => true
  }

  lemma ReadySpec(r: Run, s: NodeSpec)
    requires s in ReadySpecs(r)
    ensures s in r.plan.nodes && IsReady(DepMap(r.plan.nodes), r.completed, s.id) && s.id !in r.results
    ensures s.id in Ids(r.plan.nodes)
  {
    var i :| 0 <= i < |r.plan.nodes| && r.plan.nodes[i] == s;
    assert Ids(r.plan.nodes)[i] == s.id;
  }

  lemma SpecById(specs: seq<NodeSpec>, n: NodeId) returns (s: NodeSpec)
    requires n in Ids(specs)
    ensures s in specs && s.id == n
  {
    var i :| 0 <= i < |specs| && Ids(specs)[i] == n;
    s := specs[i];
  }

  lemma IdOf(specs: seq<NodeSpec>, s: NodeSpec)
    requires s in specs
    ensures s.id in Ids(specs)
  {
    var i :| 0 <= i < |specs| && specs[i] == s;
    assert Ids(specs)[i] == s.id;
  }

  lemma DropFirst(specs: seq<NodeSpec>)
    requires specs != [] && Distinct(Ids(specs))
    ensures Distinct(Ids(specs[1..]))
    ensures forall s :: s in specs[1..] ==> s in specs && s.id != specs[0].id
  {
    assert Ids(specs) == [specs[0].id] + Ids(specs[1..]);
    forall s | s in specs[1..]
      ensures s.id != specs[0].id
    {
      IdOf(specs[1..], s);
    }
  }

  lemma ReadyDistinct(r: Run)
    requires Accepted(r.plan)
    ensures Distinct(Ids(ReadySpecs(r)))
  {
    var deps := DepMap(r.plan.nodes);
    DistinctIdsFilter(r.plan.nodes, (n: NodeSpec) => IsReady(deps, r.completed, n.id) && n.id !in r.results);
  }

  lemma {:induction false} DistinctIdsFilter(nodes: seq<NodeSpec>, p: NodeSpec -> bool)
    requires Distinct(Ids(nodes))
    ensures Distinct(Ids(Filter(nodes, p)))
  {
    if nodes != [] {
      DropFirst(nodes);
      DistinctIdsFilter(nodes[1..], p);
      FreshFirst(nodes[0], Filter(nodes[1..], p), nodes[1..]);
    }
  }

  lemma FreshFirst(first: NodeSpec, rest: seq<NodeSpec>, all: seq<NodeSpec>)
    requires Distinct(Ids(rest)) && first.id !in Ids(all) && forall s :: s in rest ==> s in all
    ensures Distinct(Ids([first] + rest))
  {
    forall n | n in Ids(rest)
      ensures n != first.id
    {
      var s := SpecById(rest, n);
      IdOf(all, s);
    }
    DistinctCons(first.id, Ids(rest));
    assert Ids([first] + rest) == [first.id] + Ids(rest);
  }

  /** With nothing ready and nothing failed, everything is completed: an accepted plan has no dead end. */
  lemma NothingReady(r: Run)
    requires Books(r, r.ctx.outputs) && ReadySpecs(r) == []
    ensures r.completed == IdSet(r.plan)
  {
    var deps := DepMap(r.plan.nodes);
    AcceptedClosed(r.plan);
    if n :| n in IdSet(r.plan) && n !in r.completed {
      var m := MinimalIn(deps, deps.Keys - r.completed, n);
      var s := SpecById(r.plan.nodes, m);
      assert IsReady(deps, r.completed, s.id);
    }
  }

  lemma BeginSane(r: Run, stop: bool)
    requires r.phase.Idle? && Sane(r)
    ensures Sane(BeginRound(r, stop))
    ensures BeginRound(r, stop).phase != Finished(RunRaised)
  {
    if !stop && ReadySpecs(r) == [] {
      NothingReady(r);
    }
  }

  /** A turn only ever adds the node's own output, and always does when it completes. */
  lemma TurnOutputs(cfg: Config, c: Ctx, spec: NodeSpec, f: Flight, o: Oracle)
    ensures var t := Resume(cfg, c, spec, f, o);
      && c.outputs.Keys <= t.ctx.outputs.Keys <= c.outputs.Keys + {spec.id}
      && (forall n :: n in c.outputs && n != spec.id ==> t.ctx.outputs[n] == c.outputs[n])
      && (!f.Done? && t.flight.Done? && t.flight.result.state == COMPLETED ==> spec.id in t.ctx.outputs)
  {
    if f.Dispatching? && o.outcome.Produced? {
      PersistOutputs(cfg, c, spec.id, o.outcome.artifacts);
    }
  }

  lemma {:induction false} PersistOutputs(cfg: Config, c: Ctx, node: NodeId, artifacts: seq<Artifact>)
    ensures Persist(cfg, c, node, artifacts).outputs == c.outputs
    decreases artifacts
  {
    if artifacts != [] {
      PersistOneOutputs(cfg, c, node, artifacts[0]);
      if !Unsafe(artifacts[0]) {
        PersistOutputs(cfg, PersistOne(cfg, c, node, artifacts[0]), node, artifacts[1..]);
      }
    }
  }

  lemma PersistOneOutputs(cfg: Config, c: Ctx, node: NodeId, a: Artifact)
    ensures PersistOne(cfg, c, node, a).outputs == c.outputs
  {
  }

  lemma ResumeSane(cfg: Config, r: Run, spec: NodeSpec, o: Oracle)
    requires r.phase.Running? && Sane(r) && CanStep(r.phase.batch, spec)
    ensures Sane(r.(phase := Running(StepBatch(cfg, r.phase.batch, spec, o))))
  {
    var b := r.phase.batch;
    TurnOutputs(cfg, b.ctx, spec, b.flights[spec.id], o);
    ReadySpec(r, spec);
  }

  // ---- Settling a batch --------------------------------------------------------------

  ghost predicate Balanced(r: Run) {
    r.results.Keys == r.completed && forall n :: n in r.results ==> r.results[n].state == COMPLETED
  }

  /** Settling keeps the books: what it drops from the results it also drops from the completed set. */
  lemma {:induction false} SettleBalanced(cfg: Config, r: Run, specs: seq<NodeSpec>, flights: map<NodeId, Flight>)
    requires forall s :: s in specs ==> s.id in flights && flights[s.id].Done?
    requires r.phase.Idle? && Balanced(r)
    ensures var r' := Settle(cfg, r, specs, flights);
      && r'.plan == r.plan && r'.revisions == r.revisions && r'.ctx.outputs == r.ctx.outputs
      && (r'.phase.Idle? || r'.phase == Finished(RunFailed) || r'.phase == Finished(RunNeedsInput))
      && (r'.phase.Idle? ==> Balanced(r'))
      && (forall n :: n in r'.completed && n !in r.completed ==>
           n in Ids(specs) && n in flights && flights[n].result.state == COMPLETED)
    decreases specs
  {
    if specs != [] {
      var id, outcome, rest := specs[0].id, flights[specs[0].id].result, specs[1..];
      var r1 := r.(results := r.results[id := outcome]);
      assert forall n :: n in Ids(rest) ==> n in Ids(specs) by {
        assert Ids(specs) == [id] + Ids(rest);
      }
      if outcome.state == COMPLETED {
        SettleBalanced(cfg, r1.(completed := r.completed + {id}), rest, flights);
      } else if outcome.state != INPUT_REQUIRED && CanRepair(cfg, r1, id, outcome) {
        SettleBalanced(cfg, Repaired(r1), rest, flights);
      }
    }
  }

  lemma ReplannedSane(cfg: Config, r: Run)
    requires r.phase.Idle? && Sane(r) && r.revisions >= 0
    ensures Sane(Replanned(cfg, r))
    ensures Replanned(cfg, r).phase.Idle? || Replanned(cfg, r).phase == Finished(RunRaised)
  {
    var w := WantsRevision(cfg, r);
    if w.Some? {
      RevisedDeps(r.plan, cfg.reason);
      assert forall n :: n in IdSet(r.plan) ==> n in IdSet(w.value);
    }
  }

  lemma EndSane(cfg: Config, r: Run)
    requires r.phase.Running? && Sane(r) && AllDone(r.phase.batch) && r.revisions >= 0
    requires forall s :: s in r.phase.batch.specs ==> s.id in r.phase.batch.flights
    ensures Sane(EndRound(cfg, r))
  {
    var b := r.phase.batch;
    var r0 := r.(ctx := b.ctx, phase := Idle);
    SettleBalanced(cfg, r0, b.specs, b.flights);
    var r1 := Settle(cfg, r0, b.specs, b.flights);
    if r1.phase.Idle? {
      ReplannedSane(cfg, r1);
    }
  }

  lemma StepSane(cfg: Config, r: Run, r': Run)
    requires Sane(r) && r.revisions >= 0 && Step(cfg, r, r')
    ensures Sane(r') && r'.revisions >= 0
  {
    match r.phase {
      case Idle =>
        var stop :| r' == BeginRound(r, stop);
        BeginSane(r, stop);
      case Running(b) =>
        if spec, o :| CanStep(b, spec) && r' == r.(phase := Running(StepBatch(cfg, b, spec, o))) {
          ResumeSane(cfg, r, spec, o);
        } else {
          EndSane(cfg, r);
          SettleBalanced(cfg, r.(ctx := b.ctx, phase := Idle), b.specs, b.flights);
        }
      case Finished(_) =>
    }
  }

  lemma StepOfRun(cfg: Config, plan: Plan, files: map<Workspaces.Path, string>, rs: seq<Run>, i: nat)
    requires IsRun(cfg, plan, files, rs) && i + 1 < |rs|
    ensures Step(cfg, rs[i], rs[i + 1])
  {
  }

  lemma {:induction false} RunSane(cfg: Config, plan: Plan, files: map<Workspaces.Path, string>, rs: seq<Run>, i: nat)
    requires IsRun(cfg, plan, files, rs) && i < |rs|
    ensures Sane(rs[i]) && rs[i].revisions >= 0
  {
    if i > 0 {
      RunSane(cfg, plan, files, rs, i - 1);
      StepSane(cfg, rs[i - 1], rs[i]);
    }
  }

  /** A run that reports success has completed every node of its final plan. */
  lemma SuccessIsSound(cfg: Config, plan: Plan, files: map<Workspaces.Path, string>, rs: seq<Run>, i: nat)
    requires IsRun(cfg, plan, files, rs) && i < |rs| && rs[i].phase == Finished(RunCompleted)
    ensures forall n :: n in Ids(rs[i].plan.nodes) ==> n in rs[i].results && rs[i].results[n].state == COMPLETED
  {
    RunSane(cfg, plan, files, rs, i);
    assert forall n :: n in Ids(rs[i].plan.nodes) ==> n in IdSet(rs[i].plan);
  }

  /** ready() never sees an id the current plan does not have, and no node finds an input missing. */
  lemma InputsPresent(cfg: Config, plan: Plan, files: map<Workspaces.Path, string>, rs: seq<Run>, i: nat)
    requires IsRun(cfg, plan, files, rs) && i < |rs|
    ensures rs[i].phase.Idle? ==> rs[i].completed <= ToSet(Ids(rs[i].plan.nodes))
    ensures rs[i].phase.Running? ==>
      forall s, d :: s in rs[i].phase.batch.specs && d in s.dependsOn ==> d in rs[i].phase.batch.ctx.outputs
  {
    RunSane(cfg, plan, files, rs, i);
    var r := rs[i];
    if r.phase.Running? {
      forall s, d | s in r.phase.batch.specs && d in s.dependsOn
        ensures d in r.phase.batch.ctx.outputs
      {
        ReadySpec(r, s);
        DepMapAt(r.plan.nodes);
        var j :| 0 <= j < |r.plan.nodes| && r.plan.nodes[j] == s;
        assert d in DepMap(r.plan.nodes)[s.id];
      }
    }
  }

  /**
   Settling a round makes the run blow up exactly when it wants a revision and the plan
   has no design stage, or an implementation upstream of it.
   */
  lemma RaisesExactlyWhen(cfg: Config, r: Run)
    requires r.phase.Running? && Sane(r) && AllDone(r.phase.batch)
    requires forall s :: s in r.phase.batch.specs ==> s.id in r.phase.batch.flights
    ensures var b := r.phase.batch;
      var settled := Settle(cfg, r.(ctx := b.ctx, phase := Idle), b.specs, b.flights);
      EndRound(cfg, r).phase == Finished(RunRaised) <==>
        && settled.phase.Idle? && WantsRevision(cfg, settled).Some?
        && (DESIGN !in Ids(r.plan.nodes) || Reaches(DepMap(r.plan.nodes), DESIGN, IMPLEMENT))
  {
    var b := r.phase.batch;
    var r0 := r.(ctx := b.ctx, phase := Idle);
    SettleBalanced(cfg, r0, b.specs, b.flights);
    if REFACTOR !in Ids(r.plan.nodes) {
      RevisedAccepted(r.plan, cfg.reason);
    }
  }

  /** The run blows up only when the one revision it attempts is not an acceptable plan. */
  lemma RaisedMeansBadRevision(cfg: Config, plan: Plan, files: map<Workspaces.Path, string>, rs: seq<Run>, i: nat)
    requires IsRun(cfg, plan, files, rs) && i < |rs| && rs[i].phase == Finished(RunRaised)
    ensures rs[i].revisions > 0 && !Accepted(rs[i].plan)
  {
    RunSane(cfg, plan, files, rs, i);
  }
}
