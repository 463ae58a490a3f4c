/** The workspace along a whole run: the launch files plus what has been committed since. */
module RunFiles {
  import opened Prelude
  import opened Digraph
  import opened PlanGraphs
  import opened Planner
  import opened Replan
  import opened Workspaces
  import opened ExecutorModel
  import opened RunInvariant
  import opened Isolation
  import opened RollbackLimits

  /** In this step of a batch n has completed. */
  ghost predicate JustCompleted(b: Batch, b': Batch, n: NodeId) {
    Committed(b'.flights, n) && !Committed(b.flights, n)
  }

  /** What a step of a run commits to the workspace: nothing, or the artifacts of the node that completes. */
  ghost function Landed(r: Run, r': Run): Files {
    if r.phase.Running? && r'.phase.Running? && exists n :: JustCompleted(r.phase.batch, r'.phase.batch, n) then
      var n :| JustCompleted(r.phase.batch, r'.phase.batch, n);
      Commit(r'.phase.batch.flights, n)
    else map[]
  }

  /** The launch files overlaid with every commit up to state i, in the order of completion. */
  ghost function Overlaid(rs: seq<Run>, i: nat): Files
    requires i < |rs|
  {
    if i == 0 then CtxOf(rs[0]).files else Overlaid(rs, i - 1) + Landed(rs[i - 1], rs[i])
  }

  /** A node that moves writes safe paths of its own only. */
  ghost predicate Careful(cfg: Config, own: map<NodeId, set<Path>>, r: Run, r': Run) {
    r.phase.Running? && r'.phase.Running? ==>
      exists spec, o ::
        && CanStep(r.phase.batch, spec) && WritesOwn(own, spec, o)
        && r' == r.(phase := Running(StepBatch(cfg, r.phase.batch, spec, o)))
  }

  /** The workspace is w, and suspended nodes remember their own paths as they are in w. */
  ghost predicate Kept(own: map<NodeId, set<Path>>, w: Files, r: Run) {
    && Disjoint(own, r.plan.nodes) && CtxOf(r).files == w
    && (r.phase.Running? ==>
          forall n :: n in r.phase.batch.flights ==> n in own && Remembers(w, own[n], r.phase.batch.flights[n]))
  }

  lemma OverlayLook(w: Files, kept: Files, p: Path)
    ensures Look(w + kept, p) == if p in kept then Some(kept[p]) else Look(w, p)
  {
  }

  /** The workspace after a turn: as it was, or overlaid with what the node leaves behind. */
  lemma TurnFiles(cfg: Config, c: Ctx, spec: NodeSpec, f: Flight, o: Oracle, mine: set<Path>)
    requires !f.Done? && Remembers(c.files, mine, f)
    requires mine != {} ==> spec.rollback
    requires forall p :: p in mine ==> Visible(p)
    requires o.outcome.Produced? ==> AllSafe(o.outcome.artifacts) && PathsOf(o.outcome.artifacts) <= mine
    ensures var t := Resume(cfg, c, spec, f, o);
      && Remembers(c.files, mine, t.flight)
      && t.ctx.files == c.files + Left(t.flight)
  {
    var t := Resume(cfg, c, spec, f, o);
    TurnOwn(cfg, c, spec, f, o, mine, c.files);
    forall p
      ensures Look(t.ctx.files, p) == Look(c.files + Left(t.flight), p)
    {
      OverlayLook(c.files, Left(t.flight), p);
      if p !in mine {
        TurnFrame(cfg, c, spec, f, o, mine, c.files, p);
      }
    }
    SameFiles(t.ctx.files, c.files + Left(t.flight));
  }

  /** What a flight leaves behind: its artifacts once it has completed. */
  function Left(f: Flight): Files {
    if f.Done? && f.result.state == COMPLETED then Final(f.result.artifacts) else map[]
  }

  /** Another node's commit does not touch what a suspended node remembers. */
  lemma RemembersStill(w: Files, kept: Files, mine: set<Path>, f: Flight)
    requires Remembers(w, mine, f) && forall p :: p in kept ==> p !in mine
    ensures Remembers(w + kept, mine, f)
  {
    forall p | p in mine
      ensures Look(w + kept, p) == Look(w, p)
    {
      OverlayLook(w, kept, p);
    }
  }

  lemma OwnLands(b: Batch, b': Batch, spec: NodeSpec, f: Flight)
    requires spec.id in b.flights && !b.flights[spec.id].Done? && b'.flights == b.flights[spec.id := f]
    ensures forall n :: JustCompleted(b, b', n) <==> n == spec.id && Committed(b'.flights, n)
    ensures Commit(b'.flights, spec.id) == Left(f)
  {
  }

  lemma LandedIs(cfg: Config, r: Run, spec: NodeSpec, o: Oracle)
    requires r.phase.Running? && CanStep(r.phase.batch, spec)
    ensures var b := r.phase.batch; var t := Resume(cfg, b.ctx, spec, b.flights[spec.id], o);
      Landed(r, r.(phase := Running(StepBatch(cfg, b, spec, o)))) == Left(t.flight)
  {
    var b := r.phase.batch;
    var t := Resume(cfg, b.ctx, spec, b.flights[spec.id], o);
    var b' := StepBatch(cfg, b, spec, o);
    OwnLands(b, b', spec, t.flight);
    if Committed(b'.flights, spec.id) {
      assert JustCompleted(b, b', spec.id);
    }
  }

  lemma MoveKept(cfg: Config, own: map<NodeId, set<Path>>, w: Files, r: Run, spec: NodeSpec, o: Oracle)
    requires r.phase.Running? && Sane(r) && Kept(own, w, r) && CanStep(r.phase.batch, spec) && WritesOwn(own, spec, o)
    ensures var r' := r.(phase := Running(StepBatch(cfg, r.phase.batch, spec, o)));
      Kept(own, w + Landed(r, r'), r')
  {
    var b := r.phase.batch;
    var f, mine := b.flights[spec.id], own[spec.id];
    ReadySpec(r, spec);
    LandedIs(cfg, r, spec, o);
    TurnFiles(cfg, b.ctx, spec, f, o, mine);
    var t := Resume(cfg, b.ctx, spec, f, o);
    OthersRemember(own, w, b, StepBatch(cfg, b, spec, o), spec, t.flight);
  }

  lemma OthersRemember(own: map<NodeId, set<Path>>, w: Files, b: Batch, b': Batch, spec: NodeSpec, f: Flight)
    requires spec.id in b.flights && b'.flights == b.flights[spec.id := f]
    requires forall n :: n in b.flights ==> n in own && Remembers(w, own[n], b.flights[n])
    requires forall m, n :: m in own && n in own && m != n ==> own[m] !! own[n]
    requires Remembers(w, own[spec.id], f)
    ensures forall n :: n in b'.flights ==> n in own && Remembers(w + Left(f), own[n], b'.flights[n])
  {
    forall n | n in b'.flights
      ensures n in own && Remembers(w + Left(f), own[n], b'.flights[n])
    {
      if n != spec.id {
        RemembersStill(w, Left(f), own[n], b.flights[n]);
      } else if Left(f) == map[] {
        assert w + Left(f) == w;
      }
    }
  }

  lemma {:induction false} SettleFiles(cfg: Config, r: Run, specs: seq<NodeSpec>, flights: map<NodeId, Flight>)
    requires forall s :: s in specs ==> s.id in flights && flights[s.id].Done?
    ensures Settle(cfg, r, specs, flights).ctx.files == r.ctx.files && Settle(cfg, r, specs, flights).plan == r.plan
    decreases specs
  {
    if specs != [] {
      var id, outcome, rest := specs[0].id, flights[specs[0].id].result, specs[1..];
      var r1 := r.(results := r.results[id := outcome]);
      if outcome.state == COMPLETED {
        SettleFiles(cfg, r1.(completed := r.completed + {id}), rest, flights);
      } else if outcome.state != INPUT_REQUIRED && CanRepair(cfg, r1, id, outcome) {
        SettleFiles(cfg, Repaired(r1), rest, flights);
      }
    }
  }

  lemma RevisedDisjoint(own: map<NodeId, set<Path>>, plan: Plan, reason: string)
    requires Disjoint(own, plan.nodes) && REFACTOR in own
    ensures Disjoint(own, Revised(plan, SeamRequest(reason)).nodes)
  {
    var next := Revised(plan, SeamRequest(reason));
    RewiredAt(plan.nodes, reason);
    forall s | s in next.nodes
      ensures s.id in own && (own[s.id] != {} ==> s.rollback)
    {
      var i :| 0 <= i < |next.nodes| && next.nodes[i] == s;
      if i < |plan.nodes| {
        assert plan.nodes[i] in plan.nodes;
      }
    }
  }

  lemma EndKept(cfg: Config, own: map<NodeId, set<Path>>, w: Files, r: Run)
    requires r.phase.Running? && Kept(own, w, r) && AllDone(r.phase.batch) && REFACTOR in own
    requires forall s :: s in r.phase.batch.specs ==> s.id in r.phase.batch.flights
    requires !EndRound(cfg, r).phase.Running?
    ensures Kept(own, w, EndRound(cfg, r))
  {
    var b := r.phase.batch;
    var r0 := r.(ctx := b.ctx, phase := Idle);
    SettleFiles(cfg, r0, b.specs, b.flights);
    RevisedDisjoint(own, r.plan, cfg.reason);
  }

  lemma StepKept(cfg: Config, own: map<NodeId, set<Path>>, w: Files, r: Run, r': Run)
    requires Sane(r) && Kept(own, w, r) && Step(cfg, r, r') && Careful(cfg, own, r, r') && REFACTOR in own
    ensures Kept(own, w + Landed(r, r'), r')
  {
    if r.phase.Idle? {
      NothingLanded(w, r, r');
      var stop :| r' == BeginRound(r, stop);
      BeginKept(own, w, r, stop);
    } else if r'.phase.Running? {
      CarefulKept(cfg, own, w, r, r');
    } else {
      NothingLanded(w, r, r');
      OnlyEnds(cfg, r, r');
      EndKept(cfg, own, w, r);
    }
  }

  lemma NothingLanded(w: Files, r: Run, r': Run)
    requires !r.phase.Running? || !r'.phase.Running?
    ensures w + Landed(r, r') == w
  {
    assert w + map[] == w;
  }

  lemma OnlyEnds(cfg: Config, r: Run, r': Run)
    requires r.phase.Running? && !r'.phase.Running? && Step(cfg, r, r')
    ensures AllDone(r.phase.batch) && (forall s :: s in r.phase.batch.specs ==> s.id in r.phase.batch.flights)
    ensures r' == EndRound(cfg, r)
  {
  }

  lemma CarefulKept(cfg: Config, own: map<NodeId, set<Path>>, w: Files, r: Run, r': Run)
    requires Sane(r) && Kept(own, w, r) && Careful(cfg, own, r, r') && r.phase.Running? && r'.phase.Running?
    ensures Kept(own, w + Landed(r, r'), r')
  {
    var spec, o :| CanStep(r.phase.batch, spec) && WritesOwn(own, spec, o)
      && r' == r.(phase := Running(StepBatch(cfg, r.phase.batch, spec, o)));
    MoveKept(cfg, own, w, r, spec, o);
  }

  lemma BeginKept(own: map<NodeId, set<Path>>, w: Files, r: Run, stop: bool)
    requires r.phase.Idle? && Sane(r) && Kept(own, w, r)
    ensures Kept(own, w, BeginRound(r, stop))
  {
    var r' := BeginRound(r, stop);
    if r'.phase.Running? {
      forall n | n in r'.phase.batch.flights
        ensures n in own
      {
        var s := SpecById(ReadySpecs(r), n);
        ReadySpec(r, s);
      }
    }
  }

  /**
   In every state of a run whose nodes write safe, visible paths of their own and can be
   rolled back where they write, the workspace is the launch files overlaid with what
   the completed stages left behind, in the order in which they completed.
   */
  lemma {:induction false} WorkspaceIsCommits(cfg: Config, plan: Plan, files: Files, own: map<NodeId, set<Path>>, rs: seq<Run>, i: nat)
    requires IsRun(cfg, plan, files, rs) && i < |rs| && Disjoint(own, plan.nodes) && REFACTOR in own
    requires forall k :: 0 <= k < |rs| - 1 ==> Careful(cfg, own, rs[k], rs[k + 1])
    ensures CtxOf(rs[i]).files == Overlaid(rs, i) && Kept(own, Overlaid(rs, i), rs[i])
  {
    if i > 0 {
      WorkspaceIsCommits(cfg, plan, files, own, rs, i - 1);
      RunSane(cfg, plan, files, rs, i - 1);
      StepKept(cfg, own, Overlaid(rs, i - 1), rs[i - 1], rs[i]);
    }
  }
}
