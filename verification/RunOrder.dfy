/** In a successful run every node completes last after everything it depends on. */
module RunOrder {
  import opened Prelude
  import opened Digraph
  import opened PlanGraphs
  import opened Planner
  import opened Replan
  import opened SafePaths
  import opened ExecutorModel
  import opened RunInvariant
  import Workspaces

  // That covers repairs, which run two nodes again, and one re-plan.

  /** Where in the trail e last occurs; -1 if it does not. */
  function LastAt(trail: seq<Event>, e: Event): (r: int)
    ensures -1 <= r < |trail|
    ensures r >= 0 ==> trail[r] == e
  {
    if trail == [] then -1
    else
      var k := |trail| - 1;
      if trail[k] == e then k else LastAt(trail[..k], e)
  }

  function Completion(n: NodeId): Event {
    NodeFinished(n, COMPLETED)
  }

  /** Where in the trail n last completed. */
  function LastDone(trail: seq<Event>, n: NodeId): (r: int)
    ensures -1 <= r < |trail|
  {
    LastAt(trail, Completion(n))
  }

  lemma LastAtEmit(trail: seq<Event>, more: Event, e: Event)
    ensures LastAt(trail + [more], e) == if more == e then |trail| else LastAt(trail, e)
  {
    assert (trail + [more])[..|trail|] == trail;
  }

  lemma LastDoneEmit(trail: seq<Event>, more: Event, n: NodeId)
    ensures LastDone(trail + [more], n) == if more == Completion(n) then |trail| else LastDone(trail, n)
  {
    LastAtEmit(trail, more, Completion(n));
  }

  /** Completions, repairs and revisions: what the order of a run is told by. */
  predicate Milestone(e: Event) {
    e.RepairStarted? || e.PlanRevised? || (e.NodeFinished? && e.state == COMPLETED)
  }

  lemma CheckTrail(cfg: Config, c: Ctx, node: NodeId, raw: RawPath, e: Event)
    requires Milestone(e)
    ensures LastAt(CheckConflict(cfg, c, node, raw).trail, e) == LastAt(c.trail, e)
    ensures |c.trail| <= |CheckConflict(cfg, c, node, raw).trail|
  {
    var conflict := Conflict(node, raw, if raw in c.owner then c.owner[raw] else node);
    LastAtEmit(c.trail, conflict, e);
    LastAtEmit(c.trail, Claimed(node, raw), e);
    LastAtEmit(c.trail + [conflict], Claimed(node, raw), e);
  }

  lemma {:induction false} PersistTrail(cfg: Config, c: Ctx, node: NodeId, artifacts: seq<Artifact>, e: Event)
    requires Milestone(e)
    ensures LastAt(Persist(cfg, c, node, artifacts).trail, e) == LastAt(c.trail, e)
    ensures |c.trail| <= |Persist(cfg, c, node, artifacts).trail|
    decreases artifacts
  {
    if artifacts != [] {
      var a := artifacts[0];
      if !a.Inline? {
        CheckTrail(cfg, c, node, a.raw, e);
      }
      if !Unsafe(a) {
        PersistTrail(cfg, PersistOne(cfg, c, node, a), node, artifacts[1..], e);
      }
    }
  }

  lemma FinishTrail(c: Ctx, spec: NodeSpec, r: NodeResult, e: Event)
    requires Milestone(e)
    ensures LastAt(Finish(c, spec, r).ctx.trail, e) ==
      if r.state == COMPLETED && e == Completion(spec.id) then |c.trail| else LastAt(c.trail, e)
  {
    LastAtEmit(c.trail, NodeFinished(spec.id, r.state), e);
  }

  predicate Completes(f: Flight) {
    f.Done? && f.result.state == COMPLETED
  }

  lemma NextTrail(c: Ctx, spec: NodeSpec, attempt: int, snap: Option<Workspaces.Files>, written: set<Workspaces.Path>,
                  rolledBack: bool, e: Event)
    requires Milestone(e)
    ensures var t := NextAttempt(c, spec, attempt, snap, written, rolledBack);
      LastAt(t.ctx.trail, e) == LastAt(c.trail, e) && |c.trail| <= |t.ctx.trail| && !Completes(t.flight)
  {
    LastAtEmit(c.trail, NodeFinished(spec.id, FAILED), e);
  }

  lemma EnterTrail(c: Ctx, spec: NodeSpec, entryAllowed: bool, e: Event)
    requires Milestone(e)
    ensures var t := Enter(c, spec, entryAllowed);
      LastAt(t.ctx.trail, e) == LastAt(c.trail, e) && |c.trail| <= |t.ctx.trail| && !Completes(t.flight)
  {
    LastAtEmit(c.trail, NodeFinished(spec.id, REJECTED), e);
    LastAtEmit(c.trail, NodeFinished(spec.id, FAILED), e);
    LastAtEmit(c.trail, Attempted(spec.id, 1), e);
  }

  /** Of the milestones a turn moves only its own node's last completion, and only by completing it, now. */
  lemma TurnTrail(cfg: Config, c: Ctx, spec: NodeSpec, f: Flight, o: Oracle, e: Event)
    requires Milestone(e)
    requires !f.Done?
    ensures var t := Resume(cfg, c, spec, f, o);
      && |c.trail| <= |t.ctx.trail|
      && (Completes(t.flight) && e == Completion(spec.id) ==> LastAt(t.ctx.trail, e) >= |c.trail|)
      && (!Completes(t.flight) || e != Completion(spec.id) ==> LastAt(t.ctx.trail, e) == LastAt(c.trail, e))
  {
    match f {
      case Pending =>
        LastAtEmit(c.trail, NodeStarted(spec.id), e);
        EnterTrail(Emit(c, NodeStarted(spec.id)), spec, o.entryAllowed, e);
      case Approving =>
        EnterTrail(c, spec, o.entryAllowed, e);
        LastAtEmit(c.trail, NodeFinished(spec.id, REJECTED), e);
      case Sleeping(attempt, _, _, _) => LastAtEmit(c.trail, Attempted(spec.id, attempt), e);
      case Dispatching(_, _, _, _) => AfterTrail(cfg, c, spec, f, o.outcome, e);
    }
  }

  lemma AfterTrail(cfg: Config, c: Ctx, spec: NodeSpec, f: Flight, o: Outcome, e: Event)
    requires Milestone(e)
    requires f.Dispatching?
    ensures var t := AfterDispatch(cfg, c, spec, f, o);
      && |c.trail| <= |t.ctx.trail|
      && (Completes(t.flight) && e == Completion(spec.id) ==> LastAt(t.ctx.trail, e) >= |c.trail|)
      && (!Completes(t.flight) || e != Completion(spec.id) ==> LastAt(t.ctx.trail, e) == LastAt(c.trail, e))
  {
    match o {
      case Raised =>
      case NeedsInput => FinishTrail(c, spec, NodeResult(INPUT_REQUIRED, f.attempt, [], f.rolledBack), e);
      case StageFailed => NextTrail(c, spec, f.attempt, f.snap, f.written, f.rolledBack, e);
      case Produced(artifacts, evidence, allowed) =>
        PersistTrail(cfg, c, spec.id, artifacts, e);
        if AllSafe(artifacts) {
          var c' := Persist(cfg, c, spec.id, artifacts);
          var written := f.written + PathsOf(artifacts);
          if allowed {
            FinishTrail(c'.(outputs := c'.outputs[spec.id := evidence]), spec, NodeResult(COMPLETED, f.attempt, artifacts, f.rolledBack), e);
          } else if f.snap.Some? {
            NextTrail(c'.(files := Workspaces.RestoredPaths(c'.files, f.snap.value, written)), spec, f.attempt, f.snap, written, true, e);
          } else {
            NextTrail(c', spec, f.attempt, f.snap, written, f.rolledBack, e);
          }
        }
    }
  }

  // ---- The invariant -------------------------------------------------------------------

  /** n waits for the implementation but neither is the verification nor waits for it: a repair passes n by. */
  predicate Bypassed(deps: Adj, n: NodeId) {
    n in deps && IMPLEMENT in deps[n] && n != VERIFY && VERIFY !in deps[n]
  }

  /** Since n completed, a repair has had the implementation run again without it. */
  predicate Loose(deps: Adj, trail: seq<Event>, n: NodeId, d: NodeId) {
    d == IMPLEMENT && Bypassed(deps, n) && LastDone(trail, n) < LastAt(trail, RepairStarted)
  }

  /** n's dependencies are completed, each before n's own last completion, save a loose one. */
  ghost predicate After(deps: Adj, completed: set<NodeId>, trail: seq<Event>, n: NodeId) {
    n in deps && forall d :: d in deps[n] && !Loose(deps, trail, n, d) ==>
      d in completed && 0 <= LastDone(trail, d) < LastDone(trail, n)
  }

  ghost predicate Placed(deps: Adj, completed: set<NodeId>, trail: seq<Event>, n: NodeId) {
    LastDone(trail, n) >= 0 && After(deps, completed, trail, n)
  }

  /** A revision has moved an implementation that had completed already; a strict account rules that out. */
  predicate Exempt(strict: bool, trail: seq<Event>, n: NodeId) {
    !strict && n == IMPLEMENT && LastDone(trail, n) < LastAt(trail, PlanRevised)
  }

  /** Every completed node is placed, save one that is exempt, which has at least completed. */
  ghost predicate Ordered(deps: Adj, completed: set<NodeId>, trail: seq<Event>, strict: bool) {
    forall n :: n in completed ==>
      LastDone(trail, n) >= 0 && (!Exempt(strict, trail, n) ==> Placed(deps, completed, trail, n))
  }

  /** No revision is pending, and, strictly, one can still come only while the implementation has not run. */
  ghost predicate Steady(cfg: Config, strict: bool, r: Run) {
    && (strict && REFACTOR !in Ids(r.plan.nodes) ==> ReplanSafe(r.plan))
    && (r.phase.Idle? ==> WantsRevision(cfg, r) == None)
    && (r.phase.Running? && IMPACT !in r.phase.batch.flights ==> WantsRevision(cfg, r.(ctx := r.phase.batch.ctx)) == None)
  }

  ghost predicate DoneInOrder(cfg: Config, strict: bool, r: Run) {
    var deps := DepMap(r.plan.nodes);
    match r.phase
    case Idle => Steady(cfg, strict, r) && Ordered(deps, r.completed, r.ctx.trail, strict)
    case Running(b) =>
      && Steady(cfg, strict, r) && Ordered(deps, r.completed, b.ctx.trail, strict)
      && forall n :: n in b.flights && Completes(b.flights[n]) ==> Placed(deps, r.completed, b.ctx.trail, n)
    case Finished(RunCompleted) => Ordered(deps, r.completed, r.ctx.trail, strict)
    case _ => true
  }

  lemma BeginInOrder(cfg: Config, strict: bool, r: Run, stop: bool)
    requires r.phase.Idle? && Sane(r) && DoneInOrder(cfg, strict, r)
    ensures DoneInOrder(cfg, strict, BeginRound(r, stop))
  {
    var r' := BeginRound(r, stop);
    if r'.phase.Running? {
      assert r'.(ctx := r'.phase.batch.ctx).ctx == r.ctx;
    }
  }

  lemma WantsSame(cfg: Config, r: Run, a: Ctx, b: Ctx)
    requires IMPACT in a.outputs <==> IMPACT in b.outputs
    requires IMPACT in a.outputs ==> a.outputs[IMPACT] == b.outputs[IMPACT]
    ensures WantsRevision(cfg, r.(ctx := a)) == WantsRevision(cfg, r.(ctx := b))
  {
  }

  /** Repairs, revisions and the completions of other nodes stay where they were. */
  ghost predicate OthersStay(before: seq<Event>, after: seq<Event>, turn: NodeId) {
    && LastAt(after, RepairStarted) == LastAt(before, RepairStarted)
    && LastAt(after, PlanRevised) == LastAt(before, PlanRevised)
    && forall m :: m != turn ==> LastDone(after, m) == LastDone(before, m)
  }

  lemma TurnStays(cfg: Config, c: Ctx, spec: NodeSpec, f: Flight, o: Oracle)
    requires !f.Done?
    ensures var t := Resume(cfg, c, spec, f, o);
      && OthersStay(c.trail, t.ctx.trail, spec.id)
      && (Completes(t.flight) ==> LastDone(t.ctx.trail, spec.id) >= |c.trail|)
  {
    var t := Resume(cfg, c, spec, f, o);
    TurnTrail(cfg, c, spec, f, o, RepairStarted);
    TurnTrail(cfg, c, spec, f, o, PlanRevised);
    TurnTrail(cfg, c, spec, f, o, Completion(spec.id));
    forall m | m != spec.id
      ensures LastDone(t.ctx.trail, m) == LastDone(c.trail, m)
    {
      TurnTrail(cfg, c, spec, f, o, Completion(m));
    }
  }

  /** Nothing already placed is disturbed while one node, not completed before, takes its turn. */
  lemma PlacedKept(deps: Adj, completed: set<NodeId>, before: seq<Event>, after: seq<Event>, turn: NodeId, n: NodeId)
    requires OthersStay(before, after, turn) && turn !in completed && n != turn
    requires Placed(deps, completed, before, n)
    ensures Placed(deps, completed, after, n)
  {
  }

  /** A node that completes now comes after its dependencies, which completed before. */
  lemma PlacedNow(deps: Adj, completed: set<NodeId>, before: seq<Event>, after: seq<Event>, turn: NodeId, strict: bool)
    requires OthersStay(before, after, turn) && LastDone(after, turn) >= |before|
    requires Ordered(deps, completed, before, strict) && IsReady(deps, completed, turn)
    ensures Placed(deps, completed, after, turn)
  {
    forall d | d in deps[turn]
      ensures d in completed && 0 <= LastDone(after, d) < LastDone(after, turn)
    {
      assert LastDone(before, d) >= 0;
    }
  }

  lemma ResumeSteady(cfg: Config, strict: bool, r: Run, spec: NodeSpec, o: Oracle)
    requires r.phase.Running? && Steady(cfg, strict, r) && CanStep(r.phase.batch, spec)
    ensures Steady(cfg, strict, r.(phase := Running(StepBatch(cfg, r.phase.batch, spec, o))))
  {
    var b := r.phase.batch;
    var b' := StepBatch(cfg, b, spec, o);
    TurnOutputs(cfg, b.ctx, spec, b.flights[spec.id], o);
    if IMPACT !in b'.flights {
      WantsSame(cfg, r, b.ctx, b'.ctx);
      WantsSame(cfg, r.(phase := Running(b')), b.ctx, b'.ctx);
    }
  }

  lemma ResumeInOrder(cfg: Config, strict: bool, r: Run, spec: NodeSpec, o: Oracle)
    requires r.phase.Running? && Sane(r) && DoneInOrder(cfg, strict, r) && CanStep(r.phase.batch, spec)
    ensures DoneInOrder(cfg, strict, r.(phase := Running(StepBatch(cfg, r.phase.batch, spec, o))))
  {
    var b := r.phase.batch;
    var b' := StepBatch(cfg, b, spec, o);
    var deps := DepMap(r.plan.nodes);
    ReadySpec(r, spec);
    ResumeSteady(cfg, strict, r, spec, o);
    var before, after := b.ctx.trail, b'.ctx.trail;
    TurnStays(cfg, b.ctx, spec, b.flights[spec.id], o);
    forall n | n in r.completed && !Exempt(strict, after, n)
      ensures Placed(deps, r.completed, after, n)
    {
      PlacedKept(deps, r.completed, before, after, spec.id, n);
    }
    forall n | n in b'.flights && Completes(b'.flights[n])
      ensures Placed(deps, r.completed, after, n)
    {
      if n == spec.id {
        PlacedNow(deps, r.completed, before, after, n, strict);
      } else {
        PlacedKept(deps, r.completed, before, after, spec.id, n);
      }
    }
  }

  // ---- Settling keeps the order -------------------------------------------------------

  ghost predicate ReadyYet(deps: Adj, completed: set<NodeId>, trail: seq<Event>, n: NodeId) {
    n in deps && n !in completed && forall d :: d in deps[n] && !Loose(deps, trail, n, d) ==> d in completed
  }

  /** Half-way through settling: the rest of the batch still has its dependencies completed. */
  ghost predicate Settling(deps: Adj, r: Run, specs: seq<NodeSpec>, flights: map<NodeId, Flight>, strict: bool) {
    && Ordered(deps, r.completed, r.ctx.trail, strict)
    && Distinct(Ids(specs))
    && forall s :: s in specs ==>
         && ReadyYet(deps, r.completed, r.ctx.trail, s.id)
         && s.id in flights && flights[s.id].Done?
         && (Completes(flights[s.id]) ==> Placed(deps, r.completed, r.ctx.trail, s.id))
  }

  lemma SettleOne(deps: Adj, r: Run, r': Run, specs: seq<NodeSpec>, flights: map<NodeId, Flight>, strict: bool)
    requires specs != [] && Settling(deps, r, specs, flights, strict) && Completes(flights[specs[0].id])
    requires r'.completed == r.completed + {specs[0].id} && r'.ctx == r.ctx
    ensures Settling(deps, r', specs[1..], flights, strict)
  {
    DropFirst(specs);
    var id := specs[0].id;
    assert specs[0] in specs;
    forall n | n in r'.completed && !Exempt(strict, r.ctx.trail, n)
      ensures Placed(deps, r'.completed, r.ctx.trail, n)
    {
      assert Placed(deps, r.completed, r.ctx.trail, n);
    }
    forall s | s in specs[1..] && Completes(flights[s.id])
      ensures Placed(deps, r'.completed, r.ctx.trail, s.id)
    {
      assert Placed(deps, r.completed, r.ctx.trail, s.id);
    }
  }

  /** A repair drops the implementation and the verification: nothing kept depended on either. */
  lemma SettleRepair(deps: Adj, r: Run, r': Run, specs: seq<NodeSpec>, flights: map<NodeId, Flight>, strict: bool)
    requires specs != [] && Settling(deps, r, specs, flights, strict) && specs[0].id == VERIFY
    requires r'.completed == r.completed - {IMPLEMENT, VERIFY}
    requires r'.ctx.trail == r.ctx.trail + [RepairStarted]
    ensures Settling(deps, r', specs[1..], flights, strict)
  {
    DropFirst(specs);
    assert specs[0] in specs;
    forall n
      ensures LastDone(r'.ctx.trail, n) == LastDone(r.ctx.trail, n)
    {
      LastDoneEmit(r.ctx.trail, RepairStarted, n);
    }
    LastAtEmit(r.ctx.trail, RepairStarted, RepairStarted);
    forall n | n in r'.completed
      ensures Placed(deps, r'.completed, r'.ctx.trail, n)
    {
      assert Placed(deps, r.completed, r.ctx.trail, n);
    }
    forall s | s in specs[1..]
      ensures ReadyYet(deps, r'.completed, r'.ctx.trail, s.id)
      ensures Completes(flights[s.id]) ==> Placed(deps, r'.completed, r'.ctx.trail, s.id)
    {
      assert s in specs && ReadyYet(deps, r.completed, r.ctx.trail, s.id);
      if Completes(flights[s.id]) {
        assert Placed(deps, r.completed, r.ctx.trail, s.id);
      }
    }
  }

  lemma {:induction false} SettleInOrder(cfg: Config, deps: Adj, r: Run, specs: seq<NodeSpec>, flights: map<NodeId, Flight>, strict: bool)
    requires Settling(deps, r, specs, flights, strict) && r.phase.Idle?
    ensures var r' := Settle(cfg, r, specs, flights);
      && (r'.phase.Idle? ==> Ordered(deps, r'.completed, r'.ctx.trail, strict))
    decreases specs
  {
    if specs != [] {
      assert specs[0] in specs;
      var id, outcome, rest := specs[0].id, flights[specs[0].id].result, specs[1..];
      var r1 := r.(results := r.results[id := outcome]);
      if outcome.state == COMPLETED {
        var r2 := r1.(completed := r.completed + {id});
        SettleOne(deps, r, r2, specs, flights, strict);
        SettleInOrder(cfg, deps, r2, rest, flights, strict);
      } else if outcome.state != INPUT_REQUIRED && CanRepair(cfg, r1, id, outcome) {
        SettleRepair(deps, r, Repaired(r1), specs, flights, strict);
        SettleInOrder(cfg, deps, Repaired(r1), rest, flights, strict);
      }
    }
  }

  /** When a revision is wanted, the implementation is neither completed nor in the batch. */
  lemma NotYetImplemented(cfg: Config, r: Run)
    requires r.phase.Running? && Sane(r) && DoneInOrder(cfg, true, r)
    requires REFACTOR !in Ids(r.plan.nodes) && IMPACT in r.phase.batch.flights
    ensures IMPLEMENT !in r.completed && IMPLEMENT !in r.phase.batch.flights
  {
    var deps := DepMap(r.plan.nodes);
    var b := r.phase.batch;
    AcceptedClosed(r.plan);
    var s := SpecById(b.specs, IMPACT);
    ReadySpec(r, s);
    if IMPLEMENT in r.completed || IMPLEMENT in b.flights {
      if IMPLEMENT in b.flights {
        var t := SpecById(b.specs, IMPLEMENT);
        ReadySpec(r, t);
      } else {
        assert Placed(deps, r.completed, b.ctx.trail, IMPLEMENT);
      }
      UpstreamDone(deps, r.completed, b.ctx.trail, IMPACT);
    }
  }

  /** Once the implementation can run, everything upstream of it has completed. */
  lemma UpstreamDone(deps: Adj, completed: set<NodeId>, trail: seq<Event>, n: NodeId)
    requires Closed(deps) && Acyclic(deps) && Ordered(deps, completed, trail, true)
    requires IMPLEMENT in deps && forall d :: d in deps[IMPLEMENT] ==> d in completed
    requires Reaches(deps, IMPLEMENT, n)
    ensures n in completed
  {
    var upstream := completed * Cone(deps, IMPLEMENT);
    var d := FirstStep(deps, IMPLEMENT, n);
    EdgeReaches(deps, IMPLEMENT, d);
    forall x, y | x in upstream && Edge(deps, x, y)
      ensures y in upstream
    {
      assert Placed(deps, completed, trail, x);
      EdgeReaches(deps, x, y);
      ReachesTrans(deps, IMPLEMENT, x, y);
    }
    if d != n {
      ClosedUnderReach(deps, upstream, d, n);
    }
  }

  /** Reseating the implementation does not disturb nodes that are already completed. */
  lemma ReplannedInOrder(cfg: Config, strict: bool, r: Run)
    requires r.phase.Idle? && Sane(r) && r.revisions >= 0
    requires strict && REFACTOR !in Ids(r.plan.nodes) ==> ReplanSafe(r.plan)
    requires Ordered(DepMap(r.plan.nodes), r.completed, r.ctx.trail, strict)
    requires strict && WantsRevision(cfg, r).Some? ==> IMPLEMENT !in r.completed
    ensures DoneInOrder(cfg, strict, Replanned(cfg, r))
  {
    var w := WantsRevision(cfg, r);
    if w.Some? && Accepted(w.value) {
      RevisedDeps(r.plan, cfg.reason);
      assert Ids(w.value.nodes)[|r.plan.nodes|] == REFACTOR;
      CompletedKnown(r);
      OrderedRevised(DepMap(r.plan.nodes), DepMap(w.value.nodes), r.completed, r.ctx.trail, strict);
    }
  }

  lemma CompletedKnown(r: Run)
    requires Accepted(r.plan) && r.completed <= IdSet(r.plan)
    ensures r.completed <= DepMap(r.plan.nodes).Keys
  {
    AcceptedClosed(r.plan);
  }

  lemma OrderedRevised(deps: Adj, next: Adj, completed: set<NodeId>, trail: seq<Event>, strict: bool)
    requires SeamInserted(deps, next) && Ordered(deps, completed, trail, strict) && completed <= deps.Keys
    requires strict ==> IMPLEMENT !in completed
    ensures Ordered(next, completed, trail + [PlanRevised], strict)
  {
    var after := trail + [PlanRevised];
    forall n
      ensures LastDone(after, n) == LastDone(trail, n)
    {
      LastDoneEmit(trail, PlanRevised, n);
    }
    LastAtEmit(trail, PlanRevised, PlanRevised);
    LastAtEmit(trail, PlanRevised, RepairStarted);
    forall n | n in completed && !Exempt(strict, after, n)
      ensures Placed(next, completed, after, n)
    {
      assert Placed(deps, completed, trail, n) && n != IMPLEMENT;
    }
  }

  lemma EndInOrder(cfg: Config, strict: bool, r: Run)
    requires r.phase.Running? && Sane(r) && DoneInOrder(cfg, strict, r) && AllDone(r.phase.batch) && r.revisions >= 0
    requires forall s :: s in r.phase.batch.specs ==> s.id in r.phase.batch.flights
    ensures DoneInOrder(cfg, strict, EndRound(cfg, r))
  {
    var b := r.phase.batch;
    var deps := DepMap(r.plan.nodes);
    var r0 := r.(ctx := b.ctx, phase := Idle);
    var r1 := Settle(cfg, r0, b.specs, b.flights);
    StartSettling(cfg, strict, r);
    SettleInOrder(cfg, deps, r0, b.specs, b.flights, strict);
    SettleBalanced(cfg, r0, b.specs, b.flights);
    if r1.phase.Idle? {
      if strict && WantsRevision(cfg, r1).Some? {
        WantsSame(cfg, r1, r1.ctx, b.ctx);
        WantsInBatch(cfg, strict, r, r1);
        NotYetImplemented(cfg, r);
      }
      ReplannedInOrder(cfg, strict, r1);
    }
  }

  lemma WantsInBatch(cfg: Config, strict: bool, r: Run, r1: Run)
    requires r.phase.Running? && Steady(cfg, strict, r)
    requires r1.plan == r.plan && r1.revisions == r.revisions && r1.ctx.outputs == r.phase.batch.ctx.outputs
    requires WantsRevision(cfg, r1).Some?
    ensures IMPACT in r.phase.batch.flights && REFACTOR !in Ids(r.plan.nodes)
  {
  }

  lemma StartSettling(cfg: Config, strict: bool, r: Run)
    requires r.phase.Running? && Sane(r) && DoneInOrder(cfg, strict, r) && AllDone(r.phase.batch)
    requires forall s :: s in r.phase.batch.specs ==> s.id in r.phase.batch.flights
    ensures var b := r.phase.batch;
      Settling(DepMap(r.plan.nodes), r.(ctx := b.ctx, phase := Idle), b.specs, b.flights, strict)
  {
    ReadyDistinct(r);
    forall s | s in r.phase.batch.specs
      ensures ReadyYet(DepMap(r.plan.nodes), r.completed, r.phase.batch.ctx.trail, s.id)
    {
      ReadySpec(r, s);
    }
  }

  lemma StepInOrder(cfg: Config, strict: bool, r: Run, r': Run)
    requires Sane(r) && r.revisions >= 0 && DoneInOrder(cfg, strict, r) && Step(cfg, r, r')
    ensures DoneInOrder(cfg, strict, r')
  {
    match r.phase {
      case Idle =>
        var stop :| r' == BeginRound(r, stop);
        BeginInOrder(cfg, strict, r, stop);
      case Running(b) =>
        if spec, o :| CanStep(b, spec) && r' == r.(phase := Running(StepBatch(cfg, b, spec, o))) {
          ResumeInOrder(cfg, strict, r, spec, o);
        } else {
          EndInOrder(cfg, strict, r);
        }
      case Finished(_) =>
    }
  }

  lemma {:induction false} RunInOrder(cfg: Config, strict: bool, plan: Plan, files: Workspaces.Files, rs: seq<Run>, i: nat)
    requires IsRun(cfg, plan, files, rs) && (strict ==> ReplanSafe(plan)) && i < |rs|
    ensures DoneInOrder(cfg, strict, rs[i])
  {
    if i > 0 {
      RunInOrder(cfg, strict, plan, files, rs, i - 1);
      RunSane(cfg, plan, files, rs, i - 1);
      StepInOrder(cfg, strict, rs[i - 1], rs[i]);
    }
  }

  // ---- What a revision leaves out of order -------------------------------------------------

  /** A revised plan has the seam after the design, and the implementation after both. */
  ghost predicate SeamWired(deps: Adj) {
    && REFACTOR in deps && deps[REFACTOR] == [DESIGN]
    && (IMPLEMENT in deps ==> deps[IMPLEMENT] == [DESIGN, REFACTOR])
  }

  ghost predicate SameElsewhere(deps: Adj, next: Adj) {
    forall n :: n in next && n != IMPLEMENT && n != REFACTOR ==> n in deps && next[n] == deps[n]
  }

  ghost predicate WiredOnceRevised(plan: Plan, r: Run) {
    if r.revisions == 0 then r.plan == plan
    else Accepted(r.plan) ==> SeamWired(DepMap(r.plan.nodes)) && SameElsewhere(DepMap(plan.nodes), DepMap(r.plan.nodes))
  }

  lemma ReplannedWired(cfg: Config, plan: Plan, r: Run)
    requires Accepted(r.plan) && WiredOnceRevised(plan, r) && r.revisions >= 0
    ensures WiredOnceRevised(plan, Replanned(cfg, r))
  {
    if WantsRevision(cfg, r).Some? {
      RevisedDeps(r.plan, cfg.reason);
    }
  }

  lemma StepWired(cfg: Config, plan: Plan, r: Run, r': Run)
    requires Sane(r) && r.revisions >= 0 && WiredOnceRevised(plan, r) && Step(cfg, r, r')
    ensures WiredOnceRevised(plan, r')
  {
    match r.phase {
      case Idle =>
        var stop :| r' == BeginRound(r, stop);
      case Running(b) =>
        if spec, o :| CanStep(b, spec) && r' == r.(phase := Running(StepBatch(cfg, b, spec, o))) {
        } else {
          var r0 := r.(ctx := b.ctx, phase := Idle);
          SettleBalanced(cfg, r0, b.specs, b.flights);
          ReplannedWired(cfg, plan, Settle(cfg, r0, b.specs, b.flights));
        }
      case Finished(_) =>
    }
  }

  lemma {:induction false} RunWired(cfg: Config, plan: Plan, files: Workspaces.Files, rs: seq<Run>, i: nat)
    requires IsRun(cfg, plan, files, rs) && i < |rs|
    ensures WiredOnceRevised(plan, rs[i])
  {
    if i > 0 {
      RunWired(cfg, plan, files, rs, i - 1);
      RunSane(cfg, plan, files, rs, i - 1);
      StepOfRun(cfg, plan, files, rs, i - 1);
      StepWired(cfg, plan, rs[i - 1], rs[i]);
    }
  }

  // ---- When repairs and revisions happened ------------------------------------------------

  /** A completed implementation has run since the last repair, and the seam, which a revision brings, only since then. */
  ghost predicate Dated(r: Run) {
    var trail := CtxOf(r).trail;
    && (IMPLEMENT in r.completed ==> LastAt(trail, RepairStarted) < LastDone(trail, IMPLEMENT))
    && (r.phase.Running? && IMPLEMENT in r.phase.batch.flights && Completes(r.phase.batch.flights[IMPLEMENT]) ==>
          LastAt(trail, RepairStarted) < LastDone(trail, IMPLEMENT))
    && (r.revisions == 0 ==> LastAt(trail, PlanRevised) == -1)
    && (LastDone(trail, REFACTOR) >= 0 ==> LastAt(trail, PlanRevised) < LastDone(trail, REFACTOR))
    && (!r.phase.Finished? && REFACTOR !in Ids(r.plan.nodes) ==> LastDone(trail, REFACTOR) == -1)
  }

  lemma MoveDated(cfg: Config, r: Run, spec: NodeSpec, o: Oracle)
    requires r.phase.Running? && Sane(r) && Dated(r) && CanStep(r.phase.batch, spec)
    ensures Dated(r.(phase := Running(StepBatch(cfg, r.phase.batch, spec, o))))
  {
    var b := r.phase.batch;
    ReadySpec(r, spec);
    TurnTrail(cfg, b.ctx, spec, b.flights[spec.id], o, RepairStarted);
    TurnTrail(cfg, b.ctx, spec, b.flights[spec.id], o, PlanRevised);
    TurnTrail(cfg, b.ctx, spec, b.flights[spec.id], o, Completion(IMPLEMENT));
    TurnTrail(cfg, b.ctx, spec, b.flights[spec.id], o, Completion(REFACTOR));
  }

  /** Half-way through settling, as far as the implementation is concerned. */
  ghost predicate Dating(r: Run, specs: seq<NodeSpec>, flights: map<NodeId, Flight>) {
    var trail := r.ctx.trail;
    && Distinct(Ids(specs)) && (forall s :: s in specs ==> s.id in flights && flights[s.id].Done? && s.id !in r.results)
    && (IMPLEMENT in r.completed ==> LastAt(trail, RepairStarted) < LastDone(trail, IMPLEMENT))
    && forall s :: s in specs && s.id == IMPLEMENT && Completes(flights[s.id]) ==>
         LastAt(trail, RepairStarted) < LastDone(trail, IMPLEMENT)
  }

  ghost predicate SameOtherwise(before: seq<Event>, after: seq<Event>) {
    forall e :: Milestone(e) && e != RepairStarted ==> LastAt(after, e) == LastAt(before, e)
  }

  lemma RepairOtherwise(trail: seq<Event>)
    ensures SameOtherwise(trail, trail + [RepairStarted])
  {
    forall e | Milestone(e) && e != RepairStarted
      ensures LastAt(trail + [RepairStarted], e) == LastAt(trail, e)
    {
      LastAtEmit(trail, RepairStarted, e);
    }
  }

  lemma {:induction false} SettleDated(cfg: Config, r: Run, specs: seq<NodeSpec>, flights: map<NodeId, Flight>)
    requires Dating(r, specs, flights)
    ensures var r' := Settle(cfg, r, specs, flights);
      && SameOtherwise(r.ctx.trail, r'.ctx.trail) && r'.revisions == r.revisions && r'.plan == r.plan
      && (r'.phase == r.phase ==> IMPLEMENT in r'.completed ==>
            LastAt(r'.ctx.trail, RepairStarted) < LastDone(r'.ctx.trail, IMPLEMENT))
    decreases specs
  {
    if specs != [] {
      DropFirst(specs);
      var id, outcome, rest := specs[0].id, flights[specs[0].id].result, specs[1..];
      assert specs[0] in specs;
      var r1 := r.(results := r.results[id := outcome]);
      if outcome.state == COMPLETED {
        SettleDated(cfg, r1.(completed := r.completed + {id}), rest, flights);
      } else if outcome.state != INPUT_REQUIRED && CanRepair(cfg, r1, id, outcome) {
        RepairOtherwise(r.ctx.trail);
        SettleDated(cfg, Repaired(r1), rest, flights);
      }
    }
  }

  lemma StartDating(r: Run)
    requires r.phase.Running? && Sane(r) && Dated(r) && AllDone(r.phase.batch)
    requires forall s :: s in r.phase.batch.specs ==> s.id in r.phase.batch.flights
    ensures Dating(r.(ctx := r.phase.batch.ctx, phase := Idle), r.phase.batch.specs, r.phase.batch.flights)
  {
    ReadyDistinct(r);
    forall s | s in r.phase.batch.specs
      ensures s.id !in r.results
    {
      ReadySpec(r, s);
    }
  }

  lemma EndDated(cfg: Config, r: Run)
    requires r.phase.Running? && Sane(r) && Dated(r) && AllDone(r.phase.batch) && r.revisions >= 0
    requires forall s :: s in r.phase.batch.specs ==> s.id in r.phase.batch.flights
    ensures EndRound(cfg, r).phase == Finished(RunFailed) || EndRound(cfg, r).phase == Finished(RunNeedsInput) || Dated(EndRound(cfg, r))
  {
    var b := r.phase.batch;
    var r0 := r.(ctx := b.ctx, phase := Idle);
    var r1 := Settle(cfg, r0, b.specs, b.flights);
    StartDating(r);
    SettleDated(cfg, r0, b.specs, b.flights);
    SettleBalanced(cfg, r0, b.specs, b.flights);
    if r1.phase.Idle? {
      SameDates(r.phase.batch.ctx.trail, r1.ctx.trail);
      assert Dated(r1);
      ReplannedDated(cfg, r1);
    }
  }

  lemma SameDates(before: seq<Event>, after: seq<Event>)
    requires SameOtherwise(before, after)
    ensures LastAt(after, PlanRevised) == LastAt(before, PlanRevised)
    ensures forall n :: LastDone(after, n) == LastDone(before, n)
  {
    assert Milestone(PlanRevised);
    assert forall n :: Milestone(Completion(n));
  }

  lemma ReplannedDated(cfg: Config, r: Run)
    requires r.phase.Idle? && Dated(r) && r.revisions >= 0
    ensures Dated(Replanned(cfg, r))
  {
    LastAtEmit(r.ctx.trail, PlanRevised, RepairStarted);
    LastAtEmit(r.ctx.trail, PlanRevised, Completion(IMPLEMENT));
    LastAtEmit(r.ctx.trail, PlanRevised, Completion(REFACTOR));
    if WantsRevision(cfg, r).Some? {
      RevisedIds(r.plan, cfg.reason);
    }
  }

  lemma RevisedIds(plan: Plan, reason: string)
    ensures REFACTOR in Ids(Revised(plan, SeamRequest(reason)).nodes)
  {
    var nodes := Revised(plan, SeamRequest(reason)).nodes;
    assert Ids(nodes)[|nodes| - 1] == REFACTOR;
  }

  /** What is dated stays so, as long as it matters. */
  ghost predicate DatedSoFar(r: Run) {
    r.phase == Finished(RunFailed) || r.phase == Finished(RunNeedsInput) || Dated(r)
  }

  lemma StepDated(cfg: Config, r: Run, r': Run)
    requires Sane(r) && r.revisions >= 0 && DatedSoFar(r) && Step(cfg, r, r')
    ensures DatedSoFar(r')
  {
    match r.phase {
      case Idle =>
        var stop :| r' == BeginRound(r, stop);
      case Running(b) =>
        if spec, o :| CanStep(b, spec) && r' == r.(phase := Running(StepBatch(cfg, b, spec, o))) {
          MoveDated(cfg, r, spec, o);
        } else {
          EndDated(cfg, r);
        }
      case Finished(_) =>
    }
  }

  lemma LaunchDated(plan: Plan, files: Workspaces.Files)
    ensures Dated(Launch(plan, files))
  {
  }

  lemma {:induction false} RunDated(cfg: Config, plan: Plan, files: Workspaces.Files, rs: seq<Run>, i: nat)
    requires IsRun(cfg, plan, files, rs) && i < |rs|
    ensures DatedSoFar(rs[i])
  {
    if i == 0 {
      LaunchDated(plan, files);
    } else {
      RunDated(cfg, plan, files, rs, i - 1);
      RunSane(cfg, plan, files, rs, i - 1);
      StepDated(cfg, rs[i - 1], rs[i]);
    }
  }

  // ---- Order at the end -----------------------------------------------------------------------

  /** Every dependency's last completion came before its dependent's. */
  ghost predicate EdgesInOrder(deps: Adj, trail: seq<Event>) {
    forall n, d :: Edge(deps, n, d) ==> 0 <= LastDone(trail, d) < LastDone(trail, n)
  }

  /**
   Success is out of order in two ways only: a revision came after the implementation
   had last completed, or a repair came after a node that waits for the implementation
   without being or awaiting its verification had last completed.
   */
  lemma SuccessOrderExactly(cfg: Config, plan: Plan, files: Workspaces.Files, rs: seq<Run>, i: nat)
    requires IsRun(cfg, plan, files, rs) && i < |rs| && rs[i].phase == Finished(RunCompleted)
    ensures var deps, trail := DepMap(rs[i].plan.nodes), rs[i].ctx.trail;
      EdgesInOrder(deps, trail) <==>
        && (IMPLEMENT in deps ==> LastAt(trail, PlanRevised) < LastDone(trail, IMPLEMENT))
        && (forall n :: Bypassed(deps, n) ==> LastAt(trail, RepairStarted) < LastDone(trail, n))
  {
    var r := rs[i];
    RunInOrder(cfg, false, plan, files, rs, i);
    RunSane(cfg, plan, files, rs, i);
    RunWired(cfg, plan, files, rs, i);
    RunDated(cfg, plan, files, rs, i);
    AcceptedClosed(r.plan);
    OrderedExactly(DepMap(r.plan.nodes), r.completed, r.ctx.trail, r.revisions > 0);
  }

  lemma OrderedExactly(deps: Adj, completed: set<NodeId>, trail: seq<Event>, revised: bool)
    requires Closed(deps) && (forall n :: n in deps <==> n in completed) && (revised ==> SeamWired(deps))
    requires Ordered(deps, completed, trail, false)
    requires !revised ==> LastAt(trail, PlanRevised) == -1
    requires IMPLEMENT in completed ==> LastAt(trail, RepairStarted) < LastDone(trail, IMPLEMENT)
    requires REFACTOR in completed && LastDone(trail, REFACTOR) >= 0 ==> LastAt(trail, PlanRevised) < LastDone(trail, REFACTOR)
    ensures EdgesInOrder(deps, trail) <==>
      && (IMPLEMENT in deps ==> LastAt(trail, PlanRevised) < LastDone(trail, IMPLEMENT))
      && (forall n :: Bypassed(deps, n) ==> LastAt(trail, RepairStarted) < LastDone(trail, n))
  {
    forall n, d | Edge(deps, n, d) && !Exempt(false, trail, n) && !Loose(deps, trail, n, d)
      ensures 0 <= LastDone(trail, d) < LastDone(trail, n)
    {
      assert Placed(deps, completed, trail, n);
    }
    if IMPLEMENT in deps && LastAt(trail, PlanRevised) > LastDone(trail, IMPLEMENT) {
      assert Edge(deps, IMPLEMENT, REFACTOR);
    }
    forall n | Bypassed(deps, n)
      ensures Edge(deps, n, IMPLEMENT)
    {
    }
    MilestonesApart(trail);
  }

  /** Two different events are at different places. */
  lemma MilestonesApart(trail: seq<Event>)
    ensures forall n :: LastAt(trail, PlanRevised) >= 0 ==> LastAt(trail, PlanRevised) != LastDone(trail, n)
    ensures forall n :: LastAt(trail, RepairStarted) >= 0 ==> LastAt(trail, RepairStarted) != LastDone(trail, n)
  {
    forall n
      ensures LastAt(trail, PlanRevised) >= 0 ==> LastAt(trail, PlanRevised) != LastDone(trail, n)
      ensures LastAt(trail, RepairStarted) >= 0 ==> LastAt(trail, RepairStarted) != LastDone(trail, n)
    {
      assert LastDone(trail, n) >= 0 ==> trail[LastDone(trail, n)] == Completion(n);
    }
  }

  lemma SafeIn(plan: Plan, deps: Adj, n: NodeId)
    requires Accepted(plan) && RepairSafe(plan) && deps == DepMap(plan.nodes)
    ensures !Bypassed(deps, n)
  {
    DepMapAt(plan.nodes);
    if n in deps {
      var i :| 0 <= i < |plan.nodes| && Ids(plan.nodes)[i] == n;
    }
  }

  lemma NoneBypassed(plan: Plan, r: Run)
    requires Accepted(plan) && Accepted(r.plan) && RepairSafe(plan) && WiredOnceRevised(plan, r)
    ensures forall n :: !Bypassed(DepMap(r.plan.nodes), n)
  {
    forall n
      ensures !Bypassed(DepMap(r.plan.nodes), n)
    {
      SafeIn(plan, DepMap(plan.nodes), n);
    }
  }

  /** Success means every dependency's last completion came first, for the final plan's dependencies. */
  lemma SuccessInOrder(cfg: Config, plan: Plan, files: Workspaces.Files, rs: seq<Run>, i: nat, n: NodeId, d: NodeId)
    requires IsRun(cfg, plan, files, rs) && RepairSafe(plan) && ReplanSafe(plan)
    requires i < |rs| && rs[i].phase == Finished(RunCompleted)
    requires Edge(DepMap(rs[i].plan.nodes), n, d)
    ensures 0 <= LastDone(rs[i].ctx.trail, d) < LastDone(rs[i].ctx.trail, n)
  {
    RunInOrder(cfg, true, plan, files, rs, i);
    RunSane(cfg, plan, files, rs, i);
    RunWired(cfg, plan, files, rs, i);
    AcceptedClosed(rs[i].plan);
    NoneBypassed(plan, rs[i]);
    EdgePlaced(DepMap(rs[i].plan.nodes), rs[i].completed, rs[i].ctx.trail, n, d);
  }

  lemma EdgePlaced(deps: Adj, completed: set<NodeId>, trail: seq<Event>, n: NodeId, d: NodeId)
    requires Ordered(deps, completed, trail, true) && n in completed && Edge(deps, n, d) && !Bypassed(deps, n)
    ensures 0 <= LastDone(trail, d) < LastDone(trail, n)
  {
    assert Placed(deps, completed, trail, n);
  }

  /** In particular for every plan the planner builds. */
  lemma BuiltSuccessInOrder(cfg: Config, brownfield: bool, capabilities: Option<set<StageKind>>, rationale: string,
                            files: Workspaces.Files, rs: seq<Run>, i: nat, n: NodeId, d: NodeId)
    requires IsRun(cfg, BuildPlan(brownfield, capabilities, rationale), files, rs)
    requires i < |rs| && rs[i].phase == Finished(RunCompleted)
    requires Edge(DepMap(rs[i].plan.nodes), n, d)
    ensures 0 <= LastDone(rs[i].ctx.trail, d) < LastDone(rs[i].ctx.trail, n)
  {
    BuiltAccepted(brownfield, capabilities, rationale);
    SuccessInOrder(cfg, BuildPlan(brownfield, capabilities, rationale), files, rs, i, n, d);
  }
}
