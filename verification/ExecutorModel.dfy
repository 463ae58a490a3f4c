/**
 keel/executor.py as a step system. A node runs from one suspension point
 (approval, backoff sleep, dispatch) to the next in one step; persisting, the
 exit gate and rollback happen between two suspension points, so they are part
 of one step. Approvals, gate verdicts and stage outcomes are arbitrary.
 */
module ExecutorModel {
  import opened Prelude
  import opened Digraph
  import opened PlanGraphs
  import opened Planner
  import opened Workspaces
  import opened SafePaths

  // Inline artifacts have no path.
  datatype Artifact = Inline | File(raw: RawPath, content: string)

  /** Writing it raises WorkspaceError. */
  predicate Unsafe(a: Artifact) {
    a.File? && Resolve(a.raw).None?
  }

  predicate Lands(a: Artifact) {
    a.File? && Resolve(a.raw).Some?
  }

  function Target(a: Artifact): Path
    requires Lands(a)
  {
    Resolve(a.raw).value
  }

  datatype TaskState = COMPLETED | FAILED | REJECTED | INPUT_REQUIRED

  // What a dispatch comes back with; for a finished stage, also the exit gate's verdict on it.
  datatype Outcome =
    | Raised
    | NeedsInput
    | StageFailed
    | Produced(artifacts: seq<Artifact>, evidence: Evidence, allowed: bool)

  // Every answer a node may be given at its next suspension point.
  datatype Oracle = Oracle(approved: bool, entryAllowed: bool, outcome: Outcome)

  datatype NodeResult = NodeResult(state: TaskState, attempts: int, artifacts: seq<Artifact>, rolledBack: bool)

  // Where one node of a batch is suspended, and what its coroutine remembers there.
  datatype Flight =
    | Pending
    | Approving
    | Sleeping(attempt: int, snap: Option<Files>, written: set<Path>, rolledBack: bool)
    | Dispatching(attempt: int, snap: Option<Files>, written: set<Path>, rolledBack: bool)
    | Done(result: NodeResult)

  // The audit trail, as far as the properties read it. Attempted and Claimed
  // record the dispatches and the calls of _check_write_conflict.
  datatype Event =
    | NodeStarted(node: NodeId)
    | Attempted(node: NodeId, attempt: int)
    | Claimed(node: NodeId, raw: RawPath)
    | Conflict(node: NodeId, raw: RawPath, owner: NodeId)
    | NodeFinished(node: NodeId, state: TaskState)
    | RepairStarted
    | PlanRevised

  // The state all nodes of a run share.
  datatype Ctx = Ctx(files: Files, owner: map<RawPath, NodeId>, outputs: map<NodeId, Evidence>, trail: seq<Event>)

  // What is fixed when a run starts.
  datatype Config = Config(ancestors: map<NodeId, set<NodeId>>, maxRepairs: int, maxRevisions: int, reason: string)

  function Emit(c: Ctx, e: Event): Ctx {
    c.(trail := c.trail + [e])
  }

  // ---- _check_write_conflict and _persist ------------------------------------

  predicate Upstream(cfg: Config, a: NodeId, b: NodeId) {
    b in cfg.ancestors && a in cfg.ancestors[b]
  }

  predicate Related(cfg: Config, a: NodeId, b: NodeId) {
    Upstream(cfg, a, b) || Upstream(cfg, b, a)
  }

  function CheckConflict(cfg: Config, c: Ctx, node: NodeId, raw: RawPath): Ctx {
    var noticed :=
      if raw in c.owner && c.owner[raw] != node && !Related(cfg, c.owner[raw], node)
      then Emit(c, Conflict(node, raw, c.owner[raw])) else c;
    Emit(noticed, Claimed(node, raw)).(owner := c.owner[raw := node])
  }

  function PersistOne(cfg: Config, c: Ctx, node: NodeId, a: Artifact): Ctx {
    match a
    case Inline => c
    case File(raw, content) =>
      var c' := CheckConflict(cfg, c, node, raw);
      if Unsafe(a) then c' else c'.(files := c'.files[Target(a) := content])
  }

  /** Writing stops at the first unsafe path, keeping what was written before it. */
  function Persist(cfg: Config, c: Ctx, node: NodeId, artifacts: seq<Artifact>): Ctx
    decreases artifacts
  {
    if artifacts == [] then c
    else if Unsafe(artifacts[0]) then PersistOne(cfg, c, node, artifacts[0])
    else Persist(cfg, PersistOne(cfg, c, node, artifacts[0]), node, artifacts[1..])
  }

  predicate AllSafe(artifacts: seq<Artifact>) {
    forall a :: a in artifacts ==> !Unsafe(a)
  }

  function PathsOf(artifacts: seq<Artifact>): set<Path> {
    set a | a in artifacts && Lands(a) :: Target(a)
  }

  // ---- _run_node, suspension point by suspension point ------------------------

  datatype Turn = Turn(ctx: Ctx, flight: Flight)

  function Attempts(spec: NodeSpec): int {
    spec.maxAttempts + 1
  }

  function Finish(c: Ctx, spec: NodeSpec, r: NodeResult): Turn {
    Turn(Emit(c, NodeFinished(spec.id, r.state)), Done(r))
  }

  // What run records in place of an exception: a new result, whatever the node had tried.
  const CRASHED: NodeResult := NodeResult(FAILED, 1, [], false)

  /** After the last attempt: roll back if no denied attempt has done it already. */
  function Exhausted(c: Ctx, spec: NodeSpec, attempts: int, snap: Option<Files>, written: set<Path>, rolledBack: bool): Turn {
    if snap.Some? && !rolledBack
    then Finish(c.(files := RestoredPaths(c.files, snap.value, written)), spec, NodeResult(FAILED, attempts, [], true))
    else Finish(c, spec, NodeResult(FAILED, attempts, [], rolledBack))
  }

  function NextAttempt(c: Ctx, spec: NodeSpec, attempt: int, snap: Option<Files>, written: set<Path>, rolledBack: bool): Turn {
    if attempt < Attempts(spec) then Turn(c, Sleeping(attempt + 1, snap, written, rolledBack))
    else Exhausted(c, spec, attempt, snap, written, rolledBack)
  }

  /** The entry gate, the missing-input check, the snapshot and the first dispatch. */
  function Enter(c: Ctx, spec: NodeSpec, entryAllowed: bool): Turn {
    if !entryAllowed || exists d :: d in spec.dependsOn && d !in c.outputs
    then Finish(c, spec, NodeResult(REJECTED, 1, [], false))
    else
      var snap := if spec.rollback then Some(Snap(c.files)) else None;
      if Attempts(spec) < 1 then Exhausted(c, spec, 1, snap, {}, false)
      else Turn(Emit(c, Attempted(spec.id, 1)), Dispatching(1, snap, {}, false))
  }

  /** What happens between a dispatch coming back and the next suspension point. */
  function AfterDispatch(cfg: Config, c: Ctx, spec: NodeSpec, f: Flight, o: Outcome): Turn
    requires f.Dispatching?
  {
    match o
    case Raised => Turn(c, Done(CRASHED))
    case NeedsInput => Finish(c, spec, NodeResult(INPUT_REQUIRED, f.attempt, [], f.rolledBack))
    case StageFailed => NextAttempt(c, spec, f.attempt, f.snap, f.written, f.rolledBack)
    case Produced(artifacts, evidence, allowed) =>
      var c' := Persist(cfg, c, spec.id, artifacts);
      if !AllSafe(artifacts) then Turn(c', Done(CRASHED))
      else
        var written := f.written + PathsOf(artifacts);
        if allowed
        then Finish(c'.(outputs := c'.outputs[spec.id := evidence]), spec,
                    NodeResult(COMPLETED, f.attempt, artifacts, f.rolledBack))
        else if f.snap.Some?
        then NextAttempt(c'.(files := RestoredPaths(c'.files, f.snap.value, written)), spec, f.attempt, f.snap, written, true)
        else NextAttempt(c', spec, f.attempt, f.snap, written, f.rolledBack)
  }

  function Resume(cfg: Config, c: Ctx, spec: NodeSpec, f: Flight, o: Oracle): Turn {
    match f
    case Pending =>
      var c' := Emit(c, NodeStarted(spec.id));
      if spec.needsApproval then Turn(c', Approving) else Enter(c', spec, o.entryAllowed)
    case Approving =>
      if o.approved then Enter(c, spec, o.entryAllowed)
      else Finish(c, spec, NodeResult(REJECTED, 1, [], false))
    case Sleeping(attempt, snap, written, rolledBack) =>
      Turn(Emit(c, Attempted(spec.id, attempt)), Dispatching(attempt, snap, written, rolledBack))
    case Dispatching(_, _, _, _) => AfterDispatch(cfg, c, spec, f, o.outcome)
    case Done(_) => Turn(c, f)
  }

  // ---- A batch: its nodes resume one at a time, in any order --------------------

  datatype Batch = Batch(specs: seq<NodeSpec>, ctx: Ctx, flights: map<NodeId, Flight>)

  function StartBatch(specs: seq<NodeSpec>, c: Ctx): Batch {
    Batch(specs, c, map n | n in Ids(specs) :: Pending)
  }

  predicate AllDone(b: Batch) {
    forall n :: n in b.flights ==> b.flights[n].Done?
  }

  function StepBatch(cfg: Config, b: Batch, spec: NodeSpec, o: Oracle): Batch
    requires spec.id in b.flights
  {
    var turn := Resume(cfg, b.ctx, spec, b.flights[spec.id], o);
    b.(ctx := turn.ctx, flights := b.flights[spec.id := turn.flight])
  }

  predicate CanStep(b: Batch, spec: NodeSpec) {
    spec in b.specs && spec.id in b.flights && !b.flights[spec.id].Done?
  }

  // ---- run -------------------------------------------------------------------------

  datatype RunState = RunCompleted | RunFailed | RunNeedsInput | RunRaised

  datatype Phase = Idle | Running(batch: Batch) | Finished(state: RunState)

  // While a batch runs, the shared context lives in the batch.
  datatype Run = Run(
    plan: Plan, completed: set<NodeId>, results: map<NodeId, NodeResult>,
    repairs: int, revisions: int, ctx: Ctx, phase: Phase)

  /** The shared context, wherever it lives. */
  function CtxOf(r: Run): Ctx {
    if r.phase.Running? then r.phase.batch.ctx else r.ctx
  }

  ghost function AncestorMap(plan: Plan): map<NodeId, set<NodeId>> {
    map n | n in DepMap(plan.nodes) :: Cone(DepMap(plan.nodes), n)
  }

  function Launch(plan: Plan, files: Files): Run {
    Run(plan, {}, map[], 0, 0, Ctx(files, map[], map[], []), Idle)
  }

  function ReadySpecs(r: Run): seq<NodeSpec> {
    var deps := DepMap(r.plan.nodes);
    Filter(r.plan.nodes, (n: NodeSpec) => IsReady(deps, r.completed, n.id) && n.id !in r.results)
  }

  /** One turn of the outer loop up to the gather; unknown completed ids make ready() raise. */
  function BeginRound(r: Run, stop: bool): Run {
    if stop then r.(phase := Finished(RunFailed))
    else if !(r.completed <= ToSet(Ids(r.plan.nodes))) then r.(phase := Finished(RunRaised))
    else if ReadySpecs(r) == [] then r.(phase := Finished(RunCompleted))
    else r.(phase := Running(StartBatch(ReadySpecs(r), r.ctx)))
  }

  predicate CanRepair(cfg: Config, r: Run, id: NodeId, outcome: NodeResult) {
    id == VERIFY && outcome.state == FAILED && r.repairs < cfg.maxRepairs && IMPLEMENT in r.results
  }

  function Repaired(r: Run): Run {
    r.(repairs := r.repairs + 1,
       results := r.results - {IMPLEMENT, VERIFY},
       completed := r.completed - {IMPLEMENT, VERIFY},
       ctx := Emit(r.ctx, RepairStarted))
  }

  /** Record the outcomes in batch order until one of them stops the run. */
  function Settle(cfg: Config, r: Run, specs: seq<NodeSpec>, flights: map<NodeId, Flight>): Run
    requires forall s :: s in specs ==> s.id in flights && flights[s.id].Done?
    decreases specs
  {
    if specs == [] then r
    else
      var id, outcome := specs[0].id, flights[specs[0].id].result;
      var r' := r.(results := r.results[id := outcome]);
      if outcome.state == COMPLETED then
        Settle(cfg, r'.(completed := r.completed + {id}), specs[1..], flights)
      else if outcome.state == INPUT_REQUIRED then r'.(phase := Finished(RunNeedsInput))
      else if CanRepair(cfg, r', id, outcome) then Settle(cfg, Repaired(r'), specs[1..], flights)
      else r'.(phase := Finished(RunFailed))
  }

  /** The revision _maybe_replan asks for, if any. */
  function WantsRevision(cfg: Config, r: Run): Option<Plan> {
    if r.revisions >= cfg.maxRevisions || IMPACT !in r.ctx.outputs then None
    else ReviseFromEvidence(r.plan, r.ctx.outputs[IMPACT], cfg.reason)
  }

  /** PlanGraph(revised) raises when the revised plan is not acceptable. */
  ghost function Replanned(cfg: Config, r: Run): Run {
    match WantsRevision(cfg, r)
    case None => r
    case Some(next) =>
      var r' := r.(plan := next, revisions := r.revisions + 1, ctx := Emit(r.ctx, PlanRevised));
      if Accepted(next) then r' else r'.(phase := Finished(RunRaised))
  }

  ghost function EndRound(cfg: Config, r: Run): Run
    requires r.phase.Running? && AllDone(r.phase.batch)
    requires forall s :: s in r.phase.batch.specs ==> s.id in r.phase.batch.flights
  {
    var b := r.phase.batch;
    var r' := Settle(cfg, r.(ctx := b.ctx, phase := Idle), b.specs, b.flights);
    if r'.phase.Finished? then r' else Replanned(cfg, r')
  }

  /** One step of a run: begin a round, resume one node, or settle a finished batch. */
  ghost predicate Step(cfg: Config, r: Run, r': Run) {
    match r.phase
    case Idle => exists stop :: r' == BeginRound(r, stop)
    case Running(b) =>
      || (exists spec, o :: CanStep(b, spec) && r' == r.(phase := Running(StepBatch(cfg, b, spec, o))))
      || (AllDone(b) && (forall s :: s in b.specs ==> s.id in b.flights) && r' == EndRound(cfg, r))
    case Finished(_) => false
  }

  /** A run from its launch: each state follows from the one before. */
  ghost predicate IsRun(cfg: Config, plan: Plan, files: Files, rs: seq<Run>) {
    && rs != []
    && Accepted(plan)
    && cfg.ancestors == AncestorMap(plan)
    && rs[0] == Launch(plan, files)
    && forall i :: 0 <= i < |rs| - 1 ==> Step(cfg, rs[i], rs[i + 1])
  }
}
