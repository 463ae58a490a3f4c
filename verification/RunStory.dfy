/** What a run reports, and why its nodes ran. */
module RunStories {
  import opened Prelude
  import opened Digraph
  import opened PlanGraphs
  import opened Planner
  import opened Replan
  import opened Workspaces
  import opened ExecutorModel
  import opened Isolation
  import opened RunInvariant
  import opened RunCounts
  import opened Settlings
  import opened NodeStories

  // ---- Runs and the choices made along them ------------------------------------------

  datatype Choice = Begin(stop: bool) | Resumes(move: Move) | Close

  ghost predicate Takes(cfg: Config, r: Run, ch: Choice, r': Run) {
    match ch
    case Begin(stop) => r.phase.Idle? && r' == BeginRound(r, stop)
    case Resumes(m) =>
      && r.phase.Running? && CanStep(r.phase.batch, m.spec)
      && r' == r.(phase := Running(StepBatch(cfg, r.phase.batch, m.spec, m.oracle)))
    case Close =>
      && r.phase.Running? && AllDone(r.phase.batch)
      && (forall s :: s in r.phase.batch.specs ==> s.id in r.phase.batch.flights)
      && r' == EndRound(cfg, r)
  }

  /** A run, with the choice behind each of its steps. */
  ghost predicate Chosen(cfg: Config, plan: Plan, files: Files, rs: seq<Run>, chs: seq<Choice>) {
    && |rs| == |chs| + 1
    && Accepted(plan)
    && cfg.ancestors == AncestorMap(plan)
    && rs[0] == Launch(plan, files)
    && forall i {:trigger Takes(cfg, rs[i], chs[i], rs[i + 1])} :: 0 <= i < |chs| ==> Takes(cfg, rs[i], chs[i], rs[i + 1])
  }

  lemma StepTaken(cfg: Config, plan: Plan, files: Files, rs: seq<Run>, chs: seq<Choice>, i: nat)
    requires Chosen(cfg, plan, files, rs, chs) && i < |chs|
    ensures Takes(cfg, rs[i], chs[i], rs[i + 1])
  {
  }

  lemma ChosenSteps(cfg: Config, plan: Plan, files: Files, rs: seq<Run>, chs: seq<Choice>)
    requires Chosen(cfg, plan, files, rs, chs)
    ensures IsRun(cfg, plan, files, rs)
  {
    forall i | 0 <= i < |rs| - 1
      ensures Step(cfg, rs[i], rs[i + 1])
    {
      assert Takes(cfg, rs[i], chs[i], rs[i + 1]);
    }
  }

  /** Every run comes from choices. */
  lemma {:induction false} RunIsChosen(cfg: Config, plan: Plan, files: Files, rs: seq<Run>) returns (chs: seq<Choice>)
    requires IsRun(cfg, plan, files, rs)
    ensures Chosen(cfg, plan, files, rs, chs)
  {
    if |rs| == 1 {
      chs := [];
    } else {
      var n := |rs| - 1;
      assert IsRun(cfg, plan, files, rs[..n]) by {
        forall i | 0 <= i < n - 1
          ensures Step(cfg, rs[..n][i], rs[..n][i + 1])
        {
          assert Step(cfg, rs[i], rs[i + 1]);
        }
      }
      var before := RunIsChosen(cfg, plan, files, rs[..n]);
      assert Step(cfg, rs[n - 1], rs[n]);
      var ch := StepIsChosen(cfg, rs[n - 1], rs[n]);
      chs := before + [ch];
      forall i | 0 <= i < n
        ensures Takes(cfg, rs[i], chs[i], rs[i + 1])
      {
        if i < n - 1 {
          assert Takes(cfg, rs[..n][i], before[i], rs[..n][i + 1]);
        }
      }
    }
  }

  lemma StepIsChosen(cfg: Config, r: Run, r': Run) returns (ch: Choice)
    requires Step(cfg, r, r')
    ensures Takes(cfg, r, ch, r')
  {
    if r.phase.Idle? {
      var stop :| r' == BeginRound(r, stop);
      ch := Begin(stop);
    } else if spec, o :| CanStep(r.phase.batch, spec) && r' == r.(phase := Running(StepBatch(cfg, r.phase.batch, spec, o))) {
      ch := Resumes(Move(spec, o));
    } else {
      ch := Close;
    }
  }

  // ---- Rounds are batches ----------------------------------------------------------------

  /** Moves lo to hi of the run, and the batches they lead through, are one interleaving from the books of state lo - 1. */
  ghost predicate IsRound(cfg: Config, rs: seq<Run>, chs: seq<Choice>, lo: nat, hi: nat, moves: seq<Move>, bs: seq<Batch>) {
    && 0 < lo <= hi < |rs| == |chs| + 1 && |moves| == hi - lo
    && rs[lo - 1].phase.Idle?
    && Interleaving(cfg, ReadySpecs(rs[lo - 1]), rs[lo - 1].ctx, moves, bs)
    && (forall k :: 0 <= k <= hi - lo ==> rs[lo + k] == rs[lo - 1].(phase := Running(bs[k])))
    && (forall k :: 0 <= k < hi - lo ==> chs[lo + k] == Resumes(moves[k]))
  }

  /** Whatever a run is in the middle of is an interleaving of the batch it began last. */
  lemma {:induction false} RoundsInterleave(cfg: Config, plan: Plan, files: Files, rs: seq<Run>, chs: seq<Choice>, i: nat)
    returns (lo: nat, moves: seq<Move>, bs: seq<Batch>)
    requires Chosen(cfg, plan, files, rs, chs) && i < |rs| && rs[i].phase.Running?
    ensures IsRound(cfg, rs, chs, lo, i, moves, bs) && Distinct(Ids(ReadySpecs(rs[lo - 1])))
  {
    assert i > 0;
    if rs[i - 1].phase.Running? {
      StepTaken(cfg, plan, files, rs, chs, i - 1);
      lo, moves, bs := RoundsInterleave(cfg, plan, files, rs, chs, i - 1);
      moves, bs := GrowRound(cfg, rs, chs, lo, i - 1, moves, bs);
    } else {
      ChosenSane(cfg, plan, files, rs, chs, i - 1);
      lo, moves, bs := i, [], [rs[i].phase.batch];
      NewRound(cfg, rs, chs, i);
    }
  }

  lemma GrowRound(cfg: Config, rs: seq<Run>, chs: seq<Choice>, lo: nat, hi: nat, moves: seq<Move>, bs: seq<Batch>)
    returns (moves': seq<Move>, bs': seq<Batch>)
    requires IsRound(cfg, rs, chs, lo, hi, moves, bs) && hi < |chs| && Takes(cfg, rs[hi], chs[hi], rs[hi + 1])
    requires rs[hi].phase.Running? && rs[hi + 1].phase.Running?
    ensures IsRound(cfg, rs, chs, lo, hi + 1, moves', bs')
  {
    CloseIsNotRunning(cfg, rs[hi], chs[hi], rs[hi + 1]);
    moves', bs' := moves + [chs[hi].move], bs + [rs[hi + 1].phase.batch];
    LongerRound(cfg, rs, chs, lo, hi, moves, bs, moves', bs');
  }

  lemma ChosenSane(cfg: Config, plan: Plan, files: Files, rs: seq<Run>, chs: seq<Choice>, i: nat)
    requires Chosen(cfg, plan, files, rs, chs) && i < |rs|
    ensures Sane(rs[i]) && rs[i].revisions >= 0
    ensures i < |chs| ==> Takes(cfg, rs[i], chs[i], rs[i + 1])
  {
    if i < |chs| {
      StepTaken(cfg, plan, files, rs, chs, i);
    }
    ChosenSteps(cfg, plan, files, rs, chs);
    RunSane(cfg, plan, files, rs, i);
  }

  lemma NewRound(cfg: Config, rs: seq<Run>, chs: seq<Choice>, i: nat)
    requires 0 < i < |rs| == |chs| + 1 && Takes(cfg, rs[i - 1], chs[i - 1], rs[i])
    requires rs[i].phase.Running? && !rs[i - 1].phase.Running? && Sane(rs[i - 1])
    ensures IsRound(cfg, rs, chs, i, i, [], [rs[i].phase.batch]) && Distinct(Ids(ReadySpecs(rs[i - 1])))
  {
    StartsBatch(cfg, rs[i - 1], chs[i - 1], rs[i]);
    SaneBatch(rs[i - 1]);
    FreshRound(cfg, rs, chs, i);
  }

  lemma SaneBatch(r: Run)
    requires Sane(r) && r.phase.Idle?
    ensures Distinct(Ids(ReadySpecs(r)))
  {
    ReadyDistinct(r);
  }

  lemma StartsBatch(cfg: Config, r: Run, ch: Choice, r': Run)
    requires Takes(cfg, r, ch, r') && r'.phase.Running? && !r.phase.Running?
    ensures r.phase.Idle? && r' == r.(phase := Running(StartBatch(ReadySpecs(r), r.ctx)))
  {
  }

  lemma FreshRound(cfg: Config, rs: seq<Run>, chs: seq<Choice>, i: nat)
    requires 0 < i < |rs| == |chs| + 1 && rs[i - 1].phase.Idle?
    requires rs[i] == rs[i - 1].(phase := Running(StartBatch(ReadySpecs(rs[i - 1]), rs[i - 1].ctx)))
    ensures IsRound(cfg, rs, chs, i, i, [], [rs[i].phase.batch])
  {
  }

  lemma CloseIsNotRunning(cfg: Config, r: Run, ch: Choice, r': Run)
    requires Takes(cfg, r, ch, r') && r.phase.Running? && r'.phase.Running?
    ensures ch.Resumes?
  {
    if ch.Close? {
      var b := r.phase.batch;
      SettleIdles(cfg, r.(ctx := b.ctx, phase := Idle), b.specs, b.flights);
    }
  }

  lemma {:induction false} SettleIdles(cfg: Config, r: Run, specs: seq<NodeSpec>, flights: map<NodeId, Flight>)
    requires forall s :: s in specs ==> s.id in flights && flights[s.id].Done?
    requires r.phase.Idle?
    ensures !Settle(cfg, r, specs, flights).phase.Running?
    decreases specs
  {
    if specs != [] {
      var id, outcome := specs[0].id, flights[specs[0].id].result;
      var r1 := r.(results := r.results[id := outcome]);
      if outcome.state == COMPLETED {
        SettleIdles(cfg, r1.(completed := r.completed + {id}), specs[1..], flights);
      } else if outcome.state != INPUT_REQUIRED && CanRepair(cfg, r1, id, outcome) {
        SettleIdles(cfg, Repaired(r1), specs[1..], flights);
      }
    }
  }

  lemma LongerRound(cfg: Config, rs: seq<Run>, chs: seq<Choice>, lo: nat, hi: nat, moves: seq<Move>, bs: seq<Batch>,
                    moves': seq<Move>, bs': seq<Batch>)
    requires IsRound(cfg, rs, chs, lo, hi, moves, bs) && hi < |chs| && chs[hi].Resumes? && Takes(cfg, rs[hi], chs[hi], rs[hi + 1])
    requires moves' == moves + [chs[hi].move] && bs' == bs + [rs[hi + 1].phase.batch]
    ensures IsRound(cfg, rs, chs, lo, hi + 1, moves', bs')
  {
    var n, m := hi - lo, chs[hi].move;
    assert rs[lo + n] == rs[lo - 1].(phase := Running(bs[n]));
    assert rs[hi + 1] == rs[lo - 1].(phase := Running(StepBatch(cfg, bs[n], m.spec, m.oracle)));
    LongerInterleaving(cfg, ReadySpecs(rs[lo - 1]), rs[lo - 1].ctx, moves, bs, m, bs');
    forall k | 0 <= k <= n + 1
      ensures rs[lo + k] == rs[lo - 1].(phase := Running(bs'[k]))
    {
      assert k <= n ==> rs[lo + k] == rs[lo - 1].(phase := Running(bs[k]));
    }
  }

  lemma LongerInterleaving(cfg: Config, specs: seq<NodeSpec>, c: Ctx, moves: seq<Move>, bs: seq<Batch>, m: Move, bs': seq<Batch>)
    requires Interleaving(cfg, specs, c, moves, bs) && CanStep(bs[|moves|], m.spec)
    requires bs' == bs + [StepBatch(cfg, bs[|moves|], m.spec, m.oracle)]
    ensures Interleaving(cfg, specs, c, moves + [m], bs')
  {
  }

  // ---- Beginning a round -------------------------------------------------------------------

  predicate Due(r: Run, s: NodeSpec) {
    s.id !in r.results && forall d :: d in s.dependsOn ==> d in r.completed
  }

  /**
   A round starts exactly the nodes without a result whose dependencies are completed,
   in plan order, with the shared context as it is; with none left the run is COMPLETED,
   and a stop request makes it FAILED.
   */
  lemma BeginsExactly(cfg: Config, plan: Plan, files: Files, rs: seq<Run>, chs: seq<Choice>, i: nat)
    requires Chosen(cfg, plan, files, rs, chs) && i < |chs| && chs[i].Begin?
    ensures var r, r' := rs[i], rs[i + 1];
      var due := Filter(r.plan.nodes, (s: NodeSpec) => Due(r, s));
      && r'.(phase := Idle) == r
      && r'.phase == if chs[i].stop then Finished(RunFailed) else if due == [] then Finished(RunCompleted)
                     else Running(Batch(due, r.ctx, map n | n in Ids(due) :: Pending))
  {
    var r := rs[i];
    assert Takes(cfg, r, chs[i], rs[i + 1]);
    ChosenSane(cfg, plan, files, rs, chs, i);
    ReadyIsDue(r);
  }

  lemma ReadyIsDue(r: Run)
    requires Books(r, r.ctx.outputs)
    ensures ReadySpecs(r) == Filter(r.plan.nodes, (s: NodeSpec) => Due(r, s))
  {
    var deps := DepMap(r.plan.nodes);
    var ready := (s: NodeSpec) => IsReady(deps, r.completed, s.id) && s.id !in r.results;
    forall s | s in r.plan.nodes
      ensures ready(s) == Due(r, s)
    {
      DueIsReady(r, s);
    }
    FilterSame(r.plan.nodes, ready, (s: NodeSpec) => Due(r, s));
  }

  lemma DueIsReady(r: Run, s: NodeSpec)
    requires Books(r, r.ctx.outputs) && s in r.plan.nodes
    ensures IsReady(DepMap(r.plan.nodes), r.completed, s.id) && s.id !in r.results <==> Due(r, s)
  {
    DepMapAt(r.plan.nodes);
    var i :| 0 <= i < |r.plan.nodes| && r.plan.nodes[i] == s;
    var deps := DepMap(r.plan.nodes)[s.id];
    assert forall d :: d in deps <==> d in s.dependsOn;
  }

  // ---- Closing a round --------------------------------------------------------------------

  /** The impact analysis found an extension point missing, and the plan has no seam yet. */
  predicate RevisionDue(cfg: Config, r: Run) {
    && r.revisions < cfg.maxRevisions && IMPACT in r.ctx.outputs && r.ctx.outputs[IMPACT].missingExtensionPoint
    && REFACTOR !in Ids(r.plan.nodes)
  }

  /** The next version of a plan: the seam after its nodes, and implement waiting for it. */
  ghost predicate IsRevision(plan: Plan, next: Plan, reason: string) {
    && next.version == plan.version + 1 && next.supersedes == Some(plan.version) && next.rationale == reason
    && |next.nodes| == |plan.nodes| + 1
    && next.nodes[|plan.nodes|] == NodeSpec(REFACTOR, [DESIGN], 2, true, true)
    && forall i :: 0 <= i < |plan.nodes| ==> next.nodes[i] == Behind(plan.nodes[i])
  }

  function Behind(node: NodeSpec): NodeSpec {
    if node.id == IMPLEMENT then node.(dependsOn := [DESIGN, REFACTOR]) else node
  }

  /** From settled books a round goes on, with the next version of the plan when one is due. */
  ghost predicate GoesOn(cfg: Config, a: Run, r': Run) {
    if !RevisionDue(cfg, a) then r' == a
    else
      && IsRevision(a.plan, r'.plan, cfg.reason)
      && r' == a.(plan := r'.plan, revisions := a.revisions + 1, ctx := Emit(a.ctx, PlanRevised),
                  phase := if Accepted(r'.plan) then Idle else Finished(RunRaised))
  }

  lemma ReplannedGoesOn(cfg: Config, a: Run)
    requires a.phase.Idle? && Accepted(a.plan)
    ensures GoesOn(cfg, a, Replanned(cfg, a))
  {
    if RevisionDue(cfg, a) {
      RewiredAt(a.plan.nodes, cfg.reason);
    }
  }

  ghost predicate Closing(r: Run) {
    && r.phase.Running? && Landed(r.phase.batch.specs, r.phase.batch.flights)
    && Unrecorded(r, r.phase.batch.specs)
  }

  /** The books before the outcomes of r's batch are recorded. */
  ghost function Unsettled(r: Run): Run
    requires r.phase.Running?
  {
    r.(ctx := r.phase.batch.ctx, phase := Idle)
  }

  lemma SaneCloses(cfg: Config, r: Run, r': Run)
    requires Sane(r) && Takes(cfg, r, Close, r')
    ensures Closing(r)
  {
    var b := r.phase.batch;
    ReadyDistinct(r);
    forall n | n in Ids(b.specs)
      ensures n !in r.results && n !in r.completed
    {
      var s := SpecById(b.specs, n);
      ReadySpec(r, s);
    }
  }

  /** How a round ends, given the first outcome the run does not go on from. */
  ghost predicate Ends(cfg: Config, r: Run, k: nat, r': Run)
    requires Closing(r)
  {
    var b := r.phase.batch;
    && StopsAt(cfg, Unsettled(r), b.specs, b.flights, k)
    && var a := BooksAfter(cfg, Unsettled(r), b.specs, b.flights, k);
       if k == |b.specs| then GoesOn(cfg, a, r') else Halts(a, b.specs[k].id, b.flights[b.specs[k].id].result, r')
  }

  ghost predicate Halts(a: Run, id: NodeId, outcome: NodeResult, r': Run) {
    && outcome.state != COMPLETED
    && r' == a.(results := a.results[id := outcome],
                phase := Finished(if outcome.state == INPUT_REQUIRED then RunNeedsInput else RunFailed))
  }

  /**
   A round ends at the first outcome that is neither COMPLETED nor a verification to
   repair, with exactly the outcomes up to it recorded; when there is none the run goes
   on, re-planned exactly when a revision is due.
   */
  lemma EndsExactly(cfg: Config, plan: Plan, files: Files, rs: seq<Run>, chs: seq<Choice>, i: nat) returns (k: nat)
    requires Chosen(cfg, plan, files, rs, chs) && i < |chs| && chs[i].Close?
    ensures Closing(rs[i]) && Ends(cfg, rs[i], k, rs[i + 1])
  {
    ChosenSane(cfg, plan, files, rs, chs, i);
    assert Takes(cfg, rs[i], chs[i], rs[i + 1]);
    SaneCloses(cfg, rs[i], rs[i + 1]);
    k := CloseEnds(cfg, rs[i], rs[i + 1]);
  }

  lemma CloseEnds(cfg: Config, r: Run, r': Run) returns (k: nat)
    requires Sane(r) && Takes(cfg, r, Close, r') && Closing(r)
    ensures Ends(cfg, r, k, r')
  {
    var b := r.phase.batch;
    k := SomeStop(cfg, Unsettled(r), b.specs, b.flights, 0);
    SettlesTo(cfg, Unsettled(r), b.specs, b.flights, k);
    if k == |b.specs| {
      ReplannedGoesOn(cfg, BooksAfter(cfg, Unsettled(r), b.specs, b.flights, k));
    }
  }

  // ---- What the run reports --------------------------------------------------------------------

  ghost predicate AllCompleted(r: Run) {
    forall n :: n in r.results ==> r.results[n].state == COMPLETED
  }

  lemma SettledCompleted(cfg: Config, r: Run, specs: seq<NodeSpec>, flights: map<NodeId, Flight>, k: nat)
    requires Landed(specs, flights) && AllCompleted(r) && StopsAt(cfg, r, specs, flights, k)
    ensures AllCompleted(BooksAfter(cfg, r, specs, flights, k))
  {
    var a := BooksAfter(cfg, r, specs, flights, k);
    ResultsOfAt(specs[..k], flights);
    forall n | n in a.results
      ensures a.results[n].state == COMPLETED
    {
      if n in Ids(specs[..k]) {
        var j :| 0 <= j < k && Ids(specs[..k])[j] == n;
        assert specs[j].id == n && Harmless(cfg, r, specs, flights, j);
      }
    }
  }

  ghost predicate SomeResult(r: Run, states: set<TaskState>) {
    exists n :: n in r.results && r.results[n].state in states
  }

  /** What the state a run reports says about its results and its plan. */
  ghost predicate Reports(r: Run, state: RunState, stopped: bool) {
    && (state == RunNeedsInput <==> SomeResult(r, {INPUT_REQUIRED}))
    && (state == RunFailed <==> stopped || SomeResult(r, {FAILED, REJECTED}))
    && (state == RunRaised <==> !Accepted(r.plan))
    && (state == RunCompleted <==> !stopped && Accepted(r.plan) && AllNodesCompleted(r))
  }

  ghost predicate AllNodesCompleted(r: Run) {
    forall n :: n in Ids(r.plan.nodes) ==> n in r.results && r.results[n].state == COMPLETED
  }

  lemma HaltReports(a: Run, id: NodeId, outcome: NodeResult, r': Run)
    requires AllCompleted(a) && Accepted(a.plan) && Halts(a, id, outcome, r') && id in Ids(a.plan.nodes)
    ensures Reports(r', r'.phase.state, false)
  {
    assert r'.results[id] == outcome;
    assert forall n :: n in r'.results && n != id ==> r'.results[n].state == COMPLETED;
  }

  lemma BeginReports(r: Run, stop: bool)
    requires r.phase.Idle? && Sane(r) && BeginRound(r, stop).phase.Finished?
    ensures Reports(BeginRound(r, stop), BeginRound(r, stop).phase.state, stop)
  {
    BeginSane(r, stop);
    if !stop {
      NothingReady(r);
      assert forall n :: n in Ids(r.plan.nodes) ==> n in IdSet(r.plan);
    }
  }

  lemma CloseReports(cfg: Config, r: Run, k: nat, r': Run)
    requires Sane(r) && Closing(r) && Ends(cfg, r, k, r') && r'.phase.Finished?
    ensures Reports(r', r'.phase.state, false)
  {
    var b := r.phase.batch;
    SettledCompleted(cfg, Unsettled(r), b.specs, b.flights, k);
    var a := BooksAfter(cfg, Unsettled(r), b.specs, b.flights, k);
    if k < |b.specs| {
      ReadySpec(r, b.specs[k]);
      HaltReports(a, b.specs[k].id, b.flights[b.specs[k].id].result, r');
    }
  }

  /**
   The reported state says exactly how the run went: input needed when a recorded result
   needs input; failed when a stop was requested or a recorded result failed or was
   rejected; an error raised when the plan in force is not acceptable; completed when no
   stop was requested and every node of the plan in force is.
   */
  lemma ReportedState(cfg: Config, plan: Plan, files: Files, rs: seq<Run>, chs: seq<Choice>, i: nat)
    requires Chosen(cfg, plan, files, rs, chs) && i < |rs| && rs[i].phase.Finished?
    ensures i > 0 && Reports(rs[i], rs[i].phase.state, chs[i - 1] == Begin(true))
  {
    assert i > 0;
    ChosenSane(cfg, plan, files, rs, chs, i - 1);
    StepReports(cfg, rs[i - 1], chs[i - 1], rs[i]);
  }

  lemma StepReports(cfg: Config, r: Run, ch: Choice, r': Run)
    requires Sane(r) && Takes(cfg, r, ch, r') && r'.phase.Finished?
    ensures Reports(r', r'.phase.state, ch == Begin(true))
  {
    match ch {
      case Begin(stop) => BeginReports(r, stop);
      case Resumes(_) =>
      case Close =>
        SaneCloses(cfg, r, r');
        var k := CloseEnds(cfg, r, r');
        CloseReports(cfg, r, k, r');
    }
  }

  // ---- Why a node ran ----------------------------------------------------------------------

  ghost predicate MoveOf(r: Run, ch: Choice, n: NodeId) {
    ch.Resumes? && ch.move.spec.id == n && r.phase.Running?
  }

  /** Before state i some move let node n in: approved if it needs that, its entry gate open, its inputs there. */
  ghost predicate LetInBefore(rs: seq<Run>, chs: seq<Choice>, n: NodeId, i: nat)
    requires |chs| + 1 == |rs| && i < |rs|
  {
    exists k :: 0 <= k < i && MoveOf(rs[k], chs[k], n) && LetsIn(rs[k].phase.batch, chs[k].move)
  }

  ghost predicate TurnedAwayBefore(rs: seq<Run>, chs: seq<Choice>, n: NodeId, i: nat)
    requires |chs| + 1 == |rs| && i < |rs|
  {
    exists k :: 0 <= k < i && MoveOf(rs[k], chs[k], n) && TurnsAway(rs[k].phase.batch, chs[k].move)
  }

  /** Some flight of node n ended with this result before state i. */
  ghost predicate EndedWith(rs: seq<Run>, n: NodeId, result: NodeResult, i: nat)
    requires i < |rs|
  {
    exists k :: 0 <= k < i && FlownTo(rs[k], n, result)
  }

  predicate FlownTo(r: Run, n: NodeId, result: NodeResult) {
    r.phase.Running? && n in r.phase.batch.flights && r.phase.batch.flights[n] == Done(result)
  }

  lemma CloseResults(cfg: Config, r: Run, k: nat, r': Run, n: NodeId)
    requires Closing(r) && Ends(cfg, r, k, r') && n in r'.results
    ensures (n in r.results && r'.results[n] == r.results[n]) || FlownTo(r, n, r'.results[n])
  {
    var b := r.phase.batch;
    ResultsOfAt(b.specs[..k], b.flights);
    forall n | n in Ids(b.specs[..k])
      ensures n in Ids(b.specs)
    {
      var j :| 0 <= j < k && Ids(b.specs[..k])[j] == n;
      assert Ids(b.specs)[j] == n;
    }
  }

  /** Every recorded result is how a flight of that node ended. */
  lemma {:induction false} ResultsAreFlights(cfg: Config, plan: Plan, files: Files, rs: seq<Run>, chs: seq<Choice>, i: nat, n: NodeId)
    requires Chosen(cfg, plan, files, rs, chs) && i < |rs| && n in rs[i].results
    ensures EndedWith(rs, n, rs[i].results[n], i)
  {
    assert i > 0;
    ChosenSane(cfg, plan, files, rs, chs, i - 1);
    StepResults(cfg, rs[i - 1], chs[i - 1], rs[i], n);
    if !FlownTo(rs[i - 1], n, rs[i].results[n]) {
      ResultsAreFlights(cfg, plan, files, rs, chs, i - 1, n);
    }
  }

  lemma StepResults(cfg: Config, r: Run, ch: Choice, r': Run, n: NodeId)
    requires Sane(r) && Takes(cfg, r, ch, r') && n in r'.results
    ensures (n in r.results && r'.results[n] == r.results[n]) || FlownTo(r, n, r'.results[n])
  {
    if ch.Close? {
      SaneCloses(cfg, r, r');
      var k := CloseEnds(cfg, r, r');
      CloseResults(cfg, r, k, r', n);
    }
  }

  /** A flight that is past its gate, or was turned away there, in terms of the run's choices. */
  lemma FlightGate(cfg: Config, plan: Plan, files: Files, rs: seq<Run>, chs: seq<Choice>, i: nat, n: NodeId)
    requires Chosen(cfg, plan, files, rs, chs) && i < |rs| && rs[i].phase.Running? && n in rs[i].phase.batch.flights
    ensures var f := rs[i].phase.batch.flights[n];
      && (f.Sleeping? || f.Dispatching? || (f.Done? && f.result.state != REJECTED) ==> LetInBefore(rs, chs, n, i))
      && (f.Done? && f.result.state == REJECTED ==> TurnedAwayBefore(rs, chs, n, i))
  {
    var lo, moves, bs := RoundsInterleave(cfg, plan, files, rs, chs, i);
    ChosenSane(cfg, plan, files, rs, chs, i);
    RoundGate(cfg, rs, chs, lo, i, moves, bs, n);
  }

  lemma RoundGate(cfg: Config, rs: seq<Run>, chs: seq<Choice>, lo: nat, hi: nat, moves: seq<Move>, bs: seq<Batch>, n: NodeId)
    requires IsRound(cfg, rs, chs, lo, hi, moves, bs) && Distinct(Ids(ReadySpecs(rs[lo - 1])))
    requires n in bs[hi - lo].flights && bs[hi - lo].flights.Keys == ToSet(Ids(ReadySpecs(rs[lo - 1])))
    ensures var f := bs[hi - lo].flights[n];
      && (f.Sleeping? || f.Dispatching? || (f.Done? && f.result.state != REJECTED) ==> LetInBefore(rs, chs, n, hi))
      && (f.Done? && f.result.state == REJECTED ==> TurnedAwayBefore(rs, chs, n, hi))
  {
    var r, k := rs[lo - 1], hi - lo;
    var s := SpecById(ReadySpecs(r), n);
    GateDecides(cfg, ReadySpecs(r), r.ctx, moves, bs, s, k);
    if Admitted(moves, bs, n, k) {
      var j :| 0 <= j < k && moves[j].spec.id == n && LetsIn(bs[j], moves[j]);
      MoveInRound(cfg, rs, chs, lo, hi, moves, bs, j);
    }
    if Refused(moves, bs, n, k) {
      var j :| 0 <= j < k && moves[j].spec.id == n && TurnsAway(bs[j], moves[j]);
      MoveInRound(cfg, rs, chs, lo, hi, moves, bs, j);
    }
  }

  lemma MoveInRound(cfg: Config, rs: seq<Run>, chs: seq<Choice>, lo: nat, hi: nat, moves: seq<Move>, bs: seq<Batch>, j: nat)
    requires IsRound(cfg, rs, chs, lo, hi, moves, bs) && j < hi - lo
    ensures rs[lo + j].phase == Running(bs[j]) && chs[lo + j] == Resumes(moves[j])
    ensures MoveOf(rs[lo + j], chs[lo + j], moves[j].spec.id)
  {
  }

  /**
   No node of a run has a result other than REJECTED unless it was let in: approved if it
   needs approval, its entry gate open and its inputs present; and it is REJECTED only
   when it was turned away.
   */
  lemma ResultsNeedConsent(cfg: Config, plan: Plan, files: Files, rs: seq<Run>, chs: seq<Choice>, i: nat, n: NodeId)
    requires Chosen(cfg, plan, files, rs, chs) && i < |rs| && n in rs[i].results
    ensures if rs[i].results[n].state == REJECTED then TurnedAwayBefore(rs, chs, n, i) else LetInBefore(rs, chs, n, i)
  {
    ResultsAreFlights(cfg, plan, files, rs, chs, i, n);
    var k :| 0 <= k < i && FlownTo(rs[k], n, rs[i].results[n]);
    FlightGate(cfg, plan, files, rs, chs, k, n);
  }

  /** Nothing is dispatched in a run before its node was let in. */
  lemma {:induction false} DispatchNeedsConsent(cfg: Config, plan: Plan, files: Files, rs: seq<Run>, chs: seq<Choice>, i: nat,
                                                n: NodeId, a: int)
    requires Chosen(cfg, plan, files, rs, chs) && i < |rs| && Attempted(n, a) in CtxOf(rs[i]).trail
    ensures LetInBefore(rs, chs, n, i)
  {
    assert i > 0;
    ChosenSane(cfg, plan, files, rs, chs, i - 1);
    StepAttempts(cfg, rs[i - 1], chs[i - 1], rs[i], n, a);
    if Attempted(n, a) in CtxOf(rs[i - 1]).trail {
      DispatchNeedsConsent(cfg, plan, files, rs, chs, i - 1, n, a);
    } else {
      FlightGate(cfg, plan, files, rs, chs, i, n);
    }
  }

  lemma StepAttempts(cfg: Config, r: Run, ch: Choice, r': Run, n: NodeId, a: int)
    requires Sane(r) && Takes(cfg, r, ch, r') && Attempted(n, a) in CtxOf(r').trail
    ensures Attempted(n, a) in CtxOf(r).trail ||
      (r'.phase.Running? && n in r'.phase.batch.flights && r'.phase.batch.flights[n].Dispatching?)
  {
    match ch {
      case Begin(_) =>
      case Resumes(m) =>
        var b := r.phase.batch;
        TurnOccurs(cfg, b.ctx, m.spec, b.flights[m.spec.id], m.oracle, Attempted(n, a));
      case Close =>
        SaneCloses(cfg, r, r');
        var k := CloseEnds(cfg, r, r');
        EndsAttempts(cfg, r, k, r', n, a);
    }
  }

  lemma EndsAttempts(cfg: Config, r: Run, k: nat, r': Run, n: NodeId, a: int)
    requires Closing(r) && Ends(cfg, r, k, r') && Attempted(n, a) in CtxOf(r').trail
    ensures Attempted(n, a) in CtxOf(r).trail
  {
  }

  ghost predicate Guarded(plan: Plan, n: NodeId) {
    forall s :: s in plan.nodes && s.id == n ==> s.needsApproval
  }

  lemma RevisionGuards(plan: Plan, next: Plan, reason: string, n: NodeId)
    requires IsRevision(plan, next, reason) && Guarded(plan, n)
    ensures Guarded(next, n)
  {
    forall s | s in next.nodes && s.id == n
      ensures s.needsApproval
    {
      var j :| 0 <= j < |next.nodes| && next.nodes[j] == s;
      if j < |plan.nodes| {
        assert plan.nodes[j] in plan.nodes;
      }
    }
  }

  /** Re-planning lifts no approval. */
  lemma {:induction false} StaysGuarded(cfg: Config, plan: Plan, files: Files, rs: seq<Run>, chs: seq<Choice>, i: nat, n: NodeId)
    requires Chosen(cfg, plan, files, rs, chs) && i < |rs| && Guarded(plan, n)
    ensures Guarded(rs[i].plan, n)
  {
    if i > 0 {
      ChosenSane(cfg, plan, files, rs, chs, i - 1);
      StaysGuarded(cfg, plan, files, rs, chs, i - 1, n);
      StepGuards(cfg, rs[i - 1], chs[i - 1], rs[i], n);
    }
  }

  lemma StepGuards(cfg: Config, r: Run, ch: Choice, r': Run, n: NodeId)
    requires Sane(r) && Takes(cfg, r, ch, r') && Guarded(r.plan, n)
    ensures Guarded(r'.plan, n)
  {
    if ch.Close? {
      SaneCloses(cfg, r, r');
      var k := CloseEnds(cfg, r, r');
      EndsGuarded(cfg, r, k, r', n);
    }
  }

  lemma EndsGuarded(cfg: Config, r: Run, k: nat, r': Run, n: NodeId)
    requires Closing(r) && Ends(cfg, r, k, r') && Guarded(r.plan, n)
    ensures Guarded(r'.plan, n)
  {
    if r'.plan != r.plan {
      RevisionGuards(r.plan, r'.plan, cfg.reason, n);
    }
  }

  /** A move that found node n waiting for its approval, and brought it. */
  ghost predicate ApprovedBefore(rs: seq<Run>, chs: seq<Choice>, n: NodeId, i: nat)
    requires |chs| + 1 == |rs| && i < |rs|
  {
    exists k :: 0 <= k < i && MoveOf(rs[k], chs[k], n) && Approves(rs[k].phase.batch, chs[k].move)
  }

  predicate Approves(b: Batch, m: Move) {
    m.spec.id in b.flights && b.flights[m.spec.id] == Approving && m.oracle.approved
  }

  /** A node that needs approval in the plan of a run is never dispatched in it before a human approved. */
  lemma NothingUnapproved(cfg: Config, plan: Plan, files: Files, rs: seq<Run>, chs: seq<Choice>, i: nat, n: NodeId, a: int)
    requires Chosen(cfg, plan, files, rs, chs) && i < |rs| && Guarded(plan, n) && Attempted(n, a) in CtxOf(rs[i]).trail
    ensures ApprovedBefore(rs, chs, n, i)
  {
    DispatchNeedsConsent(cfg, plan, files, rs, chs, i, n, a);
    var k :| 0 <= k < i && MoveOf(rs[k], chs[k], n) && LetsIn(rs[k].phase.batch, chs[k].move);
    ChosenSane(cfg, plan, files, rs, chs, k);
    StaysGuarded(cfg, plan, files, rs, chs, k, n);
    assert Takes(cfg, rs[k], chs[k], rs[k + 1]);
    MoveApproved(cfg, rs[k], chs[k], rs[k + 1]);
  }

  lemma MoveApproved(cfg: Config, r: Run, ch: Choice, r': Run)
    requires Sane(r) && Takes(cfg, r, ch, r') && ch.Resumes? && LetsIn(r.phase.batch, ch.move) && Guarded(r.plan, ch.move.spec.id)
    ensures Approves(r.phase.batch, ch.move)
  {
    ReadySpec(r, ch.move.spec);
  }
}
