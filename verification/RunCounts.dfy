/**
 How often each node is executed and attempted, counted in the audit trail, and
 how often the plan is revised, in any run.

 A start is recorded when a node is entered, an attempt when it is dispatched.
 The invariant compares starts with what the books say about repairs, and
 attempts with starts, separately for nodes that wait, run or are done.
 */
module RunCounts {
  import opened Prelude
  import opened Digraph
  import opened PlanGraphs
  import opened Planner
  import opened Replan
  import opened SafePaths
  import opened ExecutorModel
  import opened RunInvariant
  import opened RunBounds
  import Workspaces

  function Occurs(trail: seq<Event>, e: Event): nat {
    multiset(trail)[e]
  }

  lemma OccursEmit(trail: seq<Event>, e: Event, x: Event)
    ensures Occurs(trail + [e], x) == Occurs(trail, x) + if e == x then 1 else 0
  {
  }

  predicate Counted(e: Event) {
    e.NodeStarted? || e.Attempted?
  }

  lemma CheckOccurs(cfg: Config, c: Ctx, node: NodeId, raw: RawPath, e: Event)
    requires Counted(e)
    ensures Occurs(CheckConflict(cfg, c, node, raw).trail, e) == Occurs(c.trail, e)
  {
    if raw in c.owner {
      OccursEmit(c.trail, Conflict(node, raw, c.owner[raw]), e);
      OccursEmit(c.trail + [Conflict(node, raw, c.owner[raw])], Claimed(node, raw), e);
    }
    OccursEmit(c.trail, Claimed(node, raw), e);
  }

  lemma {:induction false} PersistOccurs(cfg: Config, c: Ctx, node: NodeId, artifacts: seq<Artifact>, e: Event)
    requires Counted(e)
    ensures Occurs(Persist(cfg, c, node, artifacts).trail, e) == Occurs(c.trail, e)
    decreases artifacts
  {
    if artifacts != [] {
      var a := artifacts[0];
      if !a.Inline? {
        CheckOccurs(cfg, c, node, a.raw, e);
      }
      if !Unsafe(a) {
        PersistOccurs(cfg, PersistOne(cfg, c, node, a), node, artifacts[1..], e);
      }
    }
  }

  lemma NextOccurs(c: Ctx, spec: NodeSpec, attempt: int, snap: Option<Workspaces.Files>,
                   written: set<Workspaces.Path>, rolledBack: bool, e: Event)
    requires Counted(e)
    ensures Occurs(NextAttempt(c, spec, attempt, snap, written, rolledBack).ctx.trail, e) == Occurs(c.trail, e)
  {
    OccursEmit(c.trail, NodeFinished(spec.id, FAILED), e);
  }

  /** Entering dispatches attempt 1 or dispatches nothing. */
  lemma EnterOccurs(c: Ctx, spec: NodeSpec, entryAllowed: bool, e: Event)
    requires Counted(e)
    ensures var t := Enter(c, spec, entryAllowed);
      Occurs(t.ctx.trail, e) == Occurs(c.trail, e) +
        if t.flight.Dispatching? && e == Attempted(spec.id, 1) then 1 else 0
    ensures var f := Enter(c, spec, entryAllowed).flight;
      (f.Dispatching? && f.attempt == 1 && 1 <= Attempts(spec)) || f.Done?
  {
    OccursEmit(c.trail, NodeFinished(spec.id, REJECTED), e);
    OccursEmit(c.trail, NodeFinished(spec.id, FAILED), e);
    OccursEmit(c.trail, Attempted(spec.id, 1), e);
  }

  lemma AfterOccurs(cfg: Config, c: Ctx, spec: NodeSpec, f: Flight, o: Outcome, e: Event)
    requires f.Dispatching? && Counted(e)
    ensures var t := AfterDispatch(cfg, c, spec, f, o);
      && Occurs(t.ctx.trail, e) == Occurs(c.trail, e)
      && (t.flight.Done? || (t.flight.Sleeping? && t.flight.attempt == f.attempt + 1))
  {
    match o {
      case Raised =>
      case NeedsInput => OccursEmit(c.trail, NodeFinished(spec.id, INPUT_REQUIRED), e);
      case StageFailed => NextOccurs(c, spec, f.attempt, f.snap, f.written, f.rolledBack, e);
      case Produced(artifacts, evidence, allowed) =>
        PersistOccurs(cfg, c, spec.id, artifacts, e);
        if AllSafe(artifacts) {
          var c' := Persist(cfg, c, spec.id, artifacts);
          var written := f.written + PathsOf(artifacts);
          if allowed {
            OccursEmit(c'.trail, NodeFinished(spec.id, COMPLETED), e);
          } else if f.snap.Some? {
            NextOccurs(c'.(files := Workspaces.RestoredPaths(c'.files, f.snap.value, written)), spec, f.attempt, f.snap, written, true, e);
          } else {
            NextOccurs(c', spec, f.attempt, f.snap, written, f.rolledBack, e);
          }
        }
    }
  }

  // ---- Per node ------------------------------------------------------------------------

  function Starts(c: Ctx, n: NodeId): nat {
    Occurs(c.trail, NodeStarted(n))
  }

  /** Attempts of number k that the starts recorded so far may still account for. */
  function Slack(f: Flight, k: int): nat {
    match f
    case Pending => 0
    case Approving => 1
    case Sleeping(attempt, _, _, _) => if k < attempt then 0 else 1
    case Dispatching(attempt, _, _, _) => if k <= attempt then 0 else 1
    case Done(_) => 0
  }

  /** Each start of n has led to at most one attempt of each number, and none beyond the budget. */
  ghost predicate Tallied(c: Ctx, spec: NodeSpec, f: Flight) {
    && (forall k :: Occurs(c.trail, Attempted(spec.id, k)) + Slack(f, k) <= Starts(c, spec.id))
    && (forall k :: Occurs(c.trail, Attempted(spec.id, k)) > 0 ==> 1 <= k <= Attempts(spec))
  }

  lemma TurnTallied(cfg: Config, c: Ctx, spec: NodeSpec, f: Flight, o: Oracle)
    requires !f.Done? && Paced(spec, f) && Tallied(c, spec, f)
    ensures var t := Resume(cfg, c, spec, f, o);
      Tallied(t.ctx, spec, t.flight) && Starts(t.ctx, spec.id) == Starts(c, spec.id) + if f.Pending? then 1 else 0
  {
    var t := Resume(cfg, c, spec, f, o);
    TurnOccurs(cfg, c, spec, f, o, NodeStarted(spec.id));
    forall k
      ensures Occurs(t.ctx.trail, Attempted(spec.id, k)) + Slack(t.flight, k) <= Starts(t.ctx, spec.id)
      ensures Occurs(t.ctx.trail, Attempted(spec.id, k)) > 0 ==> 1 <= k <= Attempts(spec)
    {
      TurnOccurs(cfg, c, spec, f, o, Attempted(spec.id, k));
    }
  }

  /** What one turn adds to the counts. */
  lemma TurnOccurs(cfg: Config, c: Ctx, spec: NodeSpec, f: Flight, o: Oracle, e: Event)
    requires !f.Done? && Counted(e)
    ensures var t := Resume(cfg, c, spec, f, o);
      && Occurs(t.ctx.trail, e) == Occurs(c.trail, e) +
           (if f.Pending? && e == NodeStarted(spec.id) then 1 else 0) +
           (if t.flight.Dispatching? && e == Attempted(spec.id, t.flight.attempt) then 1 else 0)
      && (t.flight.Dispatching? && f.Sleeping? ==> t.flight.attempt == f.attempt)
      && (t.flight.Dispatching? && !f.Sleeping? ==> !f.Dispatching? && t.flight.attempt == 1 && 1 <= Attempts(spec))
      && (t.flight.Sleeping? ==> f.Dispatching? && t.flight.attempt == f.attempt + 1)
      && (t.flight.Approving? ==> f.Pending?) && !t.flight.Pending?
  {
    match f {
      case Pending =>
        OccursEmit(c.trail, NodeStarted(spec.id), e);
        EnterOccurs(Emit(c, NodeStarted(spec.id)), spec, o.entryAllowed, e);
      case Approving =>
        EnterOccurs(c, spec, o.entryAllowed, e);
        OccursEmit(c.trail, NodeFinished(spec.id, REJECTED), e);
      case Sleeping(attempt, _, _, _) => OccursEmit(c.trail, Attempted(spec.id, attempt), e);
      case Dispatching(_, _, _, _) => AfterOccurs(cfg, c, spec, f, o.outcome, e);
    }
  }

  // ---- Along a run -----------------------------------------------------------------------

  /** Repairs re-execute these two nodes and no other. */
  function Redone(r: Run, n: NodeId): int {
    if n == IMPLEMENT || n == VERIFY then r.repairs else 0
  }

  ghost predicate StartsWithin(r: Run, n: NodeId) {
    match r.phase
    case Idle => Starts(r.ctx, n) <= Redone(r, n) + if n in r.results then 1 else 0
    case Running(b) =>
      Starts(b.ctx, n) <= Redone(r, n) +
        if n in r.results || (n in b.flights && !b.flights[n].Pending?) then 1 else 0
    case Finished(_) => Starts(r.ctx, n) <= Redone(r, n) + 1
  }

  ghost predicate FlightTally(r: Run, spec: NodeSpec) {
    Tallied(CtxOf(r), spec,
      if r.phase.Running? && spec.id in r.phase.batch.flights then r.phase.batch.flights[spec.id] else Pending)
  }

  ghost predicate Tally(cfg: Config, r: Run) {
    && 0 <= r.repairs && (r.repairs == 0 || r.repairs <= cfg.maxRepairs)
    && 0 <= r.revisions <= 1 && (r.revisions == 1 ==> REFACTOR in Ids(r.plan.nodes))
    && (forall n :: StartsWithin(r, n))
    && (forall s :: s in r.plan.nodes ==> FlightTally(r, s))
    && (forall n, k :: Attempted(n, k) in CtxOf(r).trail ==> n in Ids(r.plan.nodes))
  }

  /** One node resumed: the run before, the run after, and what the turn left alone. */
  ghost predicate Resumed(cfg: Config, r: Run, r': Run, spec: NodeSpec, o: Oracle) {
    && r.phase.Running? && CanStep(r.phase.batch, spec)
    && r' == r.(phase := Running(StepBatch(cfg, r.phase.batch, spec, o)))
  }

  lemma ResumedOthers(cfg: Config, r: Run, r': Run, spec: NodeSpec, o: Oracle, e: Event)
    requires Resumed(cfg, r, r', spec, o) && Counted(e) && e.node != spec.id
    ensures Occurs(CtxOf(r').trail, e) == Occurs(CtxOf(r).trail, e)
  {
    TurnOccurs(cfg, r.phase.batch.ctx, spec, r.phase.batch.flights[spec.id], o, e);
  }

  lemma ResumedStarts(cfg: Config, r: Run, r': Run, spec: NodeSpec, o: Oracle, n: NodeId)
    requires Resumed(cfg, r, r', spec, o) && StartsWithin(r, n)
    requires spec.id !in r.results
    ensures StartsWithin(r', n)
  {
    if n != spec.id {
      ResumedOthers(cfg, r, r', spec, o, NodeStarted(n));
    } else {
      TurnOccurs(cfg, r.phase.batch.ctx, spec, r.phase.batch.flights[spec.id], o, NodeStarted(n));
    }
  }

  lemma ResumedFlight(cfg: Config, r: Run, r': Run, spec: NodeSpec, o: Oracle, s: NodeSpec)
    requires Resumed(cfg, r, r', spec, o) && AllPaced(r) && FlightTally(r, s)
    requires s.id == spec.id ==> s == spec
    ensures FlightTally(r', s)
  {
    if s == spec {
      TurnTallied(cfg, r.phase.batch.ctx, spec, r.phase.batch.flights[spec.id], o);
    } else {
      ResumedOthers(cfg, r, r', spec, o, NodeStarted(s.id));
      forall k
        ensures Occurs(CtxOf(r').trail, Attempted(s.id, k)) == Occurs(CtxOf(r).trail, Attempted(s.id, k))
      {
        ResumedOthers(cfg, r, r', spec, o, Attempted(s.id, k));
      }
    }
  }

  lemma ResumeTally(cfg: Config, r: Run, r': Run, spec: NodeSpec, o: Oracle)
    requires Resumed(cfg, r, r', spec, o) && Sane(r) && AllPaced(r) && Tally(cfg, r)
    ensures Tally(cfg, r')
  {
    ReadySpec(r, spec);
    forall n
      ensures StartsWithin(r', n)
    {
      ResumedStarts(cfg, r, r', spec, o, n);
    }
    forall s | s in r.plan.nodes
      ensures FlightTally(r', s)
    {
      if s.id == spec.id {
        SameId(r.plan.nodes, s, spec);
      }
      ResumedFlight(cfg, r, r', spec, o, s);
    }
    forall n, k | Attempted(n, k) in CtxOf(r').trail
      ensures n in Ids(r.plan.nodes)
    {
      if n != spec.id {
        ResumedOthers(cfg, r, r', spec, o, Attempted(n, k));
        assert Occurs(CtxOf(r').trail, Attempted(n, k)) > 0;
      }
    }
  }

  /** Half-way through settling, nodes still to be recorded may have started once more than the books show. */
  ghost predicate Recording(cfg: Config, r: Run, specs: seq<NodeSpec>) {
    && 0 <= r.repairs && (r.repairs == 0 || r.repairs <= cfg.maxRepairs)
    && forall n :: Starts(r.ctx, n) <= Redone(r, n) + if n in r.results || n in Ids(specs) then 1 else 0
  }

  lemma RepairedStarts(r: Run, n: NodeId)
    ensures Starts(Repaired(r).ctx, n) == Starts(r.ctx, n)
  {
    OccursEmit(r.ctx.trail, RepairStarted, NodeStarted(n));
  }

  lemma {:induction false} SettleTally(cfg: Config, r: Run, specs: seq<NodeSpec>, flights: map<NodeId, Flight>)
    requires forall s :: s in specs ==> s.id in flights && flights[s.id].Done?
    requires r.phase.Idle? && Recording(cfg, r, specs)
    ensures var r' := Settle(cfg, r, specs, flights);
      && 0 <= r'.repairs && (r'.repairs == 0 || r'.repairs <= cfg.maxRepairs)
      && r'.plan == r.plan && r'.revisions == r.revisions && !r'.phase.Running?
      && (forall n :: StartsWithin(r', n))
      && (forall e :: Counted(e) ==> Occurs(r'.ctx.trail, e) == Occurs(r.ctx.trail, e))
    decreases specs
  {
    if specs != [] {
      var id, outcome, rest := specs[0].id, flights[specs[0].id].result, specs[1..];
      var r1 := r.(results := r.results[id := outcome]);
      assert Ids(specs) == [id] + Ids(rest);
      if outcome.state == COMPLETED {
        SettleTally(cfg, r1.(completed := r.completed + {id}), rest, flights);
      } else if outcome.state != INPUT_REQUIRED && CanRepair(cfg, r1, id, outcome) {
        forall n
          ensures Starts(Repaired(r1).ctx, n) == Starts(r.ctx, n)
        {
          RepairedStarts(r1, n);
        }
        SettleTally(cfg, Repaired(r1), rest, flights);
        forall e | Counted(e)
          ensures Occurs(Repaired(r1).ctx.trail, e) == Occurs(r.ctx.trail, e)
        {
          OccursEmit(r.ctx.trail, RepairStarted, e);
        }
      }
    }
  }

  lemma KeepTallied(a: Ctx, b: Ctx, spec: NodeSpec, f: Flight)
    requires f.Done? || f.Pending?
    requires Tallied(a, spec, f) && forall e :: Counted(e) ==> Occurs(b.trail, e) == Occurs(a.trail, e)
    ensures Tallied(b, spec, Pending)
  {
  }

  lemma SettledTally(cfg: Config, r: Run, r1: Run)
    requires r.phase.Running? && Sane(r) && Tally(cfg, r) && AllDone(r.phase.batch)
    requires forall s :: s in r.phase.batch.specs ==> s.id in r.phase.batch.flights
    requires var b := r.phase.batch; r1 == Settle(cfg, r.(ctx := b.ctx, phase := Idle), b.specs, b.flights)
    ensures Tally(cfg, r1) && !r1.phase.Running? && r1.plan == r.plan
  {
    SettledBooks(cfg, r, r1);
    SettledFlights(r, r1);
    SettledAttempts(r.phase.batch.ctx.trail, r1.ctx.trail, ToSet(Ids(r.plan.nodes)));
  }

  lemma SettledBooks(cfg: Config, r: Run, r1: Run)
    requires r.phase.Running? && Sane(r) && Tally(cfg, r) && AllDone(r.phase.batch)
    requires forall s :: s in r.phase.batch.specs ==> s.id in r.phase.batch.flights
    requires var b := r.phase.batch; r1 == Settle(cfg, r.(ctx := b.ctx, phase := Idle), b.specs, b.flights)
    ensures 0 <= r1.repairs && (r1.repairs == 0 || r1.repairs <= cfg.maxRepairs)
    ensures r1.plan == r.plan && r1.revisions == r.revisions && !r1.phase.Running?
    ensures forall n :: StartsWithin(r1, n)
    ensures forall e :: Counted(e) ==> Occurs(r1.ctx.trail, e) == Occurs(r.phase.batch.ctx.trail, e)
  {
    var b := r.phase.batch;
    var r0 := r.(ctx := b.ctx, phase := Idle);
    StartRecording(cfg, r, r0);
    SettleTally(cfg, r0, b.specs, b.flights);
  }

  lemma StartRecording(cfg: Config, r: Run, r0: Run)
    requires r.phase.Running? && Sane(r) && Tally(cfg, r) && r0 == r.(ctx := r.phase.batch.ctx, phase := Idle)
    ensures Recording(cfg, r0, r.phase.batch.specs)
  {
    var b := r.phase.batch;
    forall n
      ensures Starts(r0.ctx, n) <= Redone(r0, n) + if n in r0.results || n in Ids(b.specs) then 1 else 0
    {
      assert StartsWithin(r, n);
      assert n in b.flights ==> n in ToSet(Ids(b.specs));
    }
  }

  lemma SettledFlights(r: Run, r1: Run)
    requires r.phase.Running? && AllDone(r.phase.batch) && !r1.phase.Running?
    requires forall s :: s in r.plan.nodes ==> FlightTally(r, s)
    requires forall e :: Counted(e) ==> Occurs(r1.ctx.trail, e) == Occurs(r.phase.batch.ctx.trail, e)
    ensures forall s :: s in r.plan.nodes ==> FlightTally(r1, s)
  {
    var b := r.phase.batch;
    forall s | s in r.plan.nodes
      ensures FlightTally(r1, s)
    {
      assert FlightTally(r, s);
      KeepTallied(b.ctx, r1.ctx, s, if s.id in b.flights then b.flights[s.id] else Pending);
    }
  }

  lemma SettledAttempts(before: seq<Event>, after: seq<Event>, ids: set<NodeId>)
    requires forall e :: Counted(e) ==> Occurs(after, e) == Occurs(before, e)
    requires forall n, k :: Attempted(n, k) in before ==> n in ids
    ensures forall n, k :: Attempted(n, k) in after ==> n in ids
  {
    forall n, k | Attempted(n, k) in after
      ensures n in ids
    {
      assert Occurs(after, Attempted(n, k)) > 0;
      assert Occurs(before, Attempted(n, k)) > 0;
    }
  }

  lemma ReplannedTally(cfg: Config, r: Run)
    requires r.phase.Idle? && Sane(r) && Tally(cfg, r)
    ensures Tally(cfg, Replanned(cfg, r))
  {
    if WantsRevision(cfg, r).Some? {
      var r' := Replanned(cfg, r);
      forall e | Counted(e)
        ensures Occurs(r'.ctx.trail, e) == Occurs(r.ctx.trail, e)
      {
        OccursEmit(r.ctx.trail, PlanRevised, e);
      }
      AdoptedTally(cfg, r, r');
    }
  }

  /** Taking the revised plan, whether or not it is accepted. */
  lemma AdoptedTally(cfg: Config, r: Run, r': Run)
    requires r.phase.Idle? && Sane(r) && Tally(cfg, r) && (r'.phase.Idle? || r'.phase.Finished?)
    requires REFACTOR !in Ids(r.plan.nodes) && r'.plan == Revised(r.plan, SeamRequest(cfg.reason))
    requires r'.repairs == r.repairs && r'.revisions == r.revisions + 1 && r'.results == r.results
    requires r'.ctx.trail == r.ctx.trail + [PlanRevised]
    requires forall e :: Counted(e) ==> Occurs(r'.ctx.trail, e) == Occurs(r.ctx.trail, e)
    ensures Tally(cfg, r')
  {
    RevisedIds(r.plan, cfg.reason);
    forall n
      ensures StartsWithin(r', n)
    {
      assert StartsWithin(r, n);
    }
    forall s | s in r'.plan.nodes
      ensures FlightTally(r', s)
    {
      ReseatedTally(cfg, r, r', s);
    }
  }

  lemma RevisedIds(plan: Plan, reason: string)
    requires Accepted(plan) && REFACTOR !in Ids(plan.nodes)
    ensures var next := Revised(plan, SeamRequest(reason));
      REFACTOR in Ids(next.nodes) && forall n :: n in Ids(plan.nodes) ==> n in Ids(next.nodes)
  {
    RevisedDeps(plan, reason);
    assert Ids(Revised(plan, SeamRequest(reason)).nodes)[|plan.nodes|] == REFACTOR;
  }

  /** The added seam has never run; a kept node keeps its retry budget. */
  lemma ReseatedTally(cfg: Config, r: Run, r': Run, s: NodeSpec)
    requires r.phase.Idle? && Sane(r) && Tally(cfg, r) && !r'.phase.Running?
    requires REFACTOR !in Ids(r.plan.nodes) && s in Revised(r.plan, SeamRequest(cfg.reason)).nodes
    requires forall e :: Counted(e) ==> Occurs(r'.ctx.trail, e) == Occurs(r.ctx.trail, e)
    ensures FlightTally(r', s)
  {
    RewiredAt(r.plan.nodes, cfg.reason);
    var i :| 0 <= i <= |r.plan.nodes| && Revised(r.plan, SeamRequest(cfg.reason)).nodes[i] == s;
    if i < |r.plan.nodes| {
      var t := r.plan.nodes[i];
      assert t in r.plan.nodes && FlightTally(r, t);
      KeepTallied(r.ctx, r'.ctx, t, Pending);
      SameTallied(r'.ctx, t, s);
    } else {
      NeverAttempted(r, r'.ctx, s);
    }
  }

  lemma SameTallied(c: Ctx, t: NodeSpec, s: NodeSpec)
    requires Tallied(c, t, Pending) && t.id == s.id && t.maxAttempts == s.maxAttempts
    ensures Tallied(c, s, Pending)
  {
  }

  lemma NeverAttempted(r: Run, c: Ctx, s: NodeSpec)
    requires forall n, k :: Attempted(n, k) in r.ctx.trail ==> n in Ids(r.plan.nodes)
    requires s.id !in Ids(r.plan.nodes)
    requires forall e :: Counted(e) ==> Occurs(c.trail, e) == Occurs(r.ctx.trail, e)
    ensures Tallied(c, s, Pending)
  {
    forall k
      ensures Occurs(c.trail, Attempted(s.id, k)) == 0
    {
      assert Attempted(s.id, k) !in r.ctx.trail;
      assert Occurs(r.ctx.trail, Attempted(s.id, k)) == 0;
    }
  }

  lemma BeginTally(cfg: Config, r: Run, stop: bool)
    requires r.phase.Idle? && Sane(r) && Tally(cfg, r)
    ensures Tally(cfg, BeginRound(r, stop))
  {
    var r' := BeginRound(r, stop);
    forall n
      ensures StartsWithin(r', n)
    {
      assert StartsWithin(r, n);
      BeginStarts(r, r', n);
    }
    forall s | s in r.plan.nodes
      ensures FlightTally(r', s)
    {
      assert FlightTally(r, s);
    }
  }

  lemma BeginStarts(r: Run, r': Run, n: NodeId)
    requires r.phase.Idle? && StartsWithin(r, n)
    requires r'.phase.Finished? || (r'.phase.Running? && r'.phase.batch.ctx == r.ctx)
    requires r' == r.(phase := r'.phase)
    ensures StartsWithin(r', n)
  {
  }

  lemma StepTally(cfg: Config, r: Run, r': Run)
    requires Sane(r) && AllPaced(r) && Tally(cfg, r) && Step(cfg, r, r')
    ensures Tally(cfg, r')
  {
    match r.phase {
      case Idle =>
        var stop :| r' == BeginRound(r, stop);
        BeginTally(cfg, r, stop);
      case Running(b) =>
        if spec, o :| CanStep(b, spec) && r' == r.(phase := Running(StepBatch(cfg, b, spec, o))) {
          ResumeTally(cfg, r, r', spec, o);
        } else {
          var r1 := Settle(cfg, r.(ctx := b.ctx, phase := Idle), b.specs, b.flights);
          SettledTally(cfg, r, r1);
          SettleBalanced(cfg, r.(ctx := b.ctx, phase := Idle), b.specs, b.flights);
          if r1.phase.Idle? {
            ReplannedTally(cfg, r1);
          }
        }
      case Finished(_) =>
    }
  }

  lemma {:induction false} RunTally(cfg: Config, plan: Plan, files: Workspaces.Files, rs: seq<Run>, i: nat)
    requires IsRun(cfg, plan, files, rs) && i < |rs|
    ensures Tally(cfg, rs[i]) && AllPaced(rs[i])
  {
    if i > 0 {
      RunTally(cfg, plan, files, rs, i - 1);
      RunSane(cfg, plan, files, rs, i - 1);
      StepDecreases(cfg, rs[i - 1], rs[i]);
      StepTally(cfg, rs[i - 1], rs[i]);
    }
  }

  /**
   Every node is executed at most once, the implementation and the verification
   at most once more per repair; each execution makes each numbered attempt at
   most once, within the retry budget; the plan is revised at most once.
   */
  lemma WorkIsBounded(cfg: Config, plan: Plan, files: Workspaces.Files, rs: seq<Run>, i: nat, n: NodeId)
    requires IsRun(cfg, plan, files, rs) && i < |rs|
    ensures var r, trail := rs[i], CtxOf(rs[i]).trail;
      && Occurs(trail, NodeStarted(n)) <= 1 + (if (n == IMPLEMENT || n == VERIFY) && cfg.maxRepairs > 0 then cfg.maxRepairs else 0)
      && (forall s, k :: s in r.plan.nodes && s.id == n ==>
            Occurs(trail, Attempted(n, k)) <= Occurs(trail, NodeStarted(n)))
      && (forall s, k :: s in r.plan.nodes && s.id == n && Attempted(n, k) in trail ==> 1 <= k <= s.maxAttempts + 1)
      && r.revisions <= 1
      && (r.repairs > 0 ==> r.repairs <= cfg.maxRepairs)
  {
    RunTally(cfg, plan, files, rs, i);
    var r := rs[i];
    assert StartsWithin(r, n);
    forall s, k | s in r.plan.nodes && s.id == n
      ensures Occurs(CtxOf(r).trail, Attempted(n, k)) <= Occurs(CtxOf(r).trail, NodeStarted(n))
      ensures Attempted(n, k) in CtxOf(r).trail ==> 1 <= k <= s.maxAttempts + 1
    {
      assert FlightTally(r, s);
    }
  }
}
