/**
 How much work a run can do: a measure every step decreases, and bounds on how
 often a node is executed, attempted and the plan revised.
 */
module RunBounds {
  import opened Prelude
  import opened Digraph
  import opened PlanGraphs
  import opened Planner
  import opened Replan
  import opened ExecutorModel
  import opened RunInvariant
  import Workspaces

  // ---- Termination ---------------------------------------------------------------------

  function RepairsLeft(cfg: Config, r: Run): nat {
    if r.repairs < cfg.maxRepairs then cfg.maxRepairs - r.repairs else 0
  }

  function RevisionsLeft(r: Run): nat {
    if REFACTOR in Ids(r.plan.nodes) then 0 else 1
  }

  function Undone(r: Run): nat {
    |IdSet(r.plan) - r.completed|
  }

  function PhaseRank(r: Run): nat {
    match r.phase
    case Idle => 2
    case Running(_) => 1
    case Finished(_) => 0
  }

  function Allowed(spec: NodeSpec): nat {
    if Attempts(spec) > 0 then Attempts(spec) else 0
  }

  /** Suspension points a node can still pass through. */
  function FlightRank(spec: NodeSpec, f: Flight): nat {
    match f
    case Pending => 2 * Allowed(spec) + 2
    case Approving => 2 * Allowed(spec) + 1
    case Sleeping(attempt, _, _, _) => if attempt <= Attempts(spec) then 2 * (Attempts(spec) - attempt) + 2 else 0
    case Dispatching(attempt, _, _, _) => if attempt <= Attempts(spec) then 2 * (Attempts(spec) - attempt) + 1 else 0
    case Done(_) => 0
  }

  function FlightsLeft(specs: seq<NodeSpec>, flights: map<NodeId, Flight>): nat {
    if specs == [] then 0
    else (if specs[0].id in flights then FlightRank(specs[0], flights[specs[0].id]) else 0) + FlightsLeft(specs[1..], flights)
  }

  function BatchLeft(r: Run): nat {
    if r.phase.Running? then FlightsLeft(r.phase.batch.specs, r.phase.batch.flights) else 0
  }

  /** Smaller in (repairs left, revisions left, uncompleted nodes, phase, suspension points left). */
  ghost predicate Less(cfg: Config, a: Run, b: Run) {
    if RepairsLeft(cfg, a) != RepairsLeft(cfg, b) then RepairsLeft(cfg, a) < RepairsLeft(cfg, b)
    else if RevisionsLeft(a) != RevisionsLeft(b) then RevisionsLeft(a) < RevisionsLeft(b)
    else if Undone(a) != Undone(b) then Undone(a) < Undone(b)
    else if PhaseRank(a) != PhaseRank(b) then PhaseRank(a) < PhaseRank(b)
    else BatchLeft(a) < BatchLeft(b)
  }

  /** Attempt numbers stay within the node's retry budget. */
  ghost predicate Paced(spec: NodeSpec, f: Flight) {
    match f
    case Sleeping(attempt, _, _, _) => 1 <= attempt <= Attempts(spec)
    case Dispatching(attempt, _, _, _) => 1 <= attempt <= Attempts(spec)
    case _ => true
  }

  ghost predicate AllPaced(r: Run) {
    r.phase.Running? ==>
      && Distinct(Ids(r.phase.batch.specs))
      && forall s :: s in r.phase.batch.specs ==> s.id in r.phase.batch.flights && Paced(s, r.phase.batch.flights[s.id])
  }

  lemma NextRank(c: Ctx, spec: NodeSpec, attempt: int, snap: Option<Workspaces.Files>,
                 written: set<Workspaces.Path>, rolledBack: bool)
    requires 1 <= attempt <= Attempts(spec)
    ensures var f := NextAttempt(c, spec, attempt, snap, written, rolledBack).flight;
      Paced(spec, f) && FlightRank(spec, f) < 2 * (Attempts(spec) - attempt) + 1
  {
  }

  /** Every turn brings a node closer to its end, within its retry budget. */
  lemma TurnRank(cfg: Config, c: Ctx, spec: NodeSpec, f: Flight, o: Oracle)
    requires !f.Done? && Paced(spec, f)
    ensures var f' := Resume(cfg, c, spec, f, o).flight;
      Paced(spec, f') && FlightRank(spec, f') < FlightRank(spec, f)
  {
    if f.Dispatching? {
      NextRank(c, spec, f.attempt, f.snap, f.written, f.rolledBack);
    }
  }

  lemma {:induction false} FlightsDrop(specs: seq<NodeSpec>, flights: map<NodeId, Flight>, spec: NodeSpec, f: Flight)
    requires Distinct(Ids(specs)) && spec.id in flights
    requires FlightRank(spec, f) < FlightRank(spec, flights[spec.id])
    ensures spec in specs ==> FlightsLeft(specs, flights[spec.id := f]) < FlightsLeft(specs, flights)
    ensures spec.id !in Ids(specs) ==> FlightsLeft(specs, flights[spec.id := f]) == FlightsLeft(specs, flights)
  {
    if specs != [] {
      HeadOrTail(specs, spec);
      FlightsDrop(specs[1..], flights, spec, f);
    }
  }

  lemma HeadOrTail(specs: seq<NodeSpec>, spec: NodeSpec)
    requires Distinct(Ids(specs)) && specs != []
    ensures Distinct(Ids(specs[1..]))
    ensures spec.id !in Ids(specs) ==> spec.id != specs[0].id && spec.id !in Ids(specs[1..])
    ensures spec == specs[0] ==> spec.id !in Ids(specs[1..])
    ensures spec in specs && spec != specs[0] ==> spec in specs[1..] && spec.id != specs[0].id
  {
    DropFirst(specs);
    IdsHead(specs);
    DistinctTail(Ids(specs));
    assert specs == [specs[0]] + specs[1..];
  }

  lemma IdsHead(specs: seq<NodeSpec>)
    requires specs != []
    ensures Ids(specs) == [specs[0].id] + Ids(specs[1..])
    ensures Ids(specs)[1..] == Ids(specs[1..])
    ensures forall n :: n in Ids(specs) <==> n == specs[0].id || n in Ids(specs[1..])
  {
    assert Ids(specs) == [specs[0].id] + Ids(specs[1..]);
  }

  lemma ResumeLess(cfg: Config, r: Run, spec: NodeSpec, o: Oracle)
    requires r.phase.Running? && AllPaced(r) && CanStep(r.phase.batch, spec)
    ensures var r' := r.(phase := Running(StepBatch(cfg, r.phase.batch, spec, o))); Less(cfg, r', r) && AllPaced(r')
  {
    var b := r.phase.batch;
    TurnRank(cfg, b.ctx, spec, b.flights[spec.id], o);
    FlightsDrop(b.specs, b.flights, spec, Resume(cfg, b.ctx, spec, b.flights[spec.id], o).flight);
    forall s | s in b.specs && s.id == spec.id
      ensures s == spec
    {
      SameId(b.specs, s, spec);
    }
  }

  lemma SameId(specs: seq<NodeSpec>, s: NodeSpec, t: NodeSpec)
    requires Distinct(Ids(specs)) && s in specs && t in specs && s.id == t.id
    ensures s == t
  {
    var i :| 0 <= i < |specs| && specs[i] == s;
    var j :| 0 <= j < |specs| && specs[j] == t;
    assert Ids(specs)[i] == Ids(specs)[j];
  }

  /** A settled batch has either spent a repair, or only added completed nodes: all of it, if the run goes on. */
  lemma {:induction false} SettleProgress(cfg: Config, r: Run, specs: seq<NodeSpec>, flights: map<NodeId, Flight>)
    requires forall s :: s in specs ==> s.id in flights && flights[s.id].Done?
    requires r.phase.Idle?
    ensures var r' := Settle(cfg, r, specs, flights);
      && !r'.phase.Running? && r'.plan == r.plan
      && (r'.repairs == r.repairs || r.repairs < r'.repairs <= cfg.maxRepairs)
      && (r'.repairs == r.repairs ==> r.completed <= r'.completed)
      && (r'.repairs == r.repairs && r'.phase.Idle? ==> r'.completed == r.completed + ToSet(Ids(specs)))
    decreases specs
  {
    if specs != [] {
      var id, outcome, rest := specs[0].id, flights[specs[0].id].result, specs[1..];
      var r1 := r.(results := r.results[id := outcome]);
      assert Ids(specs) == [id] + Ids(rest);
      if outcome.state == COMPLETED {
        SettleProgress(cfg, r1.(completed := r.completed + {id}), rest, flights);
      } else if outcome.state != INPUT_REQUIRED && CanRepair(cfg, r1, id, outcome) {
        SettleProgress(cfg, Repaired(r1), rest, flights);
      }
    }
  }

  lemma UndoneShrinks(all: set<NodeId>, small: set<NodeId>, big: set<NodeId>)
    requires small <= big
    ensures |all - big| <= |all - small|
    ensures (exists n :: n in all && n in big && n !in small) ==> |all - big| < |all - small|
  {
    SubsetCard(all - big, all - small);
    if n :| n in all && n in big && n !in small {
      assert n in all - small && n !in all - big;
    }
  }

  lemma ReplannedSpends(cfg: Config, r: Run)
    requires !r.phase.Running?
    ensures var r' := Replanned(cfg, r);
      r' == r || (RevisionsLeft(r') < RevisionsLeft(r) && r'.repairs == r.repairs && !r'.phase.Running?)
  {
    var w := WantsRevision(cfg, r);
    if w.Some? {
      assert w.value.nodes[|w.value.nodes| - 1] == SEAM;
      assert Ids(w.value.nodes)[|w.value.nodes| - 1] == REFACTOR;
    }
  }

  lemma SettledSpends(cfg: Config, r: Run, r1: Run)
    requires r.phase.Running? && Sane(r) && AllDone(r.phase.batch)
    requires forall s :: s in r.phase.batch.specs ==> s.id in r.phase.batch.flights
    requires var b := r.phase.batch; r1 == Settle(cfg, r.(ctx := b.ctx, phase := Idle), b.specs, b.flights)
    ensures !r1.phase.Running? && r1.plan == r.plan
    ensures r1.repairs == r.repairs || r.repairs < r1.repairs <= cfg.maxRepairs
    ensures r1.repairs == r.repairs ==> Undone(r1) <= Undone(r)
    ensures r1.repairs == r.repairs && r1.phase.Idle? ==> Undone(r1) < Undone(r)
  {
    var b := r.phase.batch;
    SettleProgress(cfg, r.(ctx := b.ctx, phase := Idle), b.specs, b.flights);
    FirstNew(r);
    if r1.repairs == r.repairs {
      UndoneStep(r, r1, b.specs[0].id);
    }
  }

  lemma SettledLess(cfg: Config, r: Run, r1: Run)
    requires r.phase.Running? && !r1.phase.Running? && r1.plan == r.plan
    requires r1.repairs == r.repairs || r.repairs < r1.repairs <= cfg.maxRepairs
    requires r1.repairs == r.repairs ==> Undone(r1) <= Undone(r)
    requires r1.repairs == r.repairs && r1.phase.Idle? ==> Undone(r1) < Undone(r)
    ensures Less(cfg, r1, r) && RepairsLeft(cfg, r1) <= RepairsLeft(cfg, r)
  {
  }

  lemma UndoneStep(r: Run, r1: Run, n: NodeId)
    requires r1.plan == r.plan && r.completed <= r1.completed
    requires n in IdSet(r.plan) && n !in r.completed
    ensures Undone(r1) <= Undone(r) && (n in r1.completed ==> Undone(r1) < Undone(r))
  {
    UndoneShrinks(IdSet(r.plan), r.completed, r1.completed);
  }

  lemma FirstNew(r: Run)
    requires r.phase.Running? && Sane(r)
    ensures var id := r.phase.batch.specs[0].id;
      id in IdSet(r.plan) && id !in r.completed && id in ToSet(Ids(r.phase.batch.specs))
  {
    ReadySpec(r, r.phase.batch.specs[0]);
    IdOf(r.phase.batch.specs, r.phase.batch.specs[0]);
  }

  lemma EndLess(cfg: Config, r: Run)
    requires r.phase.Running? && Sane(r) && AllDone(r.phase.batch)
    requires forall s :: s in r.phase.batch.specs ==> s.id in r.phase.batch.flights
    ensures Less(cfg, EndRound(cfg, r), r) && !EndRound(cfg, r).phase.Running?
  {
    var b := r.phase.batch;
    var r1 := Settle(cfg, r.(ctx := b.ctx, phase := Idle), b.specs, b.flights);
    SettledSpends(cfg, r, r1);
    SettledLess(cfg, r, r1);
    ReplannedSpends(cfg, r1);
  }

  /** Every step of a run decreases the measure. */
  lemma StepDecreases(cfg: Config, r: Run, r': Run)
    requires Sane(r) && AllPaced(r) && Step(cfg, r, r')
    ensures Less(cfg, r', r) && AllPaced(r')
  {
    match r.phase {
      case Idle =>
        var stop :| r' == BeginRound(r, stop);
        if r'.phase.Running? {
          BeginPaced(r);
        }
      case Running(b) =>
        if spec, o :| CanStep(b, spec) && r' == r.(phase := Running(StepBatch(cfg, b, spec, o))) {
          ResumeLess(cfg, r, spec, o);
        } else {
          EndLess(cfg, r);
        }
      case Finished(_) =>
    }
  }

  lemma BeginPaced(r: Run)
    requires Accepted(r.plan)
    ensures AllPaced(r.(phase := Running(StartBatch(ReadySpecs(r), r.ctx))))
  {
    ReadyDistinct(r);
    forall s | s in ReadySpecs(r)
      ensures s.id in Ids(ReadySpecs(r))
    {
      IdOf(ReadySpecs(r), s);
    }
  }

  /** No run goes on for ever: an endless sequence of states has a place where it is not a step. */
  lemma NoEndlessRun(cfg: Config, plan: Plan, files: Workspaces.Files, f: nat -> Run)
    requires Accepted(plan) && cfg.ancestors == AncestorMap(plan) && f(0) == Launch(plan, files)
    ensures exists i: nat :: !Step(cfg, f(i), f(i + 1))
  {
    if forall i: nat :: Step(cfg, f(i), f(i + 1)) {
      Endless(cfg, f, 0);
    }
  }

  lemma {:induction false} Endless(cfg: Config, f: nat -> Run, i: nat)
    requires forall k: nat :: Step(cfg, f(k), f(k + 1))
    requires Sane(f(i)) && AllPaced(f(i)) && f(i).revisions >= 0
    ensures false
    decreases RepairsLeft(cfg, f(i)), RevisionsLeft(f(i)), Undone(f(i)), PhaseRank(f(i)), BatchLeft(f(i))
  {
    Onward(cfg, f(i), f(i + 1));
    Endless(cfg, f, i + 1);
  }

  lemma Onward(cfg: Config, r: Run, r': Run)
    requires Sane(r) && AllPaced(r) && r.revisions >= 0 && Step(cfg, r, r')
    ensures Less(cfg, r', r) && AllPaced(r') && Sane(r') && r'.revisions >= 0
  {
    StepSane(cfg, r, r');
    StepDecreases(cfg, r, r');
  }
}
