/** What settling a batch leaves in the books, in closed form. */
module Settlings {
  import opened Prelude
  import opened Digraph
  import opened PlanGraphs
  import opened Planner
  import opened Replan
  import opened ExecutorModel
  import opened RunInvariant
  import opened RunBounds

  function Result(flights: map<NodeId, Flight>, n: NodeId): NodeResult
    requires n in flights && flights[n].Done?
  {
    flights[n].result
  }

  ghost predicate Landed(specs: seq<NodeSpec>, flights: map<NodeId, Flight>) {
    Distinct(Ids(specs)) && forall s :: s in specs ==> s.id in flights && flights[s.id].Done?
  }

  /** The verification failed, the budget allows another repair, and there is an implementation to redo. */
  predicate RepairDue(cfg: Config, r: Run, specs: seq<NodeSpec>, flights: map<NodeId, Flight>, j: nat)
    requires j < |specs| && specs[j].id in flights && flights[specs[j].id].Done?
  {
    && specs[j].id == VERIFY && Result(flights, VERIFY).state == FAILED
    && r.repairs < cfg.maxRepairs
    && (IMPLEMENT in r.results || IMPLEMENT in Ids(specs[..j]))
  }

  predicate Harmless(cfg: Config, r: Run, specs: seq<NodeSpec>, flights: map<NodeId, Flight>, j: nat)
    requires j < |specs| && specs[j].id in flights && flights[specs[j].id].Done?
  {
    Result(flights, specs[j].id).state == COMPLETED || RepairDue(cfg, r, specs, flights, j)
  }

  /** The run goes on past the first k outcomes of the batch, and no further. */
  ghost predicate StopsAt(cfg: Config, r: Run, specs: seq<NodeSpec>, flights: map<NodeId, Flight>, k: nat)
    requires Landed(specs, flights)
  {
    && k <= |specs|
    && (forall j :: 0 <= j < k ==> Harmless(cfg, r, specs, flights, j))
    && (k < |specs| ==> !Harmless(cfg, r, specs, flights, k))
  }

  ghost predicate RepairedIn(cfg: Config, r: Run, specs: seq<NodeSpec>, flights: map<NodeId, Flight>, k: nat)
    requires Landed(specs, flights) && k <= |specs|
  {
    exists j :: 0 <= j < k && RepairDue(cfg, r, specs, flights, j)
  }

  /** What a repair takes out of the books. */
  ghost function Dropped(repaired: bool): set<NodeId> {
    if repaired then {IMPLEMENT, VERIFY} else {}
  }

  function ResultsOf(specs: seq<NodeSpec>, flights: map<NodeId, Flight>): map<NodeId, NodeResult>
    requires forall s :: s in specs ==> s.id in flights && flights[s.id].Done?
  {
    if specs == [] then map[]
    else ResultsOf(specs[..|specs| - 1], flights)[specs[|specs| - 1].id := flights[specs[|specs| - 1].id].result]
  }

  /** The books after the first j outcomes, when the run goes on past all of them. */
  ghost function BooksAfter(cfg: Config, r: Run, specs: seq<NodeSpec>, flights: map<NodeId, Flight>, j: nat): Run
    requires Landed(specs, flights) && j <= |specs|
  {
    var repaired := RepairedIn(cfg, r, specs, flights, j);
    r.(results := r.results + ResultsOf(specs[..j], flights) - Dropped(repaired),
       completed := r.completed + ToSet(Ids(specs[..j])) - Dropped(repaired),
       repairs := r.repairs + if repaired then 1 else 0,
       ctx := if repaired then Emit(r.ctx, RepairStarted) else r.ctx)
  }

  lemma {:induction false} ResultsOfAt(specs: seq<NodeSpec>, flights: map<NodeId, Flight>)
    requires forall s :: s in specs ==> s.id in flights && flights[s.id].Done?
    ensures forall n :: n in ResultsOf(specs, flights) <==> n in Ids(specs)
    ensures forall n :: n in Ids(specs) ==> n in flights && flights[n].Done? && ResultsOf(specs, flights)[n] == flights[n].result
  {
    if specs != [] {
      var k := |specs| - 1;
      ResultsOfAt(specs[..k], flights);
      assert Ids(specs) == Ids(specs[..k]) + [specs[k].id];
    }
  }

  /** None of the batch's nodes is in the books yet. */
  predicate Unrecorded(r: Run, specs: seq<NodeSpec>) {
    forall n :: n in Ids(specs) ==> n !in r.results && n !in r.completed
  }

  lemma TakeSpec(specs: seq<NodeSpec>, j: nat)
    requires Distinct(Ids(specs)) && j < |specs|
    ensures specs[..j + 1] == specs[..j] + [specs[j]] && Ids(specs[..j + 1]) == Ids(specs[..j]) + [specs[j].id]
    ensures specs[j].id !in Ids(specs[..j]) && specs[j].id in Ids(specs)
  {
    assert Ids(specs)[j] == specs[j].id;
    forall n | n in Ids(specs[..j])
      ensures n != specs[j].id
    {
      var i :| 0 <= i < j && Ids(specs[..j])[i] == n;
      assert Ids(specs)[i] == n;
    }
  }

  /** A repair is due for the one VERIFY of the batch only, and never after a node it drops. */
  lemma OneRepair(cfg: Config, r: Run, specs: seq<NodeSpec>, flights: map<NodeId, Flight>, j: nat)
    requires Landed(specs, flights) && Unrecorded(r, specs) && j < |specs|
    ensures RepairDue(cfg, r, specs, flights, j) ==> !RepairedIn(cfg, r, specs, flights, j)
    ensures RepairedIn(cfg, r, specs, flights, j) ==> specs[j].id !in Dropped(true)
    ensures RepairedIn(cfg, r, specs, flights, j + 1) <==>
      RepairedIn(cfg, r, specs, flights, j) || RepairDue(cfg, r, specs, flights, j)
  {
    if RepairedIn(cfg, r, specs, flights, j) {
      var v :| 0 <= v < j && RepairDue(cfg, r, specs, flights, v);
      assert Ids(specs)[v] == VERIFY && Ids(specs)[j] == specs[j].id;
    }
  }

  lemma CompletedStep(cfg: Config, r: Run, specs: seq<NodeSpec>, flights: map<NodeId, Flight>, j: nat)
    requires Landed(specs, flights) && Unrecorded(r, specs) && j < |specs|
    requires Result(flights, specs[j].id).state == COMPLETED
    ensures var a, id := BooksAfter(cfg, r, specs, flights, j), specs[j].id;
      BooksAfter(cfg, r, specs, flights, j + 1) ==
        a.(results := a.results[id := flights[id].result], completed := a.completed + {id})
  {
    TakeSpec(specs, j);
    OneRepair(cfg, r, specs, flights, j);
    var id, repaired := specs[j].id, RepairedIn(cfg, r, specs, flights, j);
    assert specs[..j + 1][..j] == specs[..j];
    Adding(r.results, ResultsOf(specs[..j], flights), Dropped(repaired), id, flights[id].result);
    AddingOne(r.completed, Ids(specs[..j]), Dropped(repaired), id);
  }

  lemma Adding<V>(a: map<NodeId, V>, b: map<NodeId, V>, gone: set<NodeId>, id: NodeId, v: V)
    requires id !in gone
    ensures a + b[id := v] - gone == (a + b - gone)[id := v]
  {
  }

  lemma AddingOne(a: set<NodeId>, ids: seq<NodeId>, gone: set<NodeId>, id: NodeId)
    requires id !in gone
    ensures a + ToSet(ids + [id]) - gone == a + ToSet(ids) - gone + {id}
  {
  }

  lemma RepairAllowed(cfg: Config, r: Run, specs: seq<NodeSpec>, flights: map<NodeId, Flight>, j: nat)
    requires Landed(specs, flights) && Unrecorded(r, specs) && j < |specs|
    ensures var a, id := BooksAfter(cfg, r, specs, flights, j), specs[j].id;
      CanRepair(cfg, a.(results := a.results[id := flights[id].result]), id, flights[id].result) <==>
        RepairDue(cfg, r, specs, flights, j)
  {
    ResultsOfAt(specs[..j], flights);
    OneRepair(cfg, r, specs, flights, j);
    TakeSpec(specs, j);
  }

  lemma RepairStep(cfg: Config, r: Run, specs: seq<NodeSpec>, flights: map<NodeId, Flight>, j: nat)
    requires Landed(specs, flights) && Unrecorded(r, specs) && j < |specs|
    requires RepairDue(cfg, r, specs, flights, j)
    ensures var a, id := BooksAfter(cfg, r, specs, flights, j), specs[j].id;
      BooksAfter(cfg, r, specs, flights, j + 1) == Repaired(a.(results := a.results[id := flights[id].result]))
  {
    TakeSpec(specs, j);
    OneRepair(cfg, r, specs, flights, j);
    var id := specs[j].id;
    assert specs[..j + 1][..j] == specs[..j];
    Dropping(r.results, ResultsOf(specs[..j], flights), Dropped(true), id, flights[id].result);
    DroppingOne(r.completed, Ids(specs[..j]), Dropped(true), id);
  }

  lemma Dropping<V>(a: map<NodeId, V>, b: map<NodeId, V>, gone: set<NodeId>, id: NodeId, v: V)
    requires id in gone
    ensures a + b[id := v] - gone == (a + b - {})[id := v] - gone
  {
  }

  lemma DroppingOne(a: set<NodeId>, ids: seq<NodeId>, gone: set<NodeId>, id: NodeId)
    requires id in gone
    ensures a + ToSet(ids + [id]) - gone == a + ToSet(ids) - {} - gone
  {
  }

  lemma BooksStep(cfg: Config, r: Run, specs: seq<NodeSpec>, flights: map<NodeId, Flight>, j: nat)
    requires Landed(specs, flights) && Unrecorded(r, specs) && j < |specs| && Harmless(cfg, r, specs, flights, j)
    ensures Settle(cfg, BooksAfter(cfg, r, specs, flights, j), specs[j..], flights) ==
      Settle(cfg, BooksAfter(cfg, r, specs, flights, j + 1), specs[j + 1..], flights)
  {
    assert specs[j..][0] == specs[j] && specs[j..][1..] == specs[j + 1..];
    if Result(flights, specs[j].id).state == COMPLETED {
      CompletedStep(cfg, r, specs, flights, j);
    } else {
      RepairAllowed(cfg, r, specs, flights, j);
      RepairStep(cfg, r, specs, flights, j);
    }
  }

  lemma {:induction false} BooksGrow(cfg: Config, r: Run, specs: seq<NodeSpec>, flights: map<NodeId, Flight>, k: nat)
    requires Landed(specs, flights) && Unrecorded(r, specs) && k <= |specs|
    requires forall j :: 0 <= j < k ==> Harmless(cfg, r, specs, flights, j)
    ensures Settle(cfg, r, specs, flights) == Settle(cfg, BooksAfter(cfg, r, specs, flights, k), specs[k..], flights)
  {
    if k == 0 {
      assert specs[0..] == specs && specs[..0] == [];
      assert BooksAfter(cfg, r, specs, flights, 0) == r by {
        assert r.results + map[] - {} == r.results;
        assert r.completed + {} - {} == r.completed;
      }
    } else {
      BooksGrow(cfg, r, specs, flights, k - 1);
      BooksStep(cfg, r, specs, flights, k - 1);
    }
  }

  /** Settling stops at the first outcome that is neither COMPLETED nor a verification to repair. */
  lemma SettlesTo(cfg: Config, r: Run, specs: seq<NodeSpec>, flights: map<NodeId, Flight>, k: nat)
    requires Landed(specs, flights) && Unrecorded(r, specs) && r.phase.Idle? && StopsAt(cfg, r, specs, flights, k)
    ensures var a := BooksAfter(cfg, r, specs, flights, k);
      Settle(cfg, r, specs, flights) ==
        if k == |specs| then a
        else a.(results := a.results[specs[k].id := flights[specs[k].id].result],
                phase := Finished(if flights[specs[k].id].result.state == INPUT_REQUIRED then RunNeedsInput else RunFailed))
  {
    BooksGrow(cfg, r, specs, flights, k);
    if k < |specs| {
      assert specs[k..][0] == specs[k];
      RepairAllowed(cfg, r, specs, flights, k);
    } else {
      assert specs[k..] == [];
    }
  }

  /** Every batch is settled up to some point. */
  lemma {:induction false} SomeStop(cfg: Config, r: Run, specs: seq<NodeSpec>, flights: map<NodeId, Flight>, from: nat)
    returns (k: nat)
    requires Landed(specs, flights) && from <= |specs| && forall j :: 0 <= j < from ==> Harmless(cfg, r, specs, flights, j)
    ensures StopsAt(cfg, r, specs, flights, k)
    decreases |specs| - from
  {
    if from < |specs| && Harmless(cfg, r, specs, flights, from) {
      k := SomeStop(cfg, r, specs, flights, from + 1);
    } else {
      k := from;
    }
  }
}
