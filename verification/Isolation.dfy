/** A batch leaves only the writes of completed nodes. */
module Isolation {
  import opened Prelude
  import opened Digraph
  import opened PlanGraphs
  import opened Workspaces
  import opened SafePaths
  import opened ExecutorModel

  function Look(files: Files, p: Path): Option<string> {
    if p in files then Some(files[p]) else None
  }

  function FinalOne(a: Artifact): Files {
    if Lands(a) then map[Target(a) := a.content] else map[]
  }

  /** What a stage's artifacts leave behind on their own; a later write of the same path wins. */
  function Final(artifacts: seq<Artifact>): (r: Files)
    ensures forall p :: p in r <==> p in PathsOf(artifacts)
  {
    if artifacts == [] then map[]
    else
      assert artifacts == [artifacts[0]] + artifacts[1..];
      FinalOne(artifacts[0]) + Final(artifacts[1..])
  }

  lemma OverlayAssoc(a: Files, b: Files, c: Files)
    ensures (a + b) + c == a + (b + c)
  {
  }

  lemma PersistOneOverlays(cfg: Config, c: Ctx, node: NodeId, a: Artifact)
    ensures PersistOne(cfg, c, node, a).files == c.files + FinalOne(a)
    ensures PersistOne(cfg, c, node, a).outputs == c.outputs
  {
    CheckTouchesNeither(cfg, c, node, if a.Inline? then RawPath("") else a.raw);
    if Lands(a) {
      PutIsOverlay(c.files, Target(a), a.content);
    } else {
      assert c.files + map[] == c.files;
    }
  }

  lemma CheckTouchesNeither(cfg: Config, c: Ctx, node: NodeId, raw: RawPath)
    ensures CheckConflict(cfg, c, node, raw).files == c.files
    ensures CheckConflict(cfg, c, node, raw).outputs == c.outputs
  {
  }

  lemma PutIsOverlay(files: Files, p: Path, content: string)
    ensures files[p := content] == files + map[p := content]
  {
  }

  /** Persisting safe artifacts overlays exactly what they leave behind. */
  lemma {:induction false} PersistOverlays(cfg: Config, c: Ctx, node: NodeId, artifacts: seq<Artifact>)
    requires AllSafe(artifacts)
    ensures Persist(cfg, c, node, artifacts).files == c.files + Final(artifacts)
    ensures Persist(cfg, c, node, artifacts).outputs == c.outputs
    decreases artifacts
  {
    if artifacts == [] {
      assert c.files + Final(artifacts) == c.files;
    } else {
      var a := artifacts[0];
      var c' := PersistOne(cfg, c, node, a);
      PersistOverlays(cfg, c', node, artifacts[1..]);
      PersistOneOverlays(cfg, c, node, a);
      OverlayAssoc(c.files, FinalOne(a), Final(artifacts[1..]));
    }
  }

  lemma RestoredLook(files: Files, snap: Files, paths: set<Path>, p: Path)
    ensures Look(RestoredPaths(files, snap, paths), p) == if p in paths then Look(snap, p) else Look(files, p)
  {
  }

  // ---- The claim ---------------------------------------------------------------

  predicate Committed(flights: map<NodeId, Flight>, n: NodeId) {
    n in flights && flights[n].Done? && flights[n].result.state == COMPLETED
  }

  /** What node n's completed stage left behind; nothing if it has not completed. */
  function Commit(flights: map<NodeId, Flight>, n: NodeId): Files {
    if Committed(flights, n) then Final(flights[n].result.artifacts) else map[]
  }

  /** The workspace is the base overlaid with the commits of exactly the completed nodes. */
  ghost predicate Isolated(base: Files, b: Batch) {
    && (forall n, p :: p in Commit(b.flights, n) ==> Look(b.ctx.files, p) == Some(Commit(b.flights, n)[p]))
    && (forall p :: (forall n :: p !in Commit(b.flights, n)) ==> Look(b.ctx.files, p) == Look(base, p))
  }

  /** Each node has its own visible paths, and a node that may write can be rolled back. */
  ghost predicate Disjoint(own: map<NodeId, set<Path>>, specs: seq<NodeSpec>) {
    && (forall m, n :: m in own && n in own && m != n ==> own[m] !! own[n])
    && (forall n, p :: n in own && p in own[n] ==> Visible(p))
    && (forall s :: s in specs ==> s.id in own && (own[s.id] != {} ==> s.rollback))
  }

  ghost predicate WritesOwn(own: map<NodeId, set<Path>>, spec: NodeSpec, o: Oracle) {
    spec.id in own && (o.outcome.Produced? ==> AllSafe(o.outcome.artifacts) && PathsOf(o.outcome.artifacts) <= own[spec.id])
  }

  datatype Move = Move(spec: NodeSpec, oracle: Oracle)

  /** One interleaving of a batch: after each move some node is at its next suspension point. */
  ghost predicate Interleaving(cfg: Config, specs: seq<NodeSpec>, c: Ctx, moves: seq<Move>, bs: seq<Batch>) {
    && |bs| == |moves| + 1
    && bs[0] == StartBatch(specs, c)
    && forall i :: 0 <= i < |moves| ==>
         CanStep(bs[i], moves[i].spec) && bs[i + 1] == StepBatch(cfg, bs[i], moves[i].spec, moves[i].oracle)
  }

  // ---- The invariant ---------------------------------------------------------------

  /** A suspended node remembers its own paths as they were when the batch started. */
  ghost predicate Remembers(base: Files, mine: set<Path>, f: Flight) {
    match f
    case Sleeping(_, snap, written, _) => SnapOk(base, mine, snap, written)
    case Dispatching(_, snap, written, _) => SnapOk(base, mine, snap, written)
    case Done(r) => r.state == COMPLETED ==> PathsOf(r.artifacts) <= mine
    case _ => true
  }

  ghost predicate SnapOk(base: Files, mine: set<Path>, snap: Option<Files>, written: set<Path>) {
    && written <= mine
    && (mine != {} ==> snap.Some?)
    && (snap.Some? ==> forall p :: p in mine ==> Look(snap.value, p) == Look(base, p))
  }

  function Expected(base: Files, f: Flight, p: Path): Option<string> {
    if f.Done? && f.result.state == COMPLETED && p in Final(f.result.artifacts)
    then Some(Final(f.result.artifacts)[p]) else Look(base, p)
  }

  ghost predicate OwnedAs(base: Files, mine: set<Path>, files: Files, f: Flight) {
    forall p :: p in mine ==> Look(files, p) == Expected(base, f, p)
  }

  ghost predicate Inv(own: map<NodeId, set<Path>>, base: Files, b: Batch) {
    && Disjoint(own, b.specs)
    && b.flights.Keys == ToSet(Ids(b.specs)) && b.flights.Keys <= own.Keys
    && (forall n :: n in b.flights ==> OwnedAs(base, own[n], b.ctx.files, b.flights[n]) && Remembers(base, own[n], b.flights[n]))
    && (forall p :: (forall n :: n in b.flights ==> p !in own[n]) ==> Look(b.ctx.files, p) == Look(base, p))
  }

  /** A turn of a node leaves every path it does not own alone. */
  lemma TurnFrame(cfg: Config, c: Ctx, spec: NodeSpec, f: Flight, o: Oracle, mine: set<Path>, base: Files, p: Path)
    requires Remembers(base, mine, f) && p !in mine
    requires o.outcome.Produced? ==> AllSafe(o.outcome.artifacts) && PathsOf(o.outcome.artifacts) <= mine
    ensures Look(Resume(cfg, c, spec, f, o).ctx.files, p) == Look(c.files, p)
  {
    if f.Dispatching? && o.outcome.Produced? {
      PersistOverlays(cfg, c, spec.id, o.outcome.artifacts);
    }
  }

  /** Moving on from a finished attempt is safe once the node's paths are as at batch start. */
  lemma NextOwn(c: Ctx, spec: NodeSpec, attempt: int, snap: Option<Files>, written: set<Path>, rolledBack: bool,
                mine: set<Path>, base: Files)
    requires SnapOk(base, mine, snap, written)
    requires forall p :: p in mine ==> Look(c.files, p) == Look(base, p)
    ensures var t := NextAttempt(c, spec, attempt, snap, written, rolledBack);
      OwnedAs(base, mine, t.ctx.files, t.flight) && Remembers(base, mine, t.flight)
  {
  }

  lemma EnterOwn(c: Ctx, spec: NodeSpec, entryAllowed: bool, mine: set<Path>, base: Files)
    requires mine != {} ==> spec.rollback
    requires forall p :: p in mine ==> Visible(p)
    requires forall p :: p in mine ==> Look(c.files, p) == Look(base, p)
    ensures var t := Enter(c, spec, entryAllowed);
      OwnedAs(base, mine, t.ctx.files, t.flight) && Remembers(base, mine, t.flight)
  {
  }

  lemma ProducedOwn(cfg: Config, c: Ctx, spec: NodeSpec, f: Flight, o: Outcome, mine: set<Path>, base: Files)
    requires f.Dispatching? && SnapOk(base, mine, f.snap, f.written)
    requires forall p :: p in mine ==> Look(c.files, p) == Look(base, p)
    requires o.Produced? && AllSafe(o.artifacts) && PathsOf(o.artifacts) <= mine
    ensures var t := AfterDispatch(cfg, c, spec, f, o);
      OwnedAs(base, mine, t.ctx.files, t.flight) && Remembers(base, mine, t.flight)
  {
    var c' := Persist(cfg, c, spec.id, o.artifacts);
    PersistOverlays(cfg, c, spec.id, o.artifacts);
    var written := f.written + PathsOf(o.artifacts);
    if !o.allowed {
      if f.snap.Some? {
        var undone := c'.(files := RestoredPaths(c'.files, f.snap.value, written));
        forall p | p in mine
          ensures Look(undone.files, p) == Look(base, p)
        {
          RestoredLook(c'.files, f.snap.value, written, p);
        }
        NextOwn(undone, spec, f.attempt, f.snap, written, true, mine, base);
      } else {
        NextOwn(c', spec, f.attempt, f.snap, written, f.rolledBack, mine, base);
      }
    }
  }

  /** A turn keeps the node's own paths as at batch start, or as its completed stage leaves them. */
  lemma TurnOwn(cfg: Config, c: Ctx, spec: NodeSpec, f: Flight, o: Oracle, mine: set<Path>, base: Files)
    requires !f.Done? && Remembers(base, mine, f) && OwnedAs(base, mine, c.files, f)
    requires mine != {} ==> spec.rollback
    requires forall p :: p in mine ==> Visible(p)
    requires o.outcome.Produced? ==> AllSafe(o.outcome.artifacts) && PathsOf(o.outcome.artifacts) <= mine
    ensures var t := Resume(cfg, c, spec, f, o);
      OwnedAs(base, mine, t.ctx.files, t.flight) && Remembers(base, mine, t.flight)
  {
    assert forall p :: p in mine ==> Look(c.files, p) == Look(base, p);
    match f {
      case Pending => EnterOwn(Emit(c, NodeStarted(spec.id)), spec, o.entryAllowed, mine, base);
      case Approving => EnterOwn(c, spec, o.entryAllowed, mine, base);
      case Sleeping(_, _, _, _) =>
      case Dispatching(attempt, snap, written, rolledBack) =>
        if o.outcome.Produced? {
          ProducedOwn(cfg, c, spec, f, o.outcome, mine, base);
        } else {
          NextOwn(c, spec, attempt, snap, written, rolledBack, mine, base);
        }
    }
  }

  lemma StepKeeps(cfg: Config, own: map<NodeId, set<Path>>, base: Files, b: Batch, spec: NodeSpec, o: Oracle)
    requires Inv(own, base, b) && CanStep(b, spec) && WritesOwn(own, spec, o)
    ensures Inv(own, base, StepBatch(cfg, b, spec, o))
  {
    var m := spec.id;
    var f, mine := b.flights[m], own[m];
    var t := Resume(cfg, b.ctx, spec, f, o);
    var b' := StepBatch(cfg, b, spec, o);
    TurnOwn(cfg, b.ctx, spec, f, o, mine, base);
    forall p | p !in mine
      ensures Look(t.ctx.files, p) == Look(b.ctx.files, p)
    {
      TurnFrame(cfg, b.ctx, spec, f, o, mine, base, p);
    }
    forall n | n in b'.flights
      ensures OwnedAs(base, own[n], b'.ctx.files, b'.flights[n]) && Remembers(base, own[n], b'.flights[n])
    {
      if n != m {
        assert OwnedAs(base, own[n], b.ctx.files, b.flights[n]);
        assert own[n] !! mine;
      }
    }
  }

  lemma InvIsolated(own: map<NodeId, set<Path>>, base: Files, b: Batch)
    requires Inv(own, base, b)
    ensures Isolated(base, b)
  {
    forall n, p | p in Commit(b.flights, n)
      ensures Look(b.ctx.files, p) == Some(Commit(b.flights, n)[p])
    {
      assert Remembers(base, own[n], b.flights[n]) && OwnedAs(base, own[n], b.ctx.files, b.flights[n]);
      assert p in own[n];
    }
    forall p | forall n :: p !in Commit(b.flights, n)
      ensures Look(b.ctx.files, p) == Look(base, p)
    {
      if n :| n in b.flights && p in own[n] {
        assert OwnedAs(base, own[n], b.ctx.files, b.flights[n]);
        assert p !in Commit(b.flights, n);
      }
    }
  }

  lemma InvStarts(own: map<NodeId, set<Path>>, specs: seq<NodeSpec>, c: Ctx)
    requires Disjoint(own, specs)
    ensures Inv(own, c.files, StartBatch(specs, c))
  {
    forall n | n in Ids(specs)
      ensures n in own
    {
      var i :| 0 <= i < |specs| && Ids(specs)[i] == n;
      assert specs[i] in specs;
    }
  }

  /**
   In every interleaving of a batch whose nodes write disjoint visible paths, at
   every suspension point the workspace is its state at batch start overlaid
   with the writes of exactly those nodes that have completed.
   */
  lemma {:induction false} RollbackIsolation(cfg: Config, specs: seq<NodeSpec>, c: Ctx, own: map<NodeId, set<Path>>,
                                             moves: seq<Move>, bs: seq<Batch>, i: nat)
    requires Interleaving(cfg, specs, c, moves, bs) && Disjoint(own, specs)
    requires forall k :: 0 <= k < |moves| ==> WritesOwn(own, moves[k].spec, moves[k].oracle)
    requires i < |bs|
    ensures Inv(own, c.files, bs[i]) && Isolated(c.files, bs[i])
  {
    if i == 0 {
      InvStarts(own, specs, c);
    } else {
      RollbackIsolation(cfg, specs, c, own, moves, bs, i - 1);
      StepKeeps(cfg, own, c.files, bs[i - 1], moves[i - 1].spec, moves[i - 1].oracle);
    }
    InvIsolated(own, c.files, bs[i]);
  }
}
