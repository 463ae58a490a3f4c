/** When exactly a failed attempt leaves no trace, and when it does. */
module RollbackLimits {
  import opened Prelude
  import opened Digraph
  import opened PlanGraphs
  import opened Planner
  import opened Workspaces
  import opened SafePaths
  import opened ExecutorModel
  import opened Isolation

  /** What gets written before an unsafe path stops the writing. */
  function SafePrefix(artifacts: seq<Artifact>): (r: seq<Artifact>)
    ensures AllSafe(r)
    ensures AllSafe(artifacts) ==> r == artifacts
  {
    if artifacts == [] || Unsafe(artifacts[0]) then []
    else
      assert artifacts[0] in artifacts;
      [artifacts[0]] + SafePrefix(artifacts[1..])
  }

  lemma {:induction false} PersistPrefix(cfg: Config, c: Ctx, node: NodeId, artifacts: seq<Artifact>)
    ensures Persist(cfg, c, node, artifacts).files == c.files + Final(SafePrefix(artifacts))
    decreases artifacts
  {
    if artifacts == [] {
      assert c.files + map[] == c.files;
    } else if Unsafe(artifacts[0]) {
      assert c.files + map[] == c.files;
      CheckTouchesNeither(cfg, c, node, artifacts[0].raw);
    } else {
      var a, rest := artifacts[0], artifacts[1..];
      var c' := PersistOne(cfg, c, node, a);
      PersistPrefix(cfg, c', node, rest);
      PersistOneOverlays(cfg, c, node, a);
      OverlayAssoc(c.files, FinalOne(a), Final(SafePrefix(rest)));
      assert SafePrefix(artifacts)[1..] == SafePrefix(rest);
    }
  }

  lemma SameFiles(a: Files, b: Files)
    requires forall p :: Look(a, p) == Look(b, p)
    ensures a == b
  {
    forall p
      ensures p in a <==> p in b
      ensures p in a ==> a[p] == b[p]
    {
      assert Look(a, p) == Look(b, p);
    }
  }

  lemma RestoredSame(files: Files, kept: Files, snap: Files, written: set<Path>)
    requires kept.Keys <= written
    ensures RestoredPaths(files + kept, snap, written) == files <==>
      forall p :: p in written ==> Look(snap, p) == Look(files, p)
  {
    var after := RestoredPaths(files + kept, snap, written);
    forall p
      ensures Look(after, p) == if p in written then Look(snap, p) else Look(files, p)
    {
      RestoredLook(files + kept, snap, written, p);
    }
    if forall p :: p in written ==> Look(snap, p) == Look(files, p) {
      SameFiles(after, files);
    }
  }

  lemma OverlaySame(files: Files, kept: Files)
    ensures files + kept == files <==> forall p :: p in kept ==> Look(files, p) == Some(kept[p])
  {
    if forall p :: p in kept ==> Look(files, p) == Some(kept[p]) {
      SameFiles(files + kept, files);
    } else {
      var p :| p in kept && Look(files, p) != Some(kept[p]);
      assert (files + kept)[p] == kept[p];
    }
  }

  lemma NextKeepsFiles(c: Ctx, spec: NodeSpec, attempt: int, snap: Option<Files>, written: set<Path>, rolledBack: bool)
    requires snap.None? || rolledBack
    ensures NextAttempt(c, spec, attempt, snap, written, rolledBack).ctx.files == c.files
  {
  }

  /**
   A denied attempt is undone completely exactly when, for every path the node has
   written so far, the snapshot still says what the workspace held before the attempt.
   */
  lemma DeniedLeavesNoTrace(cfg: Config, c: Ctx, spec: NodeSpec, f: Flight, o: Oracle)
    requires f.Dispatching? && f.snap.Some?
    requires o.outcome.Produced? && AllSafe(o.outcome.artifacts) && !o.outcome.allowed
    ensures Resume(cfg, c, spec, f, o).ctx.files == c.files <==>
      forall p :: p in f.written + PathsOf(o.outcome.artifacts) ==> Look(f.snap.value, p) == Look(c.files, p)
  {
    var artifacts := o.outcome.artifacts;
    var written := f.written + PathsOf(artifacts);
    PersistOverlays(cfg, c, spec.id, artifacts);
    DeniedTurn(c, Persist(cfg, c, spec.id, artifacts), spec, f, Final(artifacts), written);
  }

  lemma DeniedTurn(c: Ctx, c': Ctx, spec: NodeSpec, f: Flight, kept: Files, written: set<Path>)
    requires f.Dispatching? && f.snap.Some? && c'.files == c.files + kept && kept.Keys <= written
    ensures var undone := c'.(files := RestoredPaths(c'.files, f.snap.value, written));
      NextAttempt(undone, spec, f.attempt, f.snap, written, true).ctx.files == c.files <==>
      forall p :: p in written ==> Look(f.snap.value, p) == Look(c.files, p)
  {
    var undone := c'.(files := RestoredPaths(c'.files, f.snap.value, written));
    NextKeepsFiles(undone, spec, f.attempt, f.snap, written, true);
    RestoredSame(c.files, kept, f.snap.value, written);
  }

  /**
   Without a snapshot, or when an unsafe path raises in the middle of persisting,
   what was written stays: no trace exactly when it rewrote what was there.
   */
  lemma UnrolledLeavesNoTrace(cfg: Config, c: Ctx, spec: NodeSpec, f: Flight, o: Oracle)
    requires f.Dispatching? && o.outcome.Produced?
    requires !AllSafe(o.outcome.artifacts) || (!o.outcome.allowed && f.snap.None?)
    ensures var kept := Final(SafePrefix(o.outcome.artifacts));
      Resume(cfg, c, spec, f, o).ctx.files == c.files <==>
      forall p :: p in kept ==> Look(c.files, p) == Some(kept[p])
  {
    var artifacts := o.outcome.artifacts;
    PersistPrefix(cfg, c, spec.id, artifacts);
    if AllSafe(artifacts) {
      NextKeepsFiles(Persist(cfg, c, spec.id, artifacts), spec, f.attempt, f.snap, f.written + PathsOf(artifacts), f.rolledBack);
    }
    OverlaySame(c.files, Final(SafePrefix(artifacts)));
  }

  /** A flight that can be rolled back and has not been yet has written nothing that is still there. */
  ghost predicate Tidy(f: Flight) {
    match f
    case Sleeping(_, snap, written, rolledBack) => snap.Some? && !rolledBack ==> written == {}
    case Dispatching(_, snap, written, rolledBack) => snap.Some? && !rolledBack ==> written == {}
    case _ => true
  }

  /**
   Every flight stays tidy, so a stage that fails to produce anything touches no
   file: the rollback after the last attempt never has anything left to undo.
   */
  lemma LastRollbackIsNoOp(cfg: Config, c: Ctx, spec: NodeSpec, f: Flight, o: Oracle)
    requires Tidy(f) && !f.Done?
    ensures Tidy(Resume(cfg, c, spec, f, o).flight)
    ensures (f.Dispatching? ==> !o.outcome.Produced?) ==> Resume(cfg, c, spec, f, o).ctx.files == c.files
  {
    match f {
      case Pending => NothingRestored(c.files, Snap(c.files));
      case Approving => NothingRestored(c.files, Snap(c.files));
      case Sleeping(_, snap, _, _) =>
      case Dispatching(_, snap, written, rolledBack) =>
        if snap.Some? {
          NothingRestored(c.files, snap.value);
        }
    }
  }

  // ---- Two nodes writing one path ------------------------------------------------

  function Writer(tag: nat): NodeSpec {
    NodeSpec(Other(tag), [], 0, false, true)
  }

  function Writes(raw: RawPath, content: string, allowed: bool): Oracle {
    Oracle(true, true, Produced([File(raw, content)], Evidence(false), allowed))
  }

  lemma OneFile(raw: RawPath, content: string)
    requires Resolve(raw) == Some(README)
    ensures Final([File(raw, content)]) == map[README := content]
    ensures PathsOf([File(raw, content)]) == {README}
    ensures AllSafe([File(raw, content)])
  {
    var a := File(raw, content);
    assert Lands(a) && Target(a) == README;
    assert [a][1..] == [];
    assert FinalOne(a) + map[] == FinalOne(a);
    assert a in [a];
  }

  const BLANK: Ctx := Ctx(map[], map[], map[], [])

  const HELD: Flight := Dispatching(1, Some(map[]), {}, false)

  const PAIR: seq<NodeSpec> := [Writer(1), Writer(2)]

  /** Both nodes of the pair are dispatched over an empty workspace. */
  function BothOut(): Batch {
    Batch(PAIR, Ctx(map[], map[], map[],
      [NodeStarted(Other(1)), Attempted(Other(1), 1), NodeStarted(Other(2)), Attempted(Other(2), 1)]),
      map[Other(1) := HELD, Other(2) := HELD])
  }

  lemma PairStarts(cfg: Config, o: Oracle)
    requires o.entryAllowed
    ensures var b0 := StartBatch(PAIR, BLANK);
      && CanStep(b0, Writer(1))
      && var b1 := StepBatch(cfg, b0, Writer(1), o);
         && CanStep(b1, Writer(2))
         && StepBatch(cfg, b1, Writer(2), o) == BothOut()
  {
    assert Ids(PAIR) == [Other(1), Other(2)];
    assert PAIR[0] == Writer(1) && PAIR[1] == Writer(2);
    var b0 := StartBatch(PAIR, BLANK);
    assert b0.flights == map[Other(1) := Pending, Other(2) := Pending];
    assert Snap(map[]) == map[];
    var b1 := StepBatch(cfg, b0, Writer(1), o);
    assert b1.ctx == Ctx(map[], map[], map[], [NodeStarted(Other(1)), Attempted(Other(1), 1)]);
    assert b1.flights == map[Other(1) := HELD, Other(2) := Pending];
    var b2 := StepBatch(cfg, b1, Writer(2), o);
    assert b2.flights == map[Other(1) := HELD, Other(2) := HELD];
    assert b2.ctx.trail == BothOut().ctx.trail;
  }

  // ---- What a failed node leaves behind ----------------------------------------------

  /** Denied without a snapshot: the node fails and its file stays. */
  lemma UnsnappedStays(cfg: Config, spec: NodeSpec, raw: RawPath)
    requires Resolve(raw) == Some(README) && spec == NodeSpec(Other(1), [], 0, false, false)
    ensures CanStep(StartBatch([spec], BLANK), spec)
    ensures var b := StepBatch(cfg, StartBatch([spec], BLANK), spec, Writes(raw, "draft", false));
      && CanStep(b, spec)
      && var b' := StepBatch(cfg, b, spec, Writes(raw, "draft", false));
         b'.flights[spec.id] == Done(NodeResult(FAILED, 1, [], false)) && b'.ctx.files == map[README := "draft"]
  {
    assert Ids([spec]) == [Other(1)];
    var b := StepBatch(cfg, StartBatch([spec], BLANK), spec, Writes(raw, "draft", false));
    var draft := [File(raw, "draft")];
    OneFile(raw, "draft");
    PersistOverlays(cfg, b.ctx, Other(1), draft);
    NextKeepsFiles(Persist(cfg, b.ctx, Other(1), draft), spec, 1, None, {} + PathsOf(draft), false);
    assert map[] + map[README := "draft"] == map[README := "draft"];
  }

  function DraftThenEscape(raw: RawPath, outside: RawPath): Oracle {
    Oracle(true, true, Produced([File(raw, "draft"), File(outside, "")], Evidence(false), true))
  }

  /** An unsafe path after a safe one: the node fails unrolled although it has a snapshot, and the first file stays. */
  lemma EscapeStays(cfg: Config, raw: RawPath, outside: RawPath)
    requires Resolve(raw) == Some(README) && Resolve(outside) == None
    ensures CanStep(BothOut(), Writer(1))
    ensures var b := StepBatch(cfg, BothOut(), Writer(1), DraftThenEscape(raw, outside));
      b.flights[Other(1)] == Done(NodeResult(FAILED, 1, [], false)) && b.ctx.files == map[README := "draft"]
  {
    var draft, bad := File(raw, "draft"), File(outside, "");
    OneFile(raw, "draft");
    assert PAIR[0] == Writer(1);
    assert !Unsafe(draft) by {
      assert draft in [draft];
    }
    PrefixOfTwo(draft, bad);
    PersistPrefix(cfg, BothOut().ctx, Other(1), [draft, bad]);
    assert map[] + map[README := "draft"] == map[README := "draft"];
  }

  lemma PrefixOfTwo(good: Artifact, bad: Artifact)
    requires !Unsafe(good) && Unsafe(bad)
    ensures SafePrefix([good, bad]) == [good] && !AllSafe([good, bad])
  {
    assert [good, bad][1..] == [bad] && bad in [good, bad];
    assert SafePrefix([bad]) == [];
  }

  lemma SecondCommits(cfg: Config, raw: RawPath)
    requires Resolve(raw) == Some(README)
    ensures CanStep(BothOut(), Writer(2))
    ensures var b := StepBatch(cfg, BothOut(), Writer(2), Writes(raw, "final", true));
      var final := [File(raw, "final")];
      && b.specs == PAIR && b.flights[Other(1)] == HELD
      && b.flights.Keys == {Other(1), Other(2)} && b.flights[Other(2)] == Done(NodeResult(COMPLETED, 1, final, false))
  {
    assert PAIR[1] == Writer(2);
    OneFile(raw, "final");
  }

  lemma FirstDenied(cfg: Config, b: Batch, raw: RawPath)
    requires Resolve(raw) == Some(README)
    requires b.specs == PAIR && Other(1) in b.flights && b.flights[Other(1)] == HELD
    ensures CanStep(b, Writer(1))
    ensures var b' := StepBatch(cfg, b, Writer(1), Writes(raw, "draft", false));
      && README !in b'.ctx.files && b'.specs == PAIR
      && forall n :: n != Other(1) && n in b.flights ==> n in b'.flights && b'.flights[n] == b.flights[n]
  {
    assert PAIR[0] == Writer(1);
    OneFile(raw, "draft");
    var draft := [File(raw, "draft")];
    PersistOverlays(cfg, b.ctx, Other(1), draft);
    var c' := Persist(cfg, b.ctx, Other(1), draft);
    NextKeepsFiles(c'.(files := RestoredPaths(c'.files, map[], {} + PathsOf(draft))), Writer(1), 1, Some(map[]), {} + PathsOf(draft), true);
    RestoredLook(c'.files, map[], {} + PathsOf(draft), README);
    assert Look(StepBatch(cfg, b, Writer(1), Writes(raw, "draft", false)).ctx.files, README) == None;
  }

  /** A committed write that is missing from the workspace breaks isolation. */
  lemma MissingCommit(b: Batch, final: seq<Artifact>)
    requires Other(2) in b.flights && b.flights[Other(2)] == Done(NodeResult(COMPLETED, 1, final, false))
    requires Final(final) == map[README := "final"] && README !in b.ctx.files
    ensures Committed(b.flights, Other(2)) && README in Commit(b.flights, Other(2)) && !Isolated(map[], b)
  {
    assert Commit(b.flights, Other(2)) == Final(final);
    assert README in Final(final);
    assert Look(b.ctx.files, README) == None;
  }

  /**
   Disjointness is needed: two nodes start, the second commits a file, the gate
   denies the first its own version of that file, and its rollback deletes the commit.
   */
  lemma SiblingCommitLost(cfg: Config, raw: RawPath)
    requires Resolve(raw) == Some(README)
    ensures var b := StepBatch(cfg, BothOut(), Writer(2), Writes(raw, "final", true));
      var b' := StepBatch(cfg, b, Writer(1), Writes(raw, "draft", false));
      && CanStep(BothOut(), Writer(2)) && CanStep(b, Writer(1))
      && Committed(b'.flights, Other(2)) && README in Commit(b'.flights, Other(2))
      && README !in b'.ctx.files && !Isolated(map[], b')
  {
    var b := StepBatch(cfg, BothOut(), Writer(2), Writes(raw, "final", true));
    SecondCommits(cfg, raw);
    FirstDenied(cfg, b, raw);
    OneFile(raw, "final");
    MissingCommit(StepBatch(cfg, b, Writer(1), Writes(raw, "draft", false)), [File(raw, "final")]);
  }
}
