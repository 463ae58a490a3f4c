/** How a node gets in, and what comes of it. */
module NodeStories {
  import opened Prelude
  import opened Digraph
  import opened PlanGraphs
  import opened Planner
  import opened Workspaces
  import opened SafePaths
  import opened ExecutorModel
  import opened Isolation
  import opened RunInvariant
  import opened RunBounds
  import opened RollbackLimits

  // ---- What lets a node in --------------------------------------------------------

  /** The node stands at its gate: after the approval request if it needs one. */
  predicate AtGate(spec: NodeSpec, f: Flight) {
    f == if spec.needsApproval then Approving else Pending
  }

  predicate Passes(c: Ctx, spec: NodeSpec, o: Oracle) {
    && (spec.needsApproval ==> o.approved) && o.entryAllowed
    && forall d :: d in spec.dependsOn ==> d in c.outputs
  }

  predicate Admits(c: Ctx, spec: NodeSpec, f: Flight, o: Oracle) {
    AtGate(spec, f) && Passes(c, spec, o)
  }

  predicate Refuses(c: Ctx, spec: NodeSpec, f: Flight, o: Oracle) {
    AtGate(spec, f) && !Passes(c, spec, o)
  }

  /** One of the first i moves lets node n in. */
  ghost predicate Admitted(moves: seq<Move>, bs: seq<Batch>, n: NodeId, i: nat)
    requires i <= |moves| < |bs|
  {
    exists k :: 0 <= k < i && moves[k].spec.id == n && LetsIn(bs[k], moves[k])
  }

  ghost predicate Refused(moves: seq<Move>, bs: seq<Batch>, n: NodeId, i: nat)
    requires i <= |moves| < |bs|
  {
    exists k :: 0 <= k < i && moves[k].spec.id == n && TurnsAway(bs[k], moves[k])
  }

  predicate LetsIn(b: Batch, m: Move) {
    m.spec.id in b.flights && Admits(b.ctx, m.spec, b.flights[m.spec.id], m.oracle)
  }

  predicate TurnsAway(b: Batch, m: Move) {
    m.spec.id in b.flights && Refuses(b.ctx, m.spec, b.flights[m.spec.id], m.oracle)
  }

  // ---- What its stage answers -------------------------------------------------------

  predicate Awaits(b: Batch, n: NodeId) {
    n in b.flights && b.flights[n].Dispatching?
  }

  /** What the dispatches of node n came back with in the first i moves. */
  function Replies(moves: seq<Move>, bs: seq<Batch>, n: NodeId, i: nat): seq<Outcome>
    requires i <= |moves| < |bs|
  {
    if i == 0 then []
    else
      var before := Replies(moves, bs, n, i - 1);
      if moves[i - 1].spec.id == n && Awaits(bs[i - 1], n) then before + [moves[i - 1].oracle.outcome] else before
  }

  predicate Denied(o: Outcome) {
    o.Produced? && AllSafe(o.artifacts) && !o.allowed
  }

  predicate Retried(o: Outcome) {
    o.StageFailed? || Denied(o)
  }

  /** An exception: the dispatch raises, or a path is unsafe. */
  predicate Breaks(o: Outcome) {
    o.Raised? || (o.Produced? && !AllSafe(o.artifacts))
  }

  predicate AllRetried(replies: seq<Outcome>) {
    forall o :: o in replies ==> Retried(o)
  }

  predicate Undone(spec: NodeSpec, replies: seq<Outcome>) {
    spec.rollback && exists o :: o in replies && Denied(o)
  }

  function Touched(replies: seq<Outcome>): set<Path> {
    if replies == [] then {}
    else
      var o := replies[|replies| - 1];
      Touched(replies[..|replies| - 1]) + if o.Produced? then PathsOf(o.artifacts) else {}
  }

  /** The result of an admitted node: every answer but the last asks for another attempt. */
  ghost predicate Told(spec: NodeSpec, replies: seq<Outcome>, r: NodeResult) {
    if replies == [] then Attempts(spec) < 1 && r == NodeResult(FAILED, 1, [], spec.rollback)
    else
      var n := |replies|;
      var before, last := replies[..n - 1], replies[n - 1];
      && n <= Attempts(spec) && AllRetried(before)
      && if Breaks(last) then r == NodeResult(FAILED, 1, [], false)
         else if last.NeedsInput? then r == NodeResult(INPUT_REQUIRED, n, [], Undone(spec, before))
         else if Retried(last) then n == Attempts(spec) && r == NodeResult(FAILED, n, [], spec.rollback)
         else r == NodeResult(COMPLETED, n, last.artifacts, Undone(spec, before))
  }

  /** A node about to be tried again has a snapshot if it can be rolled back, and knows what it wrote. */
  ghost predicate Recalls(spec: NodeSpec, replies: seq<Outcome>, attempt: int, snap: Option<Files>, written: set<Path>, rolledBack: bool) {
    && attempt == |replies| + 1 <= Attempts(spec) && AllRetried(replies)
    && snap.Some? == spec.rollback && written == Touched(replies) && rolledBack == Undone(spec, replies)
  }

  ghost predicate Standing(spec: NodeSpec, f: Flight, admitted: bool, refused: bool, replies: seq<Outcome>) {
    match f
    case Pending => !admitted && !refused && replies == []
    case Approving => spec.needsApproval && !admitted && !refused && replies == []
    case Sleeping(k, snap, written, rolledBack) =>
      admitted && !refused && replies != [] && Recalls(spec, replies, k, snap, written, rolledBack)
    case Dispatching(k, snap, written, rolledBack) =>
      admitted && !refused && Recalls(spec, replies, k, snap, written, rolledBack)
    case Done(r) =>
      && admitted != refused
      && if refused then replies == [] && r == NodeResult(REJECTED, 1, [], false) else Told(spec, replies, r)
  }

  // ---- One turn ----------------------------------------------------------------------

  function Heard(f: Flight, replies: seq<Outcome>, o: Outcome): seq<Outcome> {
    if f.Dispatching? then replies + [o] else replies
  }

  lemma OneMore(spec: NodeSpec, replies: seq<Outcome>, o: Outcome)
    ensures (replies + [o])[..|replies|] == replies
    ensures Touched(replies + [o]) == Touched(replies) + if o.Produced? then PathsOf(o.artifacts) else {}
    ensures AllRetried(replies + [o]) <==> AllRetried(replies) && Retried(o)
    ensures Undone(spec, replies + [o]) <==> Undone(spec, replies) || (spec.rollback && Denied(o))
  {
    assert (replies + [o])[..|replies|] == replies;
    forall x
      ensures x in replies + [o] <==> x in replies || x == o
    {
    }
    if Undone(spec, replies) {
      var x :| x in replies && Denied(x);
      assert x in replies + [o];
    }
    if spec.rollback && Denied(o) {
      assert o in replies + [o];
    }
  }

  lemma NextStanding(c: Ctx, spec: NodeSpec, attempt: int, snap: Option<Files>, written: set<Path>, rolledBack: bool,
                     replies: seq<Outcome>, o: Outcome)
    requires attempt == |replies| + 1 <= Attempts(spec) && AllRetried(replies) && Retried(o)
    requires snap.Some? == spec.rollback && written == Touched(replies + [o]) && rolledBack == Undone(spec, replies + [o])
    ensures Standing(spec, NextAttempt(c, spec, attempt, snap, written, rolledBack).flight, true, false, replies + [o])
  {
    OneMore(spec, replies, o);
  }

  lemma EnterStanding(c: Ctx, spec: NodeSpec, f: Flight, o: Oracle)
    requires AtGate(spec, f) && (spec.needsApproval ==> o.approved)
    ensures Standing(spec, Enter(c, spec, o.entryAllowed).flight, Admits(c, spec, f, o), Refuses(c, spec, f, o), [])
  {
  }

  lemma ReplyStanding(cfg: Config, c: Ctx, spec: NodeSpec, f: Flight, o: Outcome, replies: seq<Outcome>)
    requires f.Dispatching? && Standing(spec, f, true, false, replies)
    ensures Standing(spec, AfterDispatch(cfg, c, spec, f, o).flight, true, false, replies + [o])
  {
    OneMore(spec, replies, o);
    if o.StageFailed? {
      NextStanding(c, spec, f.attempt, f.snap, f.written, f.rolledBack, replies, o);
    } else if Denied(o) {
      var c' := Persist(cfg, c, spec.id, o.artifacts);
      var written := f.written + PathsOf(o.artifacts);
      if f.snap.Some? {
        var undone := c'.(files := RestoredPaths(c'.files, f.snap.value, written));
        NextStanding(undone, spec, f.attempt, f.snap, written, true, replies, o);
      } else {
        NextStanding(c', spec, f.attempt, f.snap, written, f.rolledBack, replies, o);
      }
    }
  }

  lemma TurnStanding(cfg: Config, c: Ctx, spec: NodeSpec, f: Flight, o: Oracle, admitted: bool, refused: bool, replies: seq<Outcome>)
    requires !f.Done? && Standing(spec, f, admitted, refused, replies)
    ensures Standing(spec, Resume(cfg, c, spec, f, o).flight, admitted || Admits(c, spec, f, o),
                     refused || Refuses(c, spec, f, o), Heard(f, replies, o.outcome))
  {
    match f {
      case Pending =>
        if !spec.needsApproval {
          var c' := Emit(c, NodeStarted(spec.id));
          EnterStanding(c', spec, f, o);
          assert Passes(c', spec, o) == Passes(c, spec, o);
        }
      case Approving =>
        if o.approved {
          EnterStanding(c, spec, f, o);
        }
      case Sleeping(_, _, _, _) =>
      case Dispatching(_, _, _, _) => ReplyStanding(cfg, c, spec, f, o.outcome, replies);
    }
  }

  // ---- What it leaves in the trail --------------------------------------------------------

  predicate Own(e: Event, n: NodeId) {
    (e.NodeStarted? || e.Attempted? || e.Claimed? || e.NodeFinished?) && e.node == n
  }

  /** The entries of node n, conflicts aside. */
  function Diary(trail: seq<Event>, n: NodeId): seq<Event> {
    if trail == [] then []
    else Diary(trail[..|trail| - 1], n) + if Own(trail[|trail| - 1], n) then [trail[|trail| - 1]] else []
  }

  lemma DiaryEmit(trail: seq<Event>, e: Event, n: NodeId)
    ensures Diary(trail + [e], n) == if Own(e, n) then Diary(trail, n) + [e] else Diary(trail, n)
  {
    assert (trail + [e])[..|trail|] == trail;
  }

  /** The paths a reply's artifacts claim: all up to the first unsafe one. */
  function ClaimsOf(n: NodeId, artifacts: seq<Artifact>): seq<Event> {
    if artifacts == [] then []
    else if artifacts[0].Inline? then ClaimsOf(n, artifacts[1..])
    else [Claimed(n, artifacts[0].raw)] + if Unsafe(artifacts[0]) then [] else ClaimsOf(n, artifacts[1..])
  }

  /** Each attempt, and after it the paths its reply claims. */
  function Efforts(n: NodeId, replies: seq<Outcome>): seq<Event> {
    if replies == [] then []
    else
      var o := replies[|replies| - 1];
      Efforts(n, replies[..|replies| - 1]) + [Attempted(n, |replies|)] + if o.Produced? then ClaimsOf(n, o.artifacts) else []
  }

  /** An exception leaves no closing entry. */
  function Entries(n: NodeId, f: Flight, replies: seq<Outcome>): seq<Event> {
    match f
    case Pending => []
    case Approving => [NodeStarted(n)]
    case Sleeping(_, _, _, _) => [NodeStarted(n)] + Efforts(n, replies)
    case Dispatching(_, _, _, _) => [NodeStarted(n)] + Efforts(n, replies) + [Attempted(n, |replies| + 1)]
    case Done(r) =>
      var broken := replies != [] && Breaks(replies[|replies| - 1]);
      [NodeStarted(n)] + Efforts(n, replies) + (if broken then [] else [NodeFinished(n, r.state)])
  }

  lemma ClaimDiary(cfg: Config, c: Ctx, node: NodeId, raw: RawPath, n: NodeId)
    ensures Diary(CheckConflict(cfg, c, node, raw).trail, n) == Diary(c.trail, n) + if n == node then [Claimed(node, raw)] else []
  {
    if raw in c.owner {
      DiaryEmit(c.trail, Conflict(node, raw, c.owner[raw]), n);
      DiaryEmit(c.trail + [Conflict(node, raw, c.owner[raw])], Claimed(node, raw), n);
    }
    DiaryEmit(c.trail, Claimed(node, raw), n);
  }

  lemma {:induction false} PersistClaims(cfg: Config, c: Ctx, node: NodeId, artifacts: seq<Artifact>)
    ensures Diary(Persist(cfg, c, node, artifacts).trail, node) == Diary(c.trail, node) + ClaimsOf(node, artifacts)
    decreases artifacts
  {
    if artifacts != [] {
      var a, rest := artifacts[0], artifacts[1..];
      var c' := PersistOne(cfg, c, node, a);
      if a.File? {
        ClaimDiary(cfg, c, node, a.raw, node);
        assert Diary(c'.trail, node) == Diary(c.trail, node) + [Claimed(node, a.raw)];
      }
      if !Unsafe(a) {
        PersistClaims(cfg, c', node, rest);
        if a.File? {
          Regroup(Diary(c.trail, node), [Claimed(node, a.raw)], ClaimsOf(node, rest));
        }
      }
    }
  }

  lemma Regroup<T>(a: seq<T>, b: seq<T>, c: seq<T>)
    ensures a + b + c == a + (b + c)
  {
  }

  lemma {:induction false} PersistSilent(cfg: Config, c: Ctx, node: NodeId, artifacts: seq<Artifact>, n: NodeId)
    requires n != node
    ensures Diary(Persist(cfg, c, node, artifacts).trail, n) == Diary(c.trail, n)
    decreases artifacts
  {
    if artifacts != [] {
      var a := artifacts[0];
      if a.File? {
        ClaimDiary(cfg, c, node, a.raw, n);
      }
      if !Unsafe(a) {
        PersistSilent(cfg, PersistOne(cfg, c, node, a), node, artifacts[1..], n);
      }
    }
  }

  /** A turn adds nothing to another node's diary. */
  lemma OthersDiary(cfg: Config, c: Ctx, spec: NodeSpec, f: Flight, o: Oracle, n: NodeId)
    requires n != spec.id
    ensures Diary(Resume(cfg, c, spec, f, o).ctx.trail, n) == Diary(c.trail, n)
  {
    var t := Resume(cfg, c, spec, f, o);
    match f {
      case Pending =>
        DiaryEmit(c.trail, NodeStarted(spec.id), n);
        EnterDiary(Emit(c, NodeStarted(spec.id)), spec, o.entryAllowed, n);
      case Approving =>
        EnterDiary(c, spec, o.entryAllowed, n);
        FinishDiary(c, spec, NodeResult(REJECTED, 1, [], false), n);
      case Sleeping(attempt, _, _, _) => DiaryEmit(c.trail, Attempted(spec.id, attempt), n);
      case Dispatching(_, _, _, _) => ReplyDiary(cfg, c, spec, f, o.outcome, n);
      case Done(_) =>
    }
  }

  lemma FinishDiary(c: Ctx, spec: NodeSpec, r: NodeResult, n: NodeId)
    ensures Diary(Finish(c, spec, r).ctx.trail, n) == Diary(c.trail, n) + if n == spec.id then [NodeFinished(n, r.state)] else []
  {
    DiaryEmit(c.trail, NodeFinished(spec.id, r.state), n);
  }

  lemma EnterDiary(c: Ctx, spec: NodeSpec, entryAllowed: bool, n: NodeId)
    ensures var t := Enter(c, spec, entryAllowed);
      Diary(t.ctx.trail, n) == Diary(c.trail, n) +
        if n != spec.id then [] else if t.flight.Done? then [NodeFinished(n, t.flight.result.state)] else [Attempted(n, 1)]
  {
    var t := Enter(c, spec, entryAllowed);
    EnterTrail(c, spec, entryAllowed);
    DiaryEmit(c.trail, if t.flight.Done? then NodeFinished(spec.id, t.flight.result.state) else Attempted(spec.id, 1), n);
  }

  lemma EnterTrail(c: Ctx, spec: NodeSpec, entryAllowed: bool)
    ensures var t := Enter(c, spec, entryAllowed);
      t.ctx.trail == c.trail + [if t.flight.Done? then NodeFinished(spec.id, t.flight.result.state) else Attempted(spec.id, 1)]
  {
  }

  lemma NextDiary(c: Ctx, spec: NodeSpec, attempt: int, snap: Option<Files>, written: set<Path>, rolledBack: bool, n: NodeId)
    ensures var t := NextAttempt(c, spec, attempt, snap, written, rolledBack);
      Diary(t.ctx.trail, n) == Diary(c.trail, n) +
        if n == spec.id && t.flight.Done? then [NodeFinished(n, t.flight.result.state)] else []
  {
    FinishDiary(c, spec, NodeResult(FAILED, attempt, [], rolledBack), n);
  }

  lemma ProducedDiary(cfg: Config, c: Ctx, spec: NodeSpec, artifacts: seq<Artifact>, n: NodeId)
    ensures Diary(Persist(cfg, c, spec.id, artifacts).trail, n) ==
      Diary(c.trail, n) + if n == spec.id then ClaimsOf(n, artifacts) else []
  {
    if n == spec.id {
      PersistClaims(cfg, c, n, artifacts);
    } else {
      PersistSilent(cfg, c, spec.id, artifacts, n);
    }
  }

  /** What a reply claims, and the entry that closes the node if the reply does. */
  function Aftermath(n: NodeId, o: Outcome, f: Flight): seq<Event> {
    (if o.Produced? then ClaimsOf(n, o.artifacts) else []) +
    (if f.Done? && !Breaks(o) then [NodeFinished(n, f.result.state)] else [])
  }

  lemma ReplyDiary(cfg: Config, c: Ctx, spec: NodeSpec, f: Flight, o: Outcome, n: NodeId)
    requires f.Dispatching?
    ensures var t := AfterDispatch(cfg, c, spec, f, o);
      Diary(t.ctx.trail, n) == Diary(c.trail, n) + if n == spec.id then Aftermath(n, o, t.flight) else []
  {
    match o {
      case Raised =>
      case NeedsInput => FinishDiary(c, spec, NodeResult(INPUT_REQUIRED, f.attempt, [], f.rolledBack), n);
      case StageFailed => NextDiary(c, spec, f.attempt, f.snap, f.written, f.rolledBack, n);
      case Produced(artifacts, evidence, allowed) =>
        ProducedDiary(cfg, c, spec, artifacts, n);
        if AllSafe(artifacts) {
          SafeReplyDiary(cfg, c, Persist(cfg, c, spec.id, artifacts), spec, f, o, n);
        }
    }
  }

  lemma SafeReplyDiary(cfg: Config, c: Ctx, c': Ctx, spec: NodeSpec, f: Flight, o: Outcome, n: NodeId)
    requires f.Dispatching? && o.Produced? && AllSafe(o.artifacts) && c' == Persist(cfg, c, spec.id, o.artifacts)
    requires Diary(c'.trail, n) == Diary(c.trail, n) + if n == spec.id then ClaimsOf(n, o.artifacts) else []
    ensures var t := AfterDispatch(cfg, c, spec, f, o);
      Diary(t.ctx.trail, n) == Diary(c.trail, n) + if n == spec.id then Aftermath(n, o, t.flight) else []
  {
    var written := f.written + PathsOf(o.artifacts);
    var t := AfterDispatch(cfg, c, spec, f, o);
    if o.allowed {
      FinishDiary(c'.(outputs := c'.outputs[spec.id := o.evidence]), spec,
                  NodeResult(COMPLETED, f.attempt, o.artifacts, f.rolledBack), n);
    } else if f.snap.Some? {
      NextDiary(c'.(files := RestoredPaths(c'.files, f.snap.value, written)), spec, f.attempt, f.snap, written, true, n);
    } else {
      NextDiary(c', spec, f.attempt, f.snap, written, f.rolledBack, n);
    }
    if n == spec.id && t.flight.Done? {
      Regroup(Diary(c.trail, n), ClaimsOf(n, o.artifacts), [NodeFinished(n, t.flight.result.state)]);
    }
  }

  /** A turn extends the node's own diary as its story says. */
  lemma TurnDiary(cfg: Config, c: Ctx, spec: NodeSpec, f: Flight, o: Oracle, replies: seq<Outcome>, before: seq<Event>)
    requires !f.Done? && Diary(c.trail, spec.id) == before + Entries(spec.id, f, replies)
    requires f.Pending? || f.Approving? ==> replies == []
    requires f.Sleeping? ==> f.attempt == |replies| + 1
    ensures var t := Resume(cfg, c, spec, f, o);
      Diary(t.ctx.trail, spec.id) == before + Entries(spec.id, t.flight, Heard(f, replies, o.outcome))
  {
    match f {
      case Pending => StartDiary(cfg, c, spec, f, o, before);
      case Approving => ApprovalDiary(cfg, c, spec, f, o, before);
      case Sleeping(_, _, _, _) => WakeDiary(cfg, c, spec, f, o, replies, before);
      case Dispatching(_, _, _, _) => HeardDiary(cfg, c, spec, f, o.outcome, replies, before);
    }
  }

  lemma StartDiary(cfg: Config, c: Ctx, spec: NodeSpec, f: Flight, o: Oracle, before: seq<Event>)
    requires f.Pending? && Diary(c.trail, spec.id) == before
    ensures var t := Resume(cfg, c, spec, f, o);
      Diary(t.ctx.trail, spec.id) == before + Entries(spec.id, t.flight, [])
  {
    DiaryEmit(c.trail, NodeStarted(spec.id), spec.id);
    EnteredDiary(Emit(c, NodeStarted(spec.id)), spec, o.entryAllowed, before);
  }

  lemma ApprovalDiary(cfg: Config, c: Ctx, spec: NodeSpec, f: Flight, o: Oracle, before: seq<Event>)
    requires f.Approving? && Diary(c.trail, spec.id) == before + [NodeStarted(spec.id)]
    ensures var t := Resume(cfg, c, spec, f, o);
      Diary(t.ctx.trail, spec.id) == before + Entries(spec.id, t.flight, [])
  {
    EnteredDiary(c, spec, o.entryAllowed, before);
    FinishDiary(c, spec, NodeResult(REJECTED, 1, [], false), spec.id);
  }

  lemma WakeDiary(cfg: Config, c: Ctx, spec: NodeSpec, f: Flight, o: Oracle, replies: seq<Outcome>, before: seq<Event>)
    requires f.Sleeping? && f.attempt == |replies| + 1 && Diary(c.trail, spec.id) == before + Entries(spec.id, f, replies)
    ensures var t := Resume(cfg, c, spec, f, o);
      Diary(t.ctx.trail, spec.id) == before + Entries(spec.id, t.flight, replies)
  {
    DiaryEmit(c.trail, Attempted(spec.id, f.attempt), spec.id);
    Regroup(before, Entries(spec.id, f, replies), [Attempted(spec.id, f.attempt)]);
  }

  lemma EnteredDiary(c: Ctx, spec: NodeSpec, entryAllowed: bool, before: seq<Event>)
    requires Diary(c.trail, spec.id) == before + [NodeStarted(spec.id)]
    ensures var t := Enter(c, spec, entryAllowed);
      Diary(t.ctx.trail, spec.id) == before + Entries(spec.id, t.flight, [])
  {
    EnterDiary(c, spec, entryAllowed, spec.id);
    EnterEntries(c, spec, entryAllowed);
  }

  lemma HeardDiary(cfg: Config, c: Ctx, spec: NodeSpec, f: Flight, o: Outcome, replies: seq<Outcome>, before: seq<Event>)
    requires f.Dispatching? && Diary(c.trail, spec.id) == before + Entries(spec.id, f, replies)
    ensures var t := AfterDispatch(cfg, c, spec, f, o);
      Diary(t.ctx.trail, spec.id) == before + Entries(spec.id, t.flight, replies + [o])
  {
    var n := spec.id;
    var t := AfterDispatch(cfg, c, spec, f, o);
    ReplyDiary(cfg, c, spec, f, o, n);
    ReplyFlight(cfg, c, spec, f, o);
    ReplyEntries(n, f, t.flight, replies, o);
    Regroup(before, Entries(n, f, replies), Aftermath(n, o, t.flight));
  }

  lemma EnterEntries(c: Ctx, spec: NodeSpec, entryAllowed: bool)
    ensures var f := Enter(c, spec, entryAllowed).flight;
      Entries(spec.id, f, []) ==
        [NodeStarted(spec.id)] + [if f.Done? then NodeFinished(spec.id, f.result.state) else Attempted(spec.id, 1)]
  {
  }

  lemma ReplyFlight(cfg: Config, c: Ctx, spec: NodeSpec, f: Flight, o: Outcome)
    requires f.Dispatching?
    ensures var t := AfterDispatch(cfg, c, spec, f, o).flight; t.Sleeping? || t.Done?
    ensures Breaks(o) ==> AfterDispatch(cfg, c, spec, f, o).flight.Done?
  {
  }

  lemma ReplyEntries(n: NodeId, f: Flight, f': Flight, replies: seq<Outcome>, o: Outcome)
    requires f.Dispatching? && (f'.Sleeping? || f'.Done?)
    ensures Entries(n, f', replies + [o]) == Entries(n, f, replies) + Aftermath(n, o, f')
  {
    EffortsGrow(n, replies, o);
    assert (replies + [o])[|replies|] == o;
    var claims := if o.Produced? then ClaimsOf(n, o.artifacts) else [];
    var end := if f'.Done? && !Breaks(o) then [NodeFinished(n, f'.result.state)] else [];
    Regrouped([NodeStarted(n)], Efforts(n, replies), [Attempted(n, |replies| + 1)], claims, end);
    Closing(n, f', replies + [o], end);
  }

  lemma Closing(n: NodeId, f: Flight, replies: seq<Outcome>, end: seq<Event>)
    requires (f.Sleeping? && end == []) || (f.Done? && replies != [] &&
      end == if Breaks(replies[|replies| - 1]) then [] else [NodeFinished(n, f.result.state)])
    ensures Entries(n, f, replies) == [NodeStarted(n)] + Efforts(n, replies) + end
  {
  }

  lemma Regrouped<T>(a: seq<T>, b: seq<T>, c: seq<T>, d: seq<T>, e: seq<T>)
    ensures a + (b + c + d) + e == (a + b + c) + (d + e)
  {
  }

  lemma EffortsGrow(n: NodeId, replies: seq<Outcome>, o: Outcome)
    ensures Efforts(n, replies + [o]) ==
      Efforts(n, replies) + [Attempted(n, |replies| + 1)] + if o.Produced? then ClaimsOf(n, o.artifacts) else []
  {
    assert (replies + [o])[..|replies|] == replies;
  }

  // ---- Over a batch -----------------------------------------------------------------------

  /** A turn gives its node an output exactly when it completes, and no other node. */
  lemma TurnOutput(cfg: Config, c: Ctx, spec: NodeSpec, f: Flight, o: Oracle)
    requires !f.Done?
    ensures var t := Resume(cfg, c, spec, f, o);
      t.ctx.outputs ==
        if f.Dispatching? && o.outcome.Produced? && AllSafe(o.outcome.artifacts) && o.outcome.allowed
        then c.outputs[spec.id := o.outcome.evidence] else c.outputs
  {
    if f.Dispatching? && o.outcome.Produced? {
      PersistOutputs(cfg, c, spec.id, o.outcome.artifacts);
    }
  }

  function OutputOf(outputs: map<NodeId, Evidence>, n: NodeId): Option<Evidence> {
    if n in outputs then Some(outputs[n]) else None
  }

  /** A completed node's output is the evidence of its last reply; until then it has what it had. */
  function Yield(start: Option<Evidence>, f: Flight, replies: seq<Outcome>): Option<Evidence> {
    if f.Done? && f.result.state == COMPLETED && replies != [] && replies[|replies| - 1].Produced?
    then Some(replies[|replies| - 1].evidence) else start
  }

  /** Everything a batch says about node s, given how it got in and what its stage answered. */
  ghost predicate Lives(b: Batch, s: NodeSpec, start: Ctx, admitted: bool, refused: bool, replies: seq<Outcome>) {
    && s.id in b.flights
    && Standing(s, b.flights[s.id], admitted, refused, replies)
    && Diary(b.ctx.trail, s.id) == Diary(start.trail, s.id) + Entries(s.id, b.flights[s.id], replies)
    && OutputOf(b.ctx.outputs, s.id) == Yield(OutputOf(start.outputs, s.id), b.flights[s.id], replies)
  }

  lemma OwnMove(cfg: Config, b: Batch, s: NodeSpec, o: Oracle, start: Ctx, admitted: bool, refused: bool, replies: seq<Outcome>)
    requires CanStep(b, s) && Lives(b, s, start, admitted, refused, replies)
    ensures var f := b.flights[s.id];
      Lives(StepBatch(cfg, b, s, o), s, start, admitted || Admits(b.ctx, s, f, o), refused || Refuses(b.ctx, s, f, o),
            Heard(f, replies, o.outcome))
  {
    var f := b.flights[s.id];
    TurnStanding(cfg, b.ctx, s, f, o, admitted, refused, replies);
    TurnDiary(cfg, b.ctx, s, f, o, replies, Diary(start.trail, s.id));
    TurnOutput(cfg, b.ctx, s, f, o);
    MoveYield(cfg, b.ctx, s, f, o, OutputOf(start.outputs, s.id), replies);
  }

  lemma MoveYield(cfg: Config, c: Ctx, s: NodeSpec, f: Flight, o: Oracle, start: Option<Evidence>, replies: seq<Outcome>)
    requires !f.Done? && OutputOf(c.outputs, s.id) == Yield(start, f, replies)
    ensures var t := Resume(cfg, c, s, f, o);
      OutputOf(t.ctx.outputs, s.id) == Yield(start, t.flight, Heard(f, replies, o.outcome))
  {
    TurnOutput(cfg, c, s, f, o);
    if f.Dispatching? {
      assert (replies + [o.outcome])[|replies|] == o.outcome;
    }
  }

  lemma OthersMove(cfg: Config, b: Batch, m: NodeSpec, o: Oracle, s: NodeSpec, start: Ctx, admitted: bool, refused: bool,
                   replies: seq<Outcome>)
    requires CanStep(b, m) && m.id != s.id && Lives(b, s, start, admitted, refused, replies)
    ensures Lives(StepBatch(cfg, b, m, o), s, start, admitted, refused, replies)
  {
    OthersDiary(cfg, b.ctx, m, b.flights[m.id], o, s.id);
    TurnOutput(cfg, b.ctx, m, b.flights[m.id], o);
  }

  lemma AnyMove(cfg: Config, b: Batch, m: Move, s: NodeSpec, start: Ctx, admitted: bool, refused: bool, replies: seq<Outcome>)
    requires CanStep(b, m.spec) && (m.spec.id == s.id ==> m.spec == s) && Lives(b, s, start, admitted, refused, replies)
    ensures var own := m.spec.id == s.id;
      Lives(StepBatch(cfg, b, m.spec, m.oracle), s, start, admitted || (own && LetsIn(b, m)), refused || (own && TurnsAway(b, m)),
            if own && Awaits(b, s.id) then replies + [m.oracle.outcome] else replies)
  {
    if m.spec.id == s.id {
      OwnMove(cfg, b, s, m.oracle, start, admitted, refused, replies);
    } else {
      OthersMove(cfg, b, m.spec, m.oracle, s, start, admitted, refused, replies);
    }
  }

  lemma OneMoreAdmits(moves: seq<Move>, bs: seq<Batch>, n: NodeId, i: nat)
    requires i < |moves| < |bs|
    ensures Admitted(moves, bs, n, i + 1) <==> Admitted(moves, bs, n, i) || (moves[i].spec.id == n && LetsIn(bs[i], moves[i]))
  {
  }

  lemma OneMoreRefuses(moves: seq<Move>, bs: seq<Batch>, n: NodeId, i: nat)
    requires i < |moves| < |bs|
    ensures Refused(moves, bs, n, i + 1) <==> Refused(moves, bs, n, i) || (moves[i].spec.id == n && TurnsAway(bs[i], moves[i]))
  {
  }

  lemma {:induction false} SpecsStay(cfg: Config, specs: seq<NodeSpec>, c: Ctx, moves: seq<Move>, bs: seq<Batch>, i: nat)
    requires Interleaving(cfg, specs, c, moves, bs) && i < |bs|
    ensures bs[i].specs == specs
  {
    if i > 0 {
      SpecsStay(cfg, specs, c, moves, bs, i - 1);
    }
  }

  /**
   In every interleaving of a batch and at every point of it, where a node stands, its
   result, its entries in the trail and its output are what its own gate and its own
   stage's answers say, whatever the other nodes do.
   */
  lemma {:induction false} NodeStory(cfg: Config, specs: seq<NodeSpec>, c: Ctx, moves: seq<Move>, bs: seq<Batch>, s: NodeSpec, i: nat)
    requires Interleaving(cfg, specs, c, moves, bs) && Distinct(Ids(specs)) && s in specs && i < |bs|
    ensures Lives(bs[i], s, c, Admitted(moves, bs, s.id, i), Refused(moves, bs, s.id, i), Replies(moves, bs, s.id, i))
  {
    if i == 0 {
      IdOf(specs, s);
    } else {
      NodeStory(cfg, specs, c, moves, bs, s, i - 1);
      OneMoreAdmits(moves, bs, s.id, i - 1);
      OneMoreRefuses(moves, bs, s.id, i - 1);
      SpecsStay(cfg, specs, c, moves, bs, i - 1);
      if moves[i - 1].spec.id == s.id {
        SameId(specs, moves[i - 1].spec, s);
      }
      AnyMove(cfg, bs[i - 1], moves[i - 1], s, c, Admitted(moves, bs, s.id, i - 1), Refused(moves, bs, s.id, i - 1),
              Replies(moves, bs, s.id, i - 1));
    }
  }

  /**
   A node gets past its gate exactly when a move found it there with the approval it
   needs, an open entry gate and its inputs present, and it is REJECTED exactly when a
   move found it there without them; a rejected node was never dispatched and claimed nothing.
   */
  lemma GateDecides(cfg: Config, specs: seq<NodeSpec>, c: Ctx, moves: seq<Move>, bs: seq<Batch>, s: NodeSpec, i: nat)
    requires Interleaving(cfg, specs, c, moves, bs) && Distinct(Ids(specs)) && s in specs && i < |bs|
    ensures s.id in bs[i].flights
    ensures var f := bs[i].flights[s.id];
      && (f.Sleeping? || f.Dispatching? || (f.Done? && f.result.state != REJECTED) <==> Admitted(moves, bs, s.id, i))
      && (f.Done? && f.result.state == REJECTED <==> Refused(moves, bs, s.id, i))
      && (Refused(moves, bs, s.id, i) ==>
            && Replies(moves, bs, s.id, i) == [] && f.result == NodeResult(REJECTED, 1, [], false)
            && Diary(bs[i].ctx.trail, s.id) == Diary(c.trail, s.id) + [NodeStarted(s.id), NodeFinished(s.id, REJECTED)])
  {
    NodeStory(cfg, specs, c, moves, bs, s, i);
    var f := bs[i].flights[s.id];
    if Refused(moves, bs, s.id, i) {
      assert Entries(s.id, f, []) == [NodeStarted(s.id), NodeFinished(s.id, REJECTED)];
    }
  }

  /** Only a node whose dispatch comes back touches files, owners or outputs. */
  lemma OnlyRepliesWrite(cfg: Config, b: Batch, spec: NodeSpec, o: Oracle)
    requires CanStep(b, spec) && !b.flights[spec.id].Dispatching?
    ensures var c, c' := b.ctx, StepBatch(cfg, b, spec, o).ctx;
      c'.files == c.files && c'.owner == c.owner && c'.outputs == c.outputs
  {
    if b.flights[spec.id].Pending? {
      EnterWritesNothing(Emit(b.ctx, NodeStarted(spec.id)), spec, o.entryAllowed);
    } else if b.flights[spec.id].Approving? {
      EnterWritesNothing(b.ctx, spec, o.entryAllowed);
    }
  }

  lemma EnterWritesNothing(c: Ctx, spec: NodeSpec, entryAllowed: bool)
    ensures var c' := Enter(c, spec, entryAllowed).ctx;
      c'.files == c.files && c'.owner == c.owner && c'.outputs == c.outputs
  {
    NothingRestored(c.files, Snap(c.files));
  }

  predicate SnapsAs(b: Batch, m: Move, snap: Option<Files>) {
    LetsIn(b, m) && snap == Some(Snap(b.ctx.files))
  }

  /** A node that is past its gate and can be rolled back keeps the workspace as it was when it was let in. */
  lemma {:induction false} SnapshotAtGate(cfg: Config, specs: seq<NodeSpec>, c: Ctx, moves: seq<Move>, bs: seq<Batch>, s: NodeSpec, i: nat)
    requires Interleaving(cfg, specs, c, moves, bs) && Distinct(Ids(specs)) && s in specs && i < |bs|
    requires s.id in bs[i].flights && s.rollback && (bs[i].flights[s.id].Sleeping? || bs[i].flights[s.id].Dispatching?)
    ensures exists k :: 0 <= k < i && moves[k].spec.id == s.id && SnapsAs(bs[k], moves[k], bs[i].flights[s.id].snap)
  {
    NodeStory(cfg, specs, c, moves, bs, s, i);
    if i > 0 {
      var b, m := bs[i - 1], moves[i - 1];
      NodeStory(cfg, specs, c, moves, bs, s, i - 1);
      SpecsStay(cfg, specs, c, moves, bs, i - 1);
      if m.spec.id == s.id {
        SameId(specs, m.spec, s);
        TurnSnapshot(cfg, b.ctx, s, b.flights[s.id], m.oracle);
        assert SnapsAs(b, m, bs[i].flights[s.id].snap) || !AtGate(s, b.flights[s.id]);
      }
      if m.spec.id != s.id || b.flights[s.id].Sleeping? || b.flights[s.id].Dispatching? {
        SnapshotAtGate(cfg, specs, c, moves, bs, s, i - 1);
      }
    }
  }

  lemma TurnSnapshot(cfg: Config, c: Ctx, spec: NodeSpec, f: Flight, o: Oracle)
    requires !f.Done? && spec.rollback && (f.Approving? ==> spec.needsApproval)
    ensures var f' := Resume(cfg, c, spec, f, o).flight;
      f'.Sleeping? || f'.Dispatching? ==>
        if f.Sleeping? || f.Dispatching? then f'.snap == f.snap
        else Admits(c, spec, f, o) && f'.snap == Some(Snap(c.files))
  {
  }
}
