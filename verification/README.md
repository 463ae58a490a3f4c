# keel, verified

A Dafny model of keel's hard core: the plan graph, the governed executor with
retry, repair, re-planning and rollback, the transactional workspace under it,
the planner's revisions, the audit log, the metrics, the JSON scanner, and the
three rate limiters and the IPv4 decoder of the demo services.

`dafny verify dfyconfig.toml` verifies the whole project.

## How it is built

Code that works by changing things is modelled by methods and classes with
loops, and each is proved against a specification function or relation; what
the code promises is then proved about those specifications, for every input,
every call sequence or every run.

| file | what it models |
| --- | --- |
| `Digraph.dfy`, `Prelude.dfy` | paths, reachability, acyclicity; sequences without repeats |
| `PlanGraph.dfy`, `BuildGraph.dfy`, `FindCycle.dfy`, `KahnLevels.dfy`, `CriticalPath.dfy`, `GraphQueries.dfy` | `keel/graph.py` |
| `Planner.dfy`, `BuiltPlan.dfy`, `Replan.dfy` | `keel/planner.py` |
| `Workspace.dfy`, `SafePaths.dfy`, `SpelledPaths.dfy` | `keel/workspace.py` as a flat map from canonical paths to contents, and the resolution of spelled paths to canonical ones |
| `ExecutorModel.dfy` | the executor as a step system: one step is what happens between two suspension points of one node, or one turn of the outer loop |
| `NodeStory.dfy` | what happens to a node of a batch, from its gate to its result, told from the answers it gets |
| `Isolation.dfy`, `RollbackLimits.dfy`, `RunFiles.dfy` | rollback under every interleaving of a batch, and the workspace along a run |
| `Settling.dfy`, `RunStory.dfy` | how rounds begin and end, what a run reports and why its nodes ran, told from the choices made along it |
| `RunInvariant.dfy`, `RunOrder.dfy`, `Races.dfy`, `Rounds.dfy`, `RunBounds.dfy`, `RunCounts.dfy` | whole runs |
| `WitnessRuns.dfy` | concrete runs in which a property fails |
| `Executor.dfy` | the executor as a class with mutable state; `Execute` is proved to pass only through states of a run of the step system |
| `SlidingWindow.dfy`, `LruWindow.dfy`, `FixedWindow.dfy` | the rate limiters |
| `RecencyLists.dfy`, `BucketEviction.dfy`, `LimiterRuns.dfy`, `RetryAdvice.dfy` | what the two sliding-window limiters keep, forget and advise over whole call sequences |
| `JsonSpan.dfy` | the scanner of `keel/adapters/base.py`, and renderings of JSON values |
| `LogText.dfy`, `AuditLog.dfy`, `AuditCheck.dfy`, `LogSeparators.dfy`, `LogCodec.dfy` | `keel/governance/audit.py`: the text of an event, the log as a text, what its checker reports, a payload that breaks it, and a JSON library that meets what is assumed of one |
| `Metrics.dfy`, `Figures.dfy` | `keel/governance/metrics.py`, and what its figures mean |
| `RelaxedIpv4.dfy`, `Ipv4Reject.dfy` | the IPv4 decoder of the greenfield demo |

In the executor, approvals, gate verdicts, dispatch outcomes (the pytest run
included), the scheduler's choice of the next node and stop requests are
arbitrary at every step. Clocks are arguments. Lists that the source sorts
before returning are sets here. Times and costs are reals.

## What does not hold as documented

Each property that fails is given with the exact condition under which it
holds, for all inputs, and with an input at which it fails; for repeated log
lines the reports are counted instead. The last item changes no result.

- Revision drops every dependency of `implement` other than `design`: old
  nodes keep their reachability exactly when what is upstream of `implement`
  was `design` and what is upstream of it (`Replan.RevisedReach`; not so in
  `Replan.RevisionForgets`). The revised plan is accepted exactly when `design`
  is in the plan and `implement` is not upstream of it
  (`Replan.RevisedAccepted`); otherwise the run raises
  (`RunInvariant.RaisesExactlyWhen`, `WitnessRuns.RevisionRaises`).
- A run that reports success has completed every node after its dependencies
  except in two cases: a revision came after `implement` had last completed, or
  a repair came after a node had last completed that waits for `implement` but
  neither is nor waits for `verify` (`RunOrder.SuccessOrderExactly`,
  `WitnessRuns.LateSeam`, `WitnessRuns.BypassedRepair`). Neither happens to a
  plan the planner builds (`RunOrder.BuiltSuccessInOrder`).
- The table of path owners is keyed by the path as spelled, while the
  workspace canonicalises: a race on a file is reported exactly when two
  unrelated nodes claimed one common spelling of it (`Races.FileRaceReported`,
  `WitnessRuns.SpellingHidesRace`).
- Canonical paths are resolved again when a tree is read or restored. The
  canonical spelling names its file exactly when no blank at its ends is
  stripped and it does not look like a drive (`SafePaths.CanonicalExactly`,
  `SafePaths.HiddenDrive`).
- A rollback is complete exactly when the snapshot still says what the
  workspace held before the attempt for every path written
  (`RollbackLimits.DeniedLeavesNoTrace`). Two nodes writing one path can
  lose a committed file (`RollbackLimits.SiblingCommitLost`). Without a
  snapshot, or after an unsafe path raised in the middle of persisting, what
  was written stays (`RollbackLimits.UnrolledLeavesNoTrace`,
  `RollbackLimits.UnsnappedStays`, `RollbackLimits.EscapeStays`).
- The audit log writes text unescaped and reads it back with `splitlines`,
  which also breaks at U+0085, U+2028 and U+2029: the log is accepted exactly
  when no text given to `emit` holds one (`AuditLogs.LogAccepted`). A piece that
  reads as JSON but not as an object makes every later reopening raise
  (`AuditLogs.ReopensExactly`). `LogSeparators.DividedBreaksLog` is a payload
  that does both.
- "Each class of damage reports once" fails for a repeated line: every line
  after it is reported as a gap (`AuditLogs.RepeatBuriesReport`).
- The sliding-window limiter forgets an address bucket that is evicted. Which
  buckets are tracked follows from the calls (`BucketEviction.EvictedExactly`,
  `BucketEviction.KeptExactly`, `BucketEviction.HoldsMostRecent`); admission is
  exact for what a bucket remembers, so eviction errs towards admission only
  (`LimiterRuns.AdmitsRemembered`, `LimiterRuns.DeniesRightly`,
  `LimiterRuns.EvictedOverAdmits`). The limiter in the greenfield demo forgets
  any key that falls behind 20,000 others, and only those
  (`LruWindow.KeptExactly`, `LimiterRuns.DroppedOverAdmits`).
- Retry-After is exact while a bucket's allowance does not shrink
  (`RetryAdvice.RetryAfterServed`), which one set of quotas guarantees
  (`RetryAdvice.RoutedFixed`); `SlidingWindow.DeniedThenAdmitted` says when in
  general, and `RetryAdvice.ShrunkAllowance` is a case of bad advice.
- `_reach` is described as breadth-first but pops the newest entry; the result
  is the same set. Ties among the dependencies on the critical path are broken
  in `depends_on` order, not plan order as the docstring says.

## Model

| member | source | states |
|---|---|---|
| `BuildGraph.Build` | keel/graph.py:62-101 | a plan is accepted exactly when its ids are distinct, its dependencies known and its relation acyclic; an accepted graph holds the plan's order, deduplicated dependencies, their transpose and a Kahn layering |
| `BuildGraph.RefusedIsNotAccepted` | keel/graph.py:66-101 | each reported error (duplicate, unknown or cycle, in that order of precedence) is a genuine reason why the plan is not acceptable |
| `BuildGraph.BuiltIsSound` | keel/graph.py:62-101 | what an accepted graph keeps: closed, acyclic, transposed relations over distinct nodes |
| `BuildGraph.LinkDependents` | keel/graph.py:81-95 | the dependents table is exactly the transpose of the dependency table |
| `FindCycles.FindCycle` | keel/graph.py:330-364 | terminates; no cycle is returned exactly when the relation is acyclic, and a returned one is simple apart from its repeated endpoint, each id a dependency of the next |
| `FindCycles.CycleIsCyclic` | keel/graph.py:330-364 | a reported cycle refutes acyclicity |
| `KahnLevels.ComputeLevels` | keel/graph.py:366-386 | the batches form a layering of all nodes, each level in plan order |
| `PlanGraphs.LayerIsLongestChain` | keel/graph.py:366-386 | a node's level is the length of its longest dependency chain: one that long exists and none is longer |
| `PlanGraphs.ReadyIsNextLayer` | keel/graph.py:168-188 | with the first k levels completed, the ready nodes are exactly level k, in its order |
| `PlanGraphs.ReadyIffInLayer` | keel/graph.py:168-188 | membership form of the same |
| `PlanGraphs.AtLayer` | keel/graph.py:366-386 | every dependency of a node lies in an earlier level, one of them in the level just before |
| `PlanGraphs.DedupInOrder` | keel/graph.py:81-95 | repeated dependencies are dropped and the rest stand in the order of their first mention |
| `CriticalPaths.CriticalPath` | keel/graph.py:250-286 | the path returned is critical: it has one node per level, each the first best dependency of the next, and ends at the first node in plan order on the last level |
| `CriticalPaths.CriticalIsLongest` | keel/graph.py:250-286 | a critical path is a dependency chain from a root to a leaf, as long as there are levels, and no chain is longer |
| `GraphQueries.Reach` | keel/graph.py:316-328 | the worklist finds everything reachable from a known node and nothing else, and reports an unknown one |
| `GraphQueries.AncestorsOf` | keel/graph.py:198-200 | exactly the transitive dependencies |
| `GraphQueries.DescendantsOf` | keel/graph.py:194-196 | exactly the transitive dependents |
| `GraphQueries.AncestorsConverse` | keel/graph.py:194-200 | ancestors and descendants are converse, and no node is its own ancestor |
| `GraphQueries.MarkStale` | keel/graph.py:202-216 | the node and its descendants |
| `GraphQueries.StaleIsLeast` | keel/graph.py:202-216 | the stale set is the least set that contains the node and is closed under dependents |
| `GraphQueries.SubgraphDeps` | keel/graph.py:218-244 | a sub-plan keeps exactly the dependencies between its members |
| `GraphQueries.SubgraphKeeps` | keel/graph.py:218-244 | a sub-plan holds exactly the members, in plan order and under the plan's version; approval, rollback and retries of each stay as they were |
| `GraphQueries.SubgraphAccepted` | keel/graph.py:218-244 | every sub-plan of an accepted plan is accepted |
| `GraphQueries.StalePlanFaithful` | keel/graph.py:202-244 | the sub-plan of a stale set is accepted, has the changed node as its only root and exactly the original reachability between members |
| `Planner.Revise` | keel/planner.py:214-237 | the revised plan as a function of the plan and the request |
| `Planner.RevisedExactly` | keel/planner.py:214-237 | whatever the request: the nodes it does not remove stay in order and unchanged but for their dependencies, the added ones follow, only a rewired or added node can still wait for a removed one, and the version counts up and points back |
| `Planner.OrderedAccepted` | keel/graph.py:62-101 | a plan listed in dependency order is accepted |
| `Planner.BuiltAccepted` | keel/planner.py:69-212 | every plan the planner builds, for every capability set and both kinds of project, is accepted; whatever waits for implement is verify or waits for verify too, an impact analysis is upstream of implement, and design is upstream of implement and not the other way round; the whole order is `BuiltPlans.BuiltOrder` |
| `Planner.BuiltUpstream` | keel/planner.py:111-178 | in a built plan with an impact analysis, implement waits for it |
| `BuiltPlans.BuiltOrder` | keel/planner.py:67-212 | for every capability set and both kinds of project: which stages the plan has; one stage waits for another if and only if it is later (analysis, design, writing, verify, review, release), except that only release-check waits for the documentation; only what writes files rolls back, only a brownfield implement needs approval, only verify is never retried |
| `BuiltPlans.BuiltMinimal` | keel/planner.py:67-212 | a built plan lists a dependency if and only if no other one implies it |
| `Replan.RevisedAccepted` | keel/planner.py:239-282 | the seam revision of an accepted plan is accepted if and only if design is in the plan and implement is not upstream of it |
| `Replan.RevisedReach` | keel/planner.py:239-282 | the revision keeps reachability among the old nodes if and only if implement's ancestors were design and design's ancestors |
| `Replan.RevisionForgets` | keel/planner.py:239-282 | a plan whose revision is accepted and no longer has implement wait for one of its two dependencies |
| `Replan.SecondRevisionRefused` | keel/planner.py:239-260 | a plan already revised is not revised again |
| `Replan.BuiltRevision` | keel/planner.py:69-282 | for plans the planner builds, the revision is accepted and old reachability unchanged |
| `Workspaces.Workspace.Snapshot` | keel/workspace.py:289-295 | exactly the visible files and their contents |
| `Workspaces.VisibleThroughout` | keel/workspace.py:236-245 | a path is hidden if and only if one of its parts, wherever it stands, is an ignored directory |
| `Workspaces.Workspace.Restore` | keel/workspace.py:297-326 | the tree becomes the restored one, and the paths reported are exactly those that differed |
| `Workspaces.Workspace.RestorePaths` | keel/workspace.py:328-361 | the listed paths, and no others, return to the snapshot; reports exactly the changed ones |
| `Workspaces.Workspace.Diff` | keel/workspace.py:363-381 | the drift between tree and snapshot, by kind |
| `Workspaces.DriftExplains` | keel/workspace.py:363-381 | added, deleted and modified are exactly the paths a full restore would delete, create and rewrite |
| `Workspaces.RestoreInvertsDrift` | keel/workspace.py:297-381 | after a restore the visible files equal the snapshot, the reported paths are the keys diff gave before, drift is empty and a second restore touches nothing |
| `Workspaces.RestorePathsFrame` | keel/workspace.py:328-361 | scoped restore per path: listed paths as in the snapshot, all others as before |
| `Workspaces.RestorePathsReports` | keel/workspace.py:328-361 | the paths reported are exactly those whose presence or content changes |
| `Workspaces.RestorePathsCommute` | keel/workspace.py:328-361 | scoped restores of disjoint path sets commute |
| `Workspaces.ScopedEqualsFull` | keel/workspace.py:297-361 | a scoped restore equals the full one if and only if the listed paths cover the drift |
| `SafePaths.ResolvedParts` | keel/workspace.py:136-170 | every part of a resolved path is non-empty, holds no slash and no null byte, and is neither '.' nor '..' |
| `SpelledPaths.ResolvesExactly` | keel/workspace.py:136-174 | for any segments joined by slashes between any blanks: the path is refused if it is absolute, has a drive, goes up, holds a null byte or names nothing, and is otherwise the segments but for empty ones and dots, in their order |
| `SpelledPaths.EverySpelling` | keel/workspace.py:152-154 | every text is such a spelling |
| `SafePaths.CanonicalExactly` | keel/workspace.py:136-174 | the canonical spelling of a resolved path resolves to the same path if and only if it has no blank at its ends and does not look like a drive |
| `SafePaths.ReadmeSpelled` | keel/workspace.py:136-170 | two spellings that resolve to one file |
| `SafePaths.HiddenDrive` | keel/workspace.py:136-174 | a resolved path whose canonical spelling is refused |
| `Isolation.RollbackIsolation` | keel/executor.py:260-355 | in every interleaving of a batch whose nodes write their own visible paths with rollback on, at every suspension point the workspace is its state at batch start overlaid with the writes of exactly the completed nodes |
| `NodeStories.NodeStory` | keel/executor.py:207-355 | in every interleaving of a batch and at every point of it, where a node stands, its result (state, attempts, artifacts, rolled back or not), its entries in the trail (start, numbered attempts, claimed paths, end) and its output are what its own gate and its own stage's answers say |
| `NodeStories.GateDecides` | keel/executor.py:214-258 | a node gets past its gate if and only if a move found it there with the approval it needs, an open entry gate and its inputs present; it is REJECTED if and only if a move found it there without them, and then it was never dispatched and claimed nothing |
| `NodeStories.OnlyRepliesWrite` | keel/executor.py:207-355 | only a node whose dispatch comes back changes files, owners or outputs |
| `NodeStories.SnapshotAtGate` | keel/executor.py:260 | a node with rollback keeps the visible workspace of the moment it was let in, through all its attempts |
| `RunFiles.WorkspaceIsCommits` | keel/executor.py:145-355 | in every state of every such run, across repairs and a re-plan, the workspace is the launch files overlaid with what the completed stages left behind, in the order in which they completed |
| `Isolation.PersistOverlays` | keel/executor.py:548-566 | persisting safe artifacts overlays the workspace with their final contents |
| `Isolation.RestoredLook` | keel/executor.py:568-583 | what a rollback leaves at each path |
| `RollbackLimits.DeniedLeavesNoTrace` | keel/executor.py:314-350 | a denied attempt leaves no trace if and only if the snapshot agrees with the workspace before the attempt on every path written |
| `RollbackLimits.UnrolledLeavesNoTrace` | keel/executor.py:548-583 | without a snapshot, or with an unsafe path, no trace is left if and only if the attempt rewrote what was there |
| `RollbackLimits.UnsnappedStays` | keel/executor.py:548-583 | a node without rollback is denied, fails, and its file stays |
| `RollbackLimits.EscapeStays` | keel/executor.py:548-566 | a node with a snapshot fails on an unsafe path after a safe one, and the first file stays |
| `RollbackLimits.LastRollbackIsNoOp` | keel/executor.py:340-355 | giving up after denied attempts changes no file any more |
| `RollbackLimits.PairStarts` | keel/executor.py:260-312 | two nodes of one batch can both be dispatched before either returns |
| `RollbackLimits.SiblingCommitLost` | keel/executor.py:568-583 | two such nodes writing one path: a rollback deletes the sibling's committed file, so disjoint paths are needed |
| `RunInvariant.RunSane` | keel/executor.py:145-199 | the invariant of every reachable state: books, batch and outputs agree |
| `RunStories.RunIsChosen` | keel/executor.py:145-199 | every run has a sequence of choices (a stop request or not, a node and its answers, or the end of a round) that leads through its states |
| `RunStories.RoundsInterleave` | keel/executor.py:145-199 | whatever a run is in the middle of is an interleaving of the batch it began last, so all that holds of batches holds in runs |
| `RunStories.BeginsExactly` | keel/executor.py:145-155 | a round starts exactly the nodes without a result whose dependencies are completed, in plan order; with none left the run is COMPLETED, and a stop request makes it FAILED |
| `Settlings.SettlesTo` | keel/executor.py:157-179 | a batch is settled up to the first outcome that is neither COMPLETED nor a failed verify with budget left and an implementation to redo, and exactly the outcomes up to it are recorded |
| `RunStories.EndsExactly` | keel/executor.py:157-187 | so every round of every run ends; when nothing stops it, the plan gains its seam if and only if the analysis found the extension point missing, the budget allows it and there is no seam yet |
| `RunStories.ReportedState` | keel/executor.py:171-199 | a finished run reports INPUT_REQUIRED if and only if a recorded result is, FAILED if and only if a stop was requested or a recorded result failed or was rejected, COMPLETED if and only if no stop was requested and every node of the plan in force is, and raises if and only if that plan is not acceptable |
| `RunStories.ResultsAreFlights` | keel/executor.py:157-168 | every recorded result is how a flight of that node ended |
| `RunStories.ResultsNeedConsent` | keel/executor.py:214-258 | a result other than REJECTED needs an earlier move that let the node in, and REJECTED one that turned it away |
| `RunStories.DispatchNeedsConsent` | keel/executor.py:214-258 | nothing is dispatched in a run before its node was let in |
| `RunStories.NothingUnapproved` | keel/executor.py:216-219 | a node that needs approval in the plan is never dispatched before a human approved it, across repairs and a re-plan |
| `RunInvariant.SuccessIsSound` | keel/executor.py:145-187 | a run that reports COMPLETED has a COMPLETED result for every node of its final plan |
| `RunInvariant.InputsPresent` | keel/executor.py:239-246 | ready never sees an unknown id, and no node of a batch misses an input, across repairs and re-planning |
| `RunInvariant.RaisesExactlyWhen` | keel/executor.py:698-727 | a round ends in an uncaught error if and only if evidence asks for a revision and design is missing or downstream of implement |
| `WitnessRuns.RevisionRaises` | keel/executor.py:698-727 | a run that ends so |
| `RunInvariant.RaisedMeansBadRevision` | keel/executor.py:698-727 | the only error a started run raises is a revised plan that is not acceptable |
| `RunOrder.SuccessOrderExactly` | keel/executor.py:145-187 | for every plan, in a completed run each node's last completion comes after the last completion of each dependency of the final plan, across repairs and a re-plan, if and only if no revision came after implement last completed and no repair came after the last completion of a node that waits for implement without being or awaiting verify |
| `RunOrder.SuccessInOrder` | keel/executor.py:145-187 | that order holds for every plan in which whatever waits for implement is verify or waits for it too, and an impact analysis is upstream of implement |
| `RunOrder.BuiltSuccessInOrder` | keel/executor.py:674-679 | the same for every plan the planner builds, with no further condition |
| `WitnessRuns.LateSeam` | keel/executor.py:698-727 | a run that repairs safely and reports success although the seam completes after the implementation that depends on it |
| `WitnessRuns.BypassedRepair` | keel/executor.py:619-696 | a run that re-plans safely and reports success although a repair ran the implementation again after a node that depends on it |
| `Races.RaceReported` | keel/executor.py:505-546 | until a repair or re-plan, a conflict on a spelling has been reported if and only if two nodes with no dependency path between them claimed it |
| `Races.FileRaceReported` | keel/executor.py:505-546 | until then, a race on a file has been reported if and only if two unrelated nodes claimed one common spelling of it; so never falsely, and exactly when there was one if the file was claimed under one spelling only |
| `Races.AncestorsTransitive` | keel/executor.py:180-185 | the ancestors table of a run is exactly reachability in its first plan |
| `WitnessRuns.SpellingHidesRace` | keel/executor.py:505-546 | a run in which two unrelated nodes of one round write one file under two spellings and nothing is reported |
| `Rounds.RoundsAreLevels` | keel/executor.py:145-174 | until a repair or re-plan, the k-th round runs exactly Kahn level k and completes it before the next begins |
| `RunBounds.StepDecreases` | keel/executor.py:145-199 | every step lowers (repairs left, revisions left, uncompleted nodes, phase, attempts left in the batch) |
| `RunBounds.NoEndlessRun` | keel/executor.py:145-199 | no run goes on forever |
| `RunCounts.WorkIsBounded` | keel/executor.py:272-273 | a node starts once, implement and verify at most 1 + max_repairs times; each start makes each of at most max_attempts + 1 attempts once; at most one revision; repairs within budget |
| `Executors.Executor.CheckWriteConflict` | keel/executor.py:505-546 | ownership, claim and conflict report of one write |
| `Executors.Executor.PersistArtifacts` | keel/executor.py:548-566 | artifacts are written in order up to the first unsafe path |
| `Executors.Executor.Rollback` | keel/executor.py:568-583 | the written paths return to the snapshot |
| `Executors.Executor.ResumeNode` | keel/executor.py:207-355 | from one suspension point to the next a node makes exactly the model's move; `NodeStories.NodeStory` and `NodeStories.GateDecides` say what these moves come to |
| `Executors.Executor.Gather` | keel/executor.py:152-155 | a batch run to its end under any schedule is a run of the model |
| `Executors.Executor.Repair` | keel/executor.py:619-696 | a repair is scheduled exactly for a failed verify with budget left and an implementation to redo |
| `Executors.Executor.SettleBatch` | keel/executor.py:157-179 | outcomes are recorded in batch order until one stops the run; `Settlings.SettlesTo` says which one and `RunStories.ReportedState` what is then reported |
| `Executors.Executor.MaybeReplan` | keel/executor.py:698-727 | re-plans at most max_revisions times on impact evidence; the new graph represents the new plan or the run raises |
| `Executors.Executor.Execute` | keel/executor.py:109-199 | terminates; a refused plan raises before anything is written; otherwise the states passed through are a run of the model from its launch to the reported state |
| `SlidingWindow.RateLimiter.Evict` | runs/demo-brownfield/workspace/app/ratelimit.py:253-272 | makes room by dropping least recently seen address buckets, never key buckets |
| `SlidingWindow.OrderedAsSpelled` | runs/demo-brownfield/workspace/app/ratelimit.py:262-270 | buckets last seen at one instant are evicted in the order of the texts that name them |
| `SlidingWindow.RateLimiter.Consume` | runs/demo-brownfield/workspace/app/ratelimit.py:274-303 | one call as a relation between tables and the decision |
| `SlidingWindow.AdmitsExactly` | runs/demo-brownfield/workspace/app/ratelimit.py:274-303 | with a clock that never goes back, a bucket that has not been evicted admits if and only if fewer than its allowance of its admissions lie in (now - W, now] |
| `SlidingWindow.KeyBucketsExact` | runs/demo-brownfield/workspace/app/ratelimit.py:253-303 | the same for API-key buckets under any other traffic and any eviction |
| `SlidingWindow.NoWindowOverflows` | runs/demo-brownfield/workspace/app/ratelimit.py:274-303 | no interval of length W holds more admissions than the allowance |
| `SlidingWindow.FewBucketsKept` | runs/demo-brownfield/workspace/app/ratelimit.py:253-272 | nothing is evicted while no more buckets than the maximum have been used |
| `BucketEviction.EvictedExactly` | runs/demo-brownfield/workspace/app/ratelimit.py:253-272 | in a table that holds at most one address bucket when above its maximum, as every table of a run does, a call costs another bucket its place if and only if the call's bucket is new, the table is full and the bucket is the least recently seen address bucket |
| `BucketEviction.AlwaysTight` | runs/demo-brownfield/workspace/app/ratelimit.py:253-272 | in every run a table above its maximum holds at most one address bucket |
| `BucketEviction.TableIsRoster` | runs/demo-brownfield/workspace/app/ratelimit.py:253-303 | after any calls the tracked buckets and their times are those a roster computed from the calls lists, in the order of eviction |
| `BucketEviction.KeptExactly` | runs/demo-brownfield/workspace/app/ratelimit.py:253-303 | a bucket is never evicted if and only if it never leaves the roster |
| `BucketEviction.HoldsMostRecent` | runs/demo-brownfield/workspace/app/ratelimit.py:253-303 | unless two address buckets are called at the same instant, the table holds exactly the keys called so far and as many of the most recently called address buckets as there are places left |
| `LimiterRuns.AdmitsRemembered` | runs/demo-brownfield/workspace/app/ratelimit.py:253-303 | under any traffic, admission is exactly room among the admissions since the bucket was last absent from the table, as computed from calls and decisions |
| `LimiterRuns.DeniesRightly` | runs/demo-brownfield/workspace/app/ratelimit.py:253-303 | whatever is evicted, a denied call has no room in the full history either |
| `LimiterRuns.Served` | runs/demo-brownfield/workspace/app/ratelimit.py:253-303 | every call sequence with a clock that never goes back is served |
| `LimiterRuns.EvictedOverAdmits` | runs/demo-brownfield/workspace/app/ratelimit.py:253-303 | a served sequence in which an evicted bucket is admitted although its history leaves no room |
| `SlidingWindow.DeniedThenAdmitted` | runs/demo-brownfield/workspace/app/ratelimit.py:294-301 | when exactly a denied request passes after k seconds, for any allowance |
| `RetryAdvice.RetryAfterServed` | runs/demo-brownfield/workspace/app/ratelimit.py:274-303 | in any run with one allowance for the bucket, Retry-After lies between 1 and W, and the bucket's next call, k whole seconds later and whatever other buckets do meanwhile, is admitted if and only if k reaches the advice or the bucket has been evicted |
| `RetryAdvice.KeyRetryAfter` | runs/demo-brownfield/workspace/app/ratelimit.py:253-303 | for key buckets if and only if k reaches the advice |
| `RetryAdvice.RoutedFixed` | runs/demo-brownfield/workspace/app/ratelimit.py:305-329 | whatever requests arrive, the calls made for them give each bucket one allowance |
| `RetryAdvice.RequestRetryAfter` | runs/demo-brownfield/workspace/app/ratelimit.py:274-329 | so the advice is exact for every mix of requests |
| `RetryAdvice.ShrunkAllowance` | runs/demo-brownfield/workspace/app/ratelimit.py:294-301 | a bucket and a shrunk allowance for which following the advice fails |
| `SlidingWindow.RouteFixesAllowance` | runs/demo-brownfield/workspace/app/ratelimit.py:305-329 | requests that share a bucket share its allowance; recognised keys on creation count per key with the key's quota, other creations and reads per peer with the quota of their kind, and nothing else is limited |
| `LruWindow.RateLimitMiddleware.Trim` | runs/demo-greenfield/workspace/app/ratelimit.py:162-173 | empty deques go first, then the oldest keys |
| `LruWindow.RateLimitMiddleware.Consume` | runs/demo-greenfield/workspace/app/ratelimit.py:136-160 | one call as a function of the ordered table |
| `LruWindow.SameAsBucket` | runs/demo-greenfield/workspace/app/ratelimit.py:136-160 | on its own deque this limiter decides as the bucketed one does |
| `LruWindow.AdmitsExactly` | runs/demo-greenfield/workspace/app/ratelimit.py:136-160 | a key not dropped so far is admitted if and only if fewer than the limit of its admissions lie in (now - W, now] |
| `LruWindow.HoldsNewest` | runs/demo-greenfield/workspace/app/ratelimit.py:162-173 | after any calls the table holds exactly the 20,000 most recently called keys |
| `LruWindow.KeptExactly` | runs/demo-greenfield/workspace/app/ratelimit.py:136-173 | a key is never dropped if and only if it never falls behind that many other keys |
| `LruWindow.WithinLimit` | runs/demo-greenfield/workspace/app/ratelimit.py:136-160 | with one limit per key no deque exceeds it, over any calls |
| `RetryAdvice.LruRetryAfterServed` | runs/demo-greenfield/workspace/app/ratelimit.py:136-173 | in any run with one limit for the key, Retry-After lies between 1 and W, and the key's next call, k whole seconds later and whatever other keys do meanwhile, is admitted if and only if k reaches the advice or the key has fallen out of the most recent ones |
| `LimiterRuns.DroppedOverAdmits` | runs/demo-greenfield/workspace/app/ratelimit.py:136-173 | a served sequence in which a dropped key is admitted although its history leaves no room |
| `FixedWindow.FixedWindowRateLimiter.Sweep` | runs/demo-ambiguous-resumed/workspace/app/ratelimit.py:106-124 | exactly the counters of elapsed windows go, when a sweep is due |
| `FixedWindow.FixedWindowRateLimiter.Check` | runs/demo-ambiguous-resumed/workspace/app/ratelimit.py:58-91 | one call as a function of the state |
| `FixedWindow.AllowsExactly` | runs/demo-ambiguous-resumed/workspace/app/ratelimit.py:74-91 | a request is allowed if and only if fewer than limit earlier requests for its key fell in the same aligned window; remaining counts the rest; sweep and saturation do not show |
| `FixedWindow.FirstAllowed` | runs/demo-ambiguous-resumed/workspace/app/ratelimit.py:74-91 | each window allows a key exactly its first limit requests |
| `FixedWindow.AtMostDouble` | runs/demo-ambiguous-resumed/workspace/app/ratelimit.py:74-91 | any closed interval of length W holds at most twice the limit |
| `FixedWindow.RetryAfterExact` | runs/demo-ambiguous-resumed/workspace/app/ratelimit.py:74-91 | after a denial the same key is allowed k seconds later if and only if k reaches Retry-After, whatever other keys do |
| `FixedWindow.AdviceIsNextWindow` | runs/demo-ambiguous-resumed/workspace/app/ratelimit.py:74-91 | on every answer, allowed or not, Retry-After is the least whole number of seconds after which the next window has begun |
| `FixedWindow.NothingOutlives` | runs/demo-ambiguous-resumed/workspace/app/ratelimit.py:106-124 | no counter is kept two windows after the one it counts began |
| `FixedWindow.ClosedKey` | runs/demo-ambiguous-resumed/workspace/app/ratelimit.py:74-91 | a limit of zero or less never allows |
| `JsonSpan.FirstObjectSpan` | keel/adapters/base.py:126-157 | the returned text is the first balanced object span; nothing is returned exactly when there is none |
| `JsonSpan.SpanUnique` | keel/adapters/base.py:126-157 | a text has at most one such span |
| `JsonSpan.ObjectIsTheSpan` | keel/adapters/base.py:126-157 | every RFC 8259 rendering of an object, before any suffix, is found whole where it stands if and only if no opening brace precedes it |
| `JsonSpan.ValueNeutral` | keel/adapters/base.py:137-155 | any JSON value, with braces, quotes and escapes in its strings, leaves depth and mode as they were |
| `JsonSpan.CutIsMalformed` | keel/governance/audit.py:374-383 | a proper prefix of a rendered object is not JSON |
| `AuditLogs.AuditLog.constructor` | keel/governance/audit.py:298-313 | reopening continues from the highest number and time among the readable events |
| `AuditChecks.OpensAtHighest` | keel/governance/audit.py:298-313 | for any file: opening raises if and only if a line is JSON but no object, and otherwise continues from the highest number and the highest time among the lines that hold an event |
| `AuditLogs.AuditLog.Emit` | keel/governance/audit.py:208-234 | the file grows by the text of one numbered event with a clamped, rounded time, and a line feed |
| `AuditChecks.LogHolds` | keel/governance/audit.py:208-234 | while no text given to emit holds a line separator the file holds one line per emit, numbered from 1 and stamped with the latest clock reading so far, rounded, whatever the clock does and however often the log is reopened |
| `AuditLogs.AuditLog.VerifyIntegrity` | keel/governance/audit.py:350-427 | the problems of the lines in the file, or a missing file; `AuditChecks.ReportsExactly` and `AuditChecks.AcceptedExactly` say which they are |
| `AuditChecks.AcceptedExactly` | keel/governance/audit.py:350-427 | any lines whatever are accepted if and only if every line is an object with all four fields, the numbers are 1, 2, 3 and so on, the times are numbers that never go back, every line is of this run and every type is known |
| `AuditChecks.ReportsExactly` | keel/governance/audit.py:361-427 | the report on any lines lists exactly their findings, each with its condition on the line and the lines before it, in line order and none twice |
| `AuditLogs.LogAccepted` | keel/governance/audit.py:208-427 | after any sequence of emits and reopenings under any clock, the lines of the file are accepted if and only if no rendered text given to emit holds a line separator |
| `LogCodec.Conformable` | keel/governance/audit.py:208-279 | what the log's properties assume of the JSON library (it prints numbers, reads an event's text back as that event and rejects an unclosed object) can be met, for any run id and event types |
| `LogTexts.WholeEvent` | keel/governance/audit.py:267-279 | an event's text that holds no separator is read back as that one event |
| `LogTexts.BrokenEvent` | keel/governance/audit.py:267-279 | otherwise as a line that is not JSON and the pieces after it |
| `LogTexts.SplitConcat` | keel/governance/audit.py:350-383 | appending to a terminated text leaves the lines before as they were |
| `LogTexts.LineByLine` | keel/governance/audit.py:361-363 | lines are cut at every separator, a carriage return and line feed together counting as one |
| `LogTexts.CutUnclosed` | keel/governance/audit.py:374-383 | a proper beginning of a rendered object never closes its first brace |
| `AuditLogs.ReopensExactly` | keel/governance/audit.py:298-313 | the log can be reopened if and only if no line that a text given to emit leaves behind its first reads as JSON that is no object |
| `LogSeparators.DividedBreaksLog` | keel/governance/audit.py:208-427 | a payload with U+2028 around a number, after which the log is not accepted and cannot be reopened |
| `AuditLogs.DamageReported` | keel/governance/audit.py:361-383 | a blank, malformed or non-object line anywhere is never accepted |
| `AuditLogs.OnlyPrefixesAccepted` | keel/governance/audit.py:385-397 | a list of the log's lines, deleted, repeated or reordered, is accepted if and only if it is a prefix |
| `AuditLogs.OneReportPerBlock` | keel/governance/audit.py:385-397 | deletions give only gap reports, as many as there are maximal deleted blocks with a survivor after them |
| `AuditLogs.RepeatBuriesReport` | keel/governance/audit.py:385-397 | one repeated line gives one report for itself and one for every line after it |
| `Metrics.RecoveryIntervals` | keel/governance/metrics.py:157-195 | the one pass with a pending map finds, in log order, every success that ends an outage of its node |
| `Metrics.PairingPerNode` | keel/governance/metrics.py:157-195 | a node's intervals are exactly the spans of its own event subsequence, however the nodes interleave and whatever order events arrive in |
| `Metrics.SpanIsRecovery` | keel/governance/metrics.py:160-178 | a span is exactly: first failure since the node's last success, to its next success |
| `Figures.RecoveriesAre` | keel/governance/metrics.py:157-195 | in terms of the events: an interval is reported if and only if it runs from a node's first retry, failure or rejection since its last completion to its next completion |
| `Metrics.OtherNodesIgnored` | keel/governance/metrics.py:157-195 | events of one node change no other node's intervals |
| `Metrics.OrderedSorts` | keel/governance/metrics.py:385-391 | the ordering keeps the events and follows number, then time |
| `Figures.OrderedByNumber` | keel/governance/metrics.py:385-391 | of two entries the one with the smaller number comes first, and of two with one number the earlier one |
| `Figures.OrderedStable` | keel/governance/metrics.py:385-391 | events with the same number and time keep their order |
| `Metrics.MttrAmongSpans` | keel/governance/metrics.py:197-208 | the mean exists exactly when something recovered and lies among the recovery times |
| `Metrics.MttrWeighs` | keel/governance/metrics.py:197-208 | the mean of one recovery is its time, and of two groups their means weighted by size |
| `Metrics.FinalResults` | keel/governance/metrics.py:372-382 | the loop over an insertion-ordered dictionary yields the final results |
| `Metrics.FinalIs` | keel/governance/metrics.py:372-382 | the final results are exactly the list with each node's last result in order of first appearance, and no node twice |
| `Figures.SeenInOrder` | keel/governance/metrics.py:372-382 | nodes come in the order of their first results |
| `Figures.TotalsAre` | keel/governance/metrics.py:119-151 | totals add up over any split of the results, count states and attempts beyond the first, and hold a lone result's time, cost and tokens |
| `Figures.LogCounts` | keel/governance/metrics.py:119-151 | counts from the log add up over any split of it and count exactly the run's own events of the kind |
| `Figures.ResultCounts` | keel/governance/metrics.py:131-142 | so do the counts of rollbacks and fallbacks among the results |
| `Metrics.PerStage` | keel/governance/metrics.py:252-296 | one row per stage with results, in life-cycle order, each the sum of its results |
| `Metrics.BreakdownConserves` | keel/governance/metrics.py:252-296 | the rows sum to the run totals for nodes, successes, failures, retries, latency, tokens and cost, whatever is known about stages |
| `Figures.RowsAre` | keel/governance/metrics.py:252-296 | there is a row if and only if results belong to its stage (by the plan, else by the id), it is their sum, and rows stand in life-cycle order |
| `Metrics.LatencyBetweenMarkers` | keel/governance/metrics.py:214-237 | with one start and one finish marker the latency is the time between them, never negative, in whatever order the events were read |
| `Figures.LatencyIs` | keel/governance/metrics.py:214-250 | for any log and results: first start to last finish, else first to last entry, else earliest start to latest end of the timed results, else nothing; never negative |
| `Metrics.LatencyWithin` | keel/governance/metrics.py:214-250 | no fallback reports more than the run took: the latency is at most the width of any interval that holds the event times and, where they count, the results' |
| `Metrics.FromResults` | keel/governance/metrics.py:107-151 | totals over the final results; retries, rollbacks and fallbacks are the larger of the results' and the log's counts; approvals, revisions, latency and MTTR come from the run's own events |
| `RelaxedIpv4.ParseRelaxedIpv4` | runs/demo-greenfield/workspace/app/validation.py:100-134 | the loop with shifts and ors computes the positional sum of the parsed parts; what it accepts is `Ipv4Rejects.DecodesExactly` |
| `RelaxedIpv4.OrFillsZeros` | runs/demo-greenfield/workspace/app/validation.py:126-129 | or-ing into free low bits is addition: the shifted parts never overlap |
| `RelaxedIpv4.DecodesToWord` | runs/demo-greenfield/workspace/app/validation.py:100-134 | every accepted host is below 2^32 |
| `RelaxedIpv4.PartParses` | runs/demo-greenfield/workspace/app/validation.py:68-97 | every 32-bit number printed in decimal, octal or hexadecimal with leading zeros parses back |
| `RelaxedIpv4.DecodeIgnoresCase` | runs/demo-greenfield/workspace/app/validation.py:68-134 | only the lower-case form of a host matters |
| `RelaxedIpv4.RoundTrip` | runs/demo-greenfield/workspace/app/validation.py:68-134 | every address written in one to four parts, in any mix of bases and case, with leading zeros and trailing dots, decodes to itself |
| `Ipv4Rejects.DecodesExactly` | runs/demo-greenfield/workspace/app/validation.py:68-134 | a host decodes to an address if and only if, in lower case, it is that address written in one to four parts, each in decimal, octal or hexadecimal with leading zeros where the base shows them, and any number of dots |

## Left out

- Isolation.RollbackIsolation: assumes disjoint visible paths, safe paths and rollback for nodes that write; `RollbackLimits` says exactly what happens otherwise.
- RunFiles.WorkspaceIsCommits: assumes the same of every node of the plan and of the seam.
- Races.RaceReported: claims nothing after a repair or a re-plan, because the ancestors table is not refreshed then.
- Races.FileRaceReported: the same; links are not resolved.
- RunOrder.SuccessInOrder: assumes `RepairSafe` and `ReplanSafe`; `RunOrder.SuccessOrderExactly` says for every plan what happens otherwise, and `RunOrder.BuiltSuccessInOrder` that the planner's plans satisfy both.
- LruWindow.RateLimitMiddleware.Consume: assumes a limit of at least 1, which the service's settings enforce; with 0 the source would index an empty deque.
- BucketEviction.HoldsMostRecent: assumes that no two address buckets are called at the same instant, where the order of bucket ids decides; `BucketEviction.KeptExactly` does not.
- RetryAdvice.LruRetryAfterServed: assumes one limit per key, which the service reads from its settings.
- SafePaths.ResolvedParts: on a POSIX host and without links, so resolution is lexical; `Path.resolve` is not modelled.
- AuditLogs.AuditLog.constructor: models opening only when it does not raise; `AuditLogs.ReopensExactly` says when it does.
- AuditChecks.LogHolds: assumes that no text given to `emit` holds a line separator; `AuditLogs.LogAccepted` and `AuditLogs.ReopensExactly` say what happens otherwise.
- FixedWindow.NothingOutlives: assumes a clock that does not start before the epoch.
- The reason, error and payload texts of events and results, prompts, schemas and `_payload`: string assembly. Nor does a result of the executor model hold the artifacts a failed stage leaves for the repair note, tokens, cost or the fallback flag.
- The verify node reads the workspace only; files its subprocess writes are not modelled. Treating its dispatch as a suspension point allows more interleavings than the source has.
- `decide` of the policy engine is taken to return a verdict; its regex rules and the redaction patterns of the audit log are not modelled.
- Directories, links, bytecode clearing and pruning of the file system; a path is its canonical parts, and name clashes between files and directories are left out. Snapshots and rollbacks look canonical paths up as they are, which is what the source does where `SafePaths.CanonicalExactly` holds.
- Exceptions from the approval broker, from `snapshot` on files that are not UTF-8 and from `restore_paths`, which the source turns into FAILED results like those of a dispatch: here only a dispatch and an unsafe path raise. A claim is recorded before the write, so an unsafe path is claimed and not written.
- Floating-point rounding: times, costs and `round(..., 6)` are over the reals. Non-finite timestamps in a damaged log are left out.
- Threads in the limiters: calls are one after another. Hashing of keys and addresses: digests are opaque.
- Integer text from Unicode digits in hosts: hosts are ASCII. `parse_host_as_ip` and the address block lists are not modelled.
- `extract_json` around the scanner: it tries the library's JSON parser on candidates.
- Event payloads in the metrics: the state a finished node reports is taken as read. Rendering is not modelled.
- Cassettes, lineage, intake and approval brokers, Mermaid output, A2A transport, adapters, command line, live view and HTML report.
