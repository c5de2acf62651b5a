# Composer: a verified model of its workflow core

Composer turns a graph of nodes into a running, resumable workflow. This project models the parts of it
that carry hard properties and proves those properties for every input, every reachable state or every run.

- **Durable execution** (`ExecutionRow`, `Protocol`, `ClaimAndRun`, `SingleDriver`, `TerminalStability`, `Approvals`,
  `Decisions`, `Transitions`). One execution row, shared by duplicated task deliveries, in-app and emailed approvals, cancel, delete, the
  sweepers and the executor's own writes. Each database statement is one step, a disabled step does
  nothing, so every sequence of steps is a run. Invoking the graph is a nondeterministic outcome.
- **Validation and meaning** (`Digraph`, `Workflows`, `BranchMarkers`, `Exclusivity`, `Validation`,
  `ReportOrder`, `Selection`, `Compile`, `Supersteps`, `SuperstepRuns`, `SharedEnd`). The validator with its capped fixed point over branch labels and its
  breadth-first search, the routers and the compiled graph, and runs of that graph with parallel fan-out.
- **Builder repair** (`Repair`, `RepairMerge`, `MergeOrder`, `RepairWire`, `RepairTheorems`, `RepairNoOp`,
  `RepairValidity`, `DeadEnd`, `SpareBranch`, `EdgeIds`, `Dictionary`, `Drafts`, `Builder`). The repair as functions on node and edge lists with its theorems, and
  the mutable draft whose methods are proved to compute those functions in place.
- **Creation and events** (`Creation`, `Delivery`, `EventBus`). Idempotent creation, cursor-based replay
  over a numbered log, and the bounded in-process fan-out.
- **Traversals that must agree** (`Placeholders`, `Paths`, `Templates`, `Mustache`, `Secrets`,
  `JiraExtract`). Template substitution, references and conditions; the redacted view of stored secrets;
  paginated extraction.

## Where the code and its documentation disagree

The model follows the code. Each of these has a lemma.

- `_branch_markers` speaks of every path; the labels are a union over paths. `BranchMarkers.ComputeMarkers`
  states what they are, and `SharedEnd.AcceptedButBothFire` gives a family of workflows that the validator
  accepts and `build_graph` compiles although both edges into the End are taken in one run.
  `Supersteps.BothFireIffClashFree` says exactly when routers can let two nodes both fire, no executor failing,
  and `SuperstepRuns.SeparatedCannotBothFire` when the label test does rule it out.
- `normalize_orchestration` calls itself a no-op on a valid graph. `DeadEnd.RepairBreaksValid` shows a family
  it makes invalid. `RepairNoOp.NoOpIffLeftAlone` says exactly when it is a no-op, and
  `RepairValidity.RepairKeepsValidIff` exactly when a valid graph stays valid: with one End, when no
  node leads nowhere, or when, those nodes led into the End, it is still reached and the nodes that enter it
  are pairwise separable (`SpareBranch.RepairSparesValid` is an instance). A Start-to-End edge beside anything
  else is dropped, and comes back if nothing else enters the End; with several Ends it does not come back,
  and its End is left without an entry.
- The lease sweeper enqueues a task before it clears the expired lease, so the clear can hit the lease of the
  task it enqueued: `SingleDriver.SweeperBreaksSingleDriver`. `SingleDriver.StepSafeIff` says that no other step does
  such harm, and `SingleDriver.FreeLeaseIsNotStale` which test before the clear would prevent it.
- A canceled row can still become completed while a delivery is inside the executor:
  `TerminalStability.CancelIsNotFinal`; `TerminalStability.TerminalStableIffQuiet` is the exact condition.
- An approval writes its decision together with variables it read before its flip. If another pause was
  recorded in between, that pause's data are overwritten and an emailed token of the earlier pause can
  resolve the later one: `Approvals.StaleTokenResolvesLaterPause`, exact condition in
  `Approvals.TokenResolvesItsPauseIff`.
- A client that missed events while it was disconnected is promised them on reconnecting. If the row has become
  terminal, the connection is closed after the snapshot, before the replay: `Delivery.MissedIsReachable` and
  `Delivery.MissedEventIsLost` give the run and what is lost, `Delivery.ReconnectCatchesUpIff` the exact
  condition.
- The identifier pattern of conditions also accepts an identifier followed by one line feed; `Mustache`
  models that. Template paths refuse unsafe segments, conditions do not: `Mustache.UnsafeStillEvaluates`,
  with the exact condition in `Mustache.ConditionAgreesIff`.

## Model

| member | source | states |
|---|---|---|
| `ExecutionRow.Record.TryClaim` | src/api/internal.py:232-289 | a claim succeeds exactly on a queued, running or waiting row whose lease is absent or over, and sets running, owner, expiry and one more attempt |
| `ExecutionRow.Record.TryCancel` | src/api/executions.py:546-559 | cancel changes exactly queued, running and waiting rows, and only their status |
| `ExecutionRow.Record.TryFlip` | src/api/executions.py:641-650 | exactly waiting rows flip to running, losing their lease |
| `ExecutionRow.Record.TryFail` | src/api/internal.py:387-427 | a guarded failure write changes only a row still in the expected status |
| `ExecutionRow.Record.WriteCompleted` | src/engine/langgraph_executor.py:177-205 | the completing write has no guard and clears the pending data |
| `ExecutionRow.Record.WriteWaiting` | src/engine/langgraph_executor.py:207-235 | the pausing write has no guard and records the pause without a decision |
| `ExecutionRow.Record.WriteFailed` | src/engine/langgraph_executor.py:237-246 | the failing write has no guard |
| `ClaimAndRun.Handle` | src/api/internal.py:187-437 | a delivery to a row nobody else touches is refused exactly when the row is not claimable, counts one attempt, leaves the status its outcome calls for, and what it does to the record is a run of the step system |
| `ClaimAndRun.Drive` | src/engine/langgraph_executor.py:248-400 | the write after the graph returns: completed, waiting with the new pause, or failed, also when something raises after the pause is recorded; a failing mail provider raises nothing |
| `SingleDriver.AtMostOneDriver` | src/api/internal.py:207-289 | over every interleaving in which drives keep their lease and no lease in use is cleared, at most one delivery drives the row, it holds the row's lease, and the row is not waiting |
| `SingleDriver.StepSafe` | src/engine/langgraph_executor.py:248-320 | every step of every party keeps the single-driver invariant |
| `SingleDriver.StepSafeIff` | src/maintenance/execution_sweeper.py:277-383 | in a timely state a step keeps the invariant if and only if it does not clear a lease in use |
| `SingleDriver.FreeLeaseIsNotStale` | src/maintenance/execution_sweeper.py:277-383 | a clear on a row whose lease has run out, tested at the moment of the clear, is no such step |
| `SingleDriver.FreeLeaseInvitesSecond` | src/api/internal.py:232-243 | a task delivered to a driven row whose lease is free makes a second driver |
| `SingleDriver.OverdueInvitesSecond` | src/config.py:325-336 | a drive that outlasts its lease on a live row can get a second driver: the timing condition is needed |
| `SingleDriver.StaleClearInvitesSecond` | src/maintenance/execution_sweeper.py:277-383 | clearing a lease in use lets a second driver in although all drives are timely |
| `SingleDriver.StaleClearIsReachable` | src/maintenance/execution_sweeper.py:277-383 | from creation, an orderly run leads to a state where the sweeper's pending clear hits a live lease |
| `SingleDriver.SweeperBreaksSingleDriver` | src/maintenance/execution_sweeper.py:277-383 | from creation, a run with every drive within its lease at every moment ends with two drivers |
| `TerminalStability.TerminalStableIffQuiet` | src/engine/langgraph_executor.py:177-246 | a finished row keeps its status in every continuation if and only if no delivery is inside or bound to enter run or resume and nothing is left that writes a different status |
| `TerminalStability.QuietForever` | src/api/internal.py:387-427 | from a quiet state no sequence of steps changes the status |
| `TerminalStability.UnquietChanges` | src/engine/langgraph_executor.py:248-400 | from a finished but not quiet state some sequence of steps changes it |
| `TerminalStability.CancelIsNotFinal` | src/api/executions.py:546-559 | a run from creation reaches a canceled row whose status can still change |
| `TerminalStability.RunCounts` | src/api/internal.py:277-289 | in every reachable state the attempt counter equals the number of successful claims |
| `TerminalStability.QueuedOnlyOnce` | src/engine/langgraph_executor.py:93-125 | a row that has left queued is never queued again |
| `Approvals.OneWinnerPerPause` | src/api/executions.py:641-663 | in every run approvals never exceed flips and flips never exceed recorded pauses, over both channels |
| `Approvals.AlwaysTraced` | src/engine/langgraph_executor.py:207-235 | in every run the pending data in the row, and in every request's snapshot, are those of one recorded pause, the latest unless a decision was written over them |
| `Approvals.TokenResolvesItsPauseIff` | src/api/approval_email.py:65-106 | with distinct pauses, a validated token that can flip a waiting row resolves its own pause if and only if no pause was recorded since validation and the variables the validation read held no decision |
| `Approvals.TokenResolvesWhatRowShows` | src/api/approval_email.py:191-197 | if the row holds no decision when the flip comes, the token resolves its own pause if and only if the row still shows the pending data the validation read |
| `Approvals.StaleTokenResolvesLaterPause` | src/api/approval_email.py:190-223 | an orderly run in which the token of the first pause flips the row out of the second |
| `Decisions.DecisionIsSomeones` | src/api/executions.py:641-679 | in every run from creation, a decision the row holds is that of a request whose flip took effect |
| `Decisions.ApprovalsAreSomeones` | src/api/executions.py:652-663 | in every run an approval on record has the node and the decision of a request whose flip took effect |
| `Decisions.StampIsOwn` | src/api/executions.py:665-678 | right after a request writes its stamp on an existing row, the row holds that request's own decision and the pending data it read, and nothing else of the row has changed |
| `Decisions.ApprovalIsOwn` | src/api/approval_email.py:197-207 | the approval on record names the node the request read as pending and the decision it was given |
| `Decisions.OnlyWhatWasDecided` | src/api/executions.py:641-679 | if every request of a run decides alike, the row and the approvals never say otherwise: rejections alone never read as approved |
| `Decisions.ResumeStays` | src/api/executions.py:679 | a request that has stamped and enqueued leaves a resume task, which stays in every continuation |
| `Decisions.ResumeNeedsDecision` | src/api/approval_email.py:191-223 | in every run a resume is enqueued or delivered only after the flip of some request took effect |
| `Decisions.ClaimWrites` | src/api/internal.py:232-289 | what a successful claim step leaves in the row, field by field |
| `Decisions.SweeperArms` | src/maintenance/execution_sweeper.py:277-383 | a running row whose lease is over is given up at the attempt limit, else requeued, as a resume exactly if it holds a decision |
| `Transitions.StatusIsWritten` | src/engine/langgraph_executor.py:177-246 | for every step of every party, which status it writes and on which rows; a step that writes none leaves the status |
| `Transitions.LastWriteDecides` | src/api/internal.py:387-427 | in every run from creation the row has the status written last, and is queued as long as none was written |
| `Transitions.DeletedOnlyEnded` | src/api/executions.py:433-486 | in every run a row is deleted only if a delete request found it completed, failed or canceled |
| `Transitions.ScansTakeUp` | src/maintenance/execution_sweeper.py:127-275 | the scans that may fail a row take up running and waiting rows, and no others |
| `Creation.IdempotentCreation` | src/api/executions.py:172-209 | for any interleaving of requests, one row per workflow and key, one answer for all, at most one task per row |
| `Creation.LoserFindsWinner` | src/api/run.py:149-194 | a request that loses the insert always finds the winner's row |
| `Creation.EveryRowSeenTo` | src/api/executions.py:172-209 | in every run each row has a task, or its creator has still to enqueue it, or failed to |
| `Creation.ExactlyOneTask` | src/api/run.py:149-194 | a row that no request still holds and none failed to enqueue has exactly one task |
| `Creation.KeylessGetOwnRow` | src/api/executions.py:172-209 | in every run a request without a key never loses, and no other request is answered with its row |
| `Creation.FirstLookupAnswers` | src/api/executions.py:172-177 | the first lookup answers exactly requests whose nonempty key some row has |
| `BranchMarkers.ComputeMarkers` | src/engine/graph_builder.py:174-213 | on every graph the capped loop ends with nothing left to hand over, and a node's labels are exactly the branches from which a Start-avoiding path leads to it |
| `BranchMarkers.GroupByTarget` | src/engine/graph_builder.py:174-213 | incoming edges by target, exactly the edges with that target |
| `BranchMarkers.GatherMarks` | src/engine/graph_builder.py:174-213 | the labels some incoming edge hands over, and no others |
| `BranchMarkers.Sweep` | src/engine/graph_builder.py:174-213 | one sweep keeps labels sound, hands over everything it began with, reports a change only if labels were missing, and no change only if there was none |
| `BranchMarkers.SweepExtendsCover` | src/engine/graph_builder.py:174-213 | after a sweep, labels with one more node to pass have arrived |
| `BranchMarkers.CoverSuffices` | src/engine/graph_builder.py:174-213 | labels that had as many sweeps as there are nodes have all arrived, cycles included |
| `BranchMarkers.SettledCovers` | src/engine/graph_builder.py:174-213 | labels no edge can add to are complete |
| `Exclusivity.ExclusiveMeansSeparated` | src/engine/graph_builder.py:216-227 | the pairwise test holds if and only if some conditional has branches to both nodes and none to both at once |
| `Exclusivity.SeparatedNeverJoined` | src/engine/graph_builder.py:216-227 | no Start-avoiding path joins two separated nodes in either direction |
| `Exclusivity.SeparatedNeverBothFire` | src/engine/graph_builder.py:174-227 | in any run where the separating conditional lies on all paths to both and fires at most once, the two never both fire |
| `Exclusivity.SeparablePairNeverBothFires` | src/engine/graph_builder.py:280-301 | the same for nodes, given one such conditional |
| `Supersteps.BothFireIffClashFree` | src/engine/graph_builder.py:406-566 | two nodes can fire in one run, for some states the routers read, if and only if walks from Start over branches routers can answer lead to them and never need two branches of one conditional in the same step |
| `SuperstepRuns.StepsFormRun` | src/engine/graph_builder.py:512-566 | the firings of the supersteps, step after step, form a run in which every firing was triggered by an earlier one, and all of them are listed once |
| `SuperstepRuns.SeparatedNeverBothActive` | src/engine/graph_builder.py:280-301 | under any routing that fires the separating conditional at most once, where it lies on all paths to both nodes, the two are never both active |
| `SuperstepRuns.SeparatedCannotBothFire` | src/engine/graph_builder.py:280-301 | if that holds of every routing, none makes both fire |
| `SharedEnd.AcceptedButBothFire` | src/engine/graph_builder.py:280-301 | a family of workflows, one for every nonempty condition, that are valid and routable, so that they compile, and whose End is entered twice in one run |
| `Validation.CollectViolations` | src/engine/graph_builder.py:230-356 | for every workflow the result is the list of reports, check by check and within a check node by node or edge by edge, repetitions included; it holds exactly the defects, and is empty exactly if there are none |
| `Validation.ReportsAreDefects` | src/engine/graph_builder.py:230-356 | a violation is in the list exactly when the workflow has the defect it names, in terms of paths and counts |
| `Validation.ReportsOrdered` | src/engine/graph_builder.py:230-356 | the checks report in their documented order |
| `Validation.CheckDuplicates` | src/engine/graph_builder.py:240-246 | duplicates reported exactly, the first node of each id kept |
| `Validation.CheckCounts` | src/engine/graph_builder.py:248-258 | Start and End counts |
| `Validation.CheckEndpoints` | src/engine/graph_builder.py:260-274 | unknown endpoints reported exactly, edges kept exactly when both are known |
| `Validation.TestEntry` | src/engine/graph_builder.py:288-297 | the End test holds exactly when the sources are pairwise separable |
| `Validation.CheckEnds` | src/engine/graph_builder.py:280-301 | End violations are exactly the End defects |
| `Validation.CheckJoins` | src/engine/graph_builder.py:303-315 | Join violations are exactly the Join defects |
| `Validation.CheckBranches` | src/engine/graph_builder.py:317-330 | branch-label violations are exactly the label defects |
| `Validation.Search` | src/engine/graph_builder.py:340-347 | breadth-first search computes exactly the reachable nodes |
| `Validation.CheckReachability` | src/engine/graph_builder.py:332-354 | exactly the unreachable executable nodes are reported |
| `ReportOrder.DuplicatesInOrder` | src/engine/graph_builder.py:240-246 | repeated ids are reported one by one in the order of the nodes |
| `ReportOrder.EndpointsInOrder` | src/engine/graph_builder.py:260-274 | the reports are each edge's own defect, unknown source before unknown target, in the order of the edges |
| `ReportOrder.EndsInOrder` | src/engine/graph_builder.py:280-301 | the reports are each End's own defect, in the order of the Ends |
| `ReportOrder.JoinsInOrder` | src/engine/graph_builder.py:303-315 | the reports are each Join's own defect, in the order of the nodes |
| `ReportOrder.BranchesInOrder` | src/engine/graph_builder.py:317-330 | the reports are each edge's own label defect, in the order of the edges |
| `ReportOrder.UnreachedInOrder` | src/engine/graph_builder.py:332-354 | unreachable nodes are reported one by one in the order of the nodes |
| `ReportOrder.IncomingInOrder` | src/engine/graph_builder.py:283-287 | the End rule counts each edge into the End that leaves a node other than notes and file triggers, repetitions included |
| `ReportOrder.OutgoingInOrder` | src/engine/graph_builder.py:304-311 | the Join rule counts each edge out of the Join into such a node |
| `ReportOrder.EndsListed` | src/engine/graph_builder.py:256 | Ends are taken in the order of the nodes |
| `Compile.BranchMapping` | src/engine/graph_builder.py:369-403 | succeeds exactly when the edges carry each required branch once and nothing else, and then maps each branch to the target of its edge |
| `Compile.RouteIsRequired` | src/engine/graph_builder.py:406-485 | in every state and for every evaluation outcome a router returns one of the node's required branches |
| `Compile.IfElseAnswers` | src/engine/graph_builder.py:406-422 | an if-else answers "true" if and only if its condition is not empty and evaluates to true, a nonempty text or another true value; else "false", also on an evaluation error |
| `Compile.WhileAnswers` | src/engine/graph_builder.py:425-441 | the same for "body" and "exit" |
| `Compile.ApprovalAnswers` | src/engine/graph_builder.py:444-454 | an approval answers "approved" if and only if its own variable holds that text; else "rejected" |
| `Compile.DecisionAnswers` | src/engine/graph_builder.py:457-485 | a binary decision answers "true" if and only if its own result counts as true; a choice answers the text decided if that is an option, and else the first option |
| `Compile.RouterLands` | src/engine/graph_builder.py:369-485 | that branch has exactly one target |
| `Compile.FeasibleIff` | src/engine/graph_builder.py:406-485 | some state and evaluation make the router answer a branch if and only if it is required and, for an empty condition, the fallback |
| `Compile.EmitPlain` | src/engine/graph_builder.py:512-522 | exactly the unconditional edges between executable nodes |
| `Compile.EmitRoutes` | src/engine/graph_builder.py:524-566 | succeeds exactly on routable workflows, with the right mapping for every conditional |
| `Compile.ArcsAgree` | src/engine/graph_builder.py:512-566 | what is emitted joins exactly the executable nodes that edges join |
| `Compile.BuildGraph` | src/engine/graph_builder.py:488-575 | compiles exactly the valid, routable workflows; the compiled graph holds exactly the executable nodes, the plain edges, and for every conditional the branches it requires with the targets their edges have; it has the validator's arcs and reaches every node from its entry |
| `Compile.ValidReaches` | src/engine/graph_builder.py:332-354 | in a valid workflow every executable node is reachable |
| `Compile.NotSeparableFromItself` | src/engine/graph_builder.py:216-227 | no node is exclusive with itself, so two edges from one source into an End are refused |
| `Compile.ValidEndEntry` | src/engine/graph_builder.py:280-301 | in a valid workflow the sources of any two edges into an End are separable |
| `Compile.EndEnteredByOneEdge` | src/engine/graph_builder.py:280-301 | at most one edge into an End is taken in a run where, for every two of them, one conditional separates their sources, lies on all paths to both and fires at most once |
| `RepairMerge.MergeSane` | src/builder/normalize.py:46-67 | merging Starts keeps ids distinct, Starts unentered, Ends unleft and the graph acyclic |
| `MergeOrder.StartsInOrder` | src/builder/normalize.py:47-50 | the Start that is kept is the first in the order of the nodes |
| `MergeOrder.MergedEdgesInOrder` | src/builder/normalize.py:60-64 | the merged draft has every edge that enters no extra Start, in order, those that left one now leaving the kept Start |
| `MergeOrder.MergedNodesInOrder` | src/builder/normalize.py:65-67 | it has every node but the extra Starts, in order, and only the kept Start's variables differ |
| `MergeOrder.MergedVariablesInOrder` | src/builder/normalize.py:52-59 | those are the kept Start's variables followed by the first variable of each new name, whole and in order |
| `RepairMerge.EndpointsReady` | src/builder/normalize.py:46-80 | after the first two stages there is one Start and one End, and no other node is lost or gained |
| `RepairWire.HeadsAdded` | src/builder/normalize.py:103-108 | the heads pass only appends links from Start to heads, and leaves no node wanting one |
| `RepairWire.ShortcutsDropped` | src/builder/normalize.py:110-120 | the shortcut pass drops shortcuts only, keeps every other edge, and leaves none beside another edge |
| `RepairTheorems.Wired` | src/builder/normalize.py:83-135 | wiring keeps the draft acyclic and well-formed, and every executable node is entered |
| `RepairTheorems.RepairGivesReachability` | src/builder/normalize.py:83-135 | a repairable draft gets one Start and one End, stays repairable, keeps every other node, and passes the reachability check |
| `RepairTheorems.WireTwice` | src/builder/normalize.py:103-135 | wiring a wired draft changes nothing, including a shortcut that is dropped and added back |
| `RepairTheorems.RepairIsIdempotent` | src/builder/normalize.py:83-135 | repairing a repaired draft changes nothing |
| `RepairNoOp.NoOpIffLeftAlone` | src/builder/normalize.py:83-135 | on a valid draft the repair changes nothing, up to the order of edges, if and only if a condition on successors and shortcuts holds |
| `RepairNoOp.NothingMoves` | src/builder/normalize.py:83-135 | if moreover every shortcut stands alone, no pass touches anything |
| `RepairValidity.RepairKeepsValidIff` | src/builder/normalize.py:83-135 | a valid draft stays valid if and only if: with one End, no node leads nowhere, or no Start-to-End edge stands alone and, the dead ends led into the End, it is reached and its feeders are pairwise separable; with several Ends, every Start-to-End edge stands alone |
| `RepairValidity.LeafEndStaysValidIff` | src/builder/normalize.py:83-135 | where no edge leaves the one End, the condition is that the draft as it is separates every two feeders |
| `RepairValidity.ValidIffEntered` | src/engine/graph_builder.py:230-356 | changing only edges into an End leaves every rule satisfied but reachability and the End rule |
| `RepairValidity.SeparationKept` | src/engine/graph_builder.py:174-227 | if no edge leaves the End, it changes no separation between other nodes |
| `RepairValidity.AddsTails` | src/builder/normalize.py:122-133 | the tails pass adds one edge into the End for each node that led nowhere when it began |
| `RepairValidity.DropUnentersEnd` | src/builder/normalize.py:110-120 | with a Start-to-End edge dropped, the End it entered has no entry left and the draft is invalid |
| `RepairValidity.DeadEndMayStay` | src/builder/normalize.py:122-135 | the repair can change a valid draft and leave it valid |
| `SpareBranch.RepairSparesValid` | src/builder/normalize.py:122-135 | a family of valid drafts, with a dead end on the other branch of an if-else, that the repair changes and leaves valid |
| `EdgeIds.ValidStripped` | src/engine/graph_builder.py:230-356 | validity does not depend on edge ids |
| `DeadEnd.RepairBreaksValid` | src/builder/normalize.py:122-135 | a family of valid drafts that the repair makes invalid |
| `Drafts.DetachedAreUntouched` | src/builder/builder_tools.py:156-165 | exactly the edges touching the removed node go |
| `Builder.Draft.CreateNode` | src/builder/builder_tools.py:131-140 | keeps the draft consistent; appends the node, or changes nothing and says so |
| `Builder.Draft.UpdateNode` | src/builder/builder_tools.py:143-153 | replaces one node in place and nothing else |
| `Builder.Draft.RemoveNode` | src/builder/builder_tools.py:156-165 | removes the node and the edges touching it |
| `Builder.Draft.ConnectNodes` | src/builder/builder_tools.py:168-176 | adds an edge between known nodes only |
| `Builder.Draft.SetStartInputs` | src/builder/builder_tools.py:179-195 | sets the first Start's inputs; one unacceptable input leaves everything as it was |
| `Builder.Draft.MergeExtraStarts` | src/builder/normalize.py:46-67 | computes the merge in place and keeps the draft consistent |
| `Builder.Draft.EnsureEndpoints` | src/builder/normalize.py:70-80 | adds the missing Start and End under fresh ids, `start` and `end` where these are free |
| `Builder.Draft.ConnectHeads` | src/builder/normalize.py:103-108 | computes the heads pass in place |
| `Builder.Draft.TrimShortcuts` | src/builder/normalize.py:110-120 | computes the shortcut pass in place |
| `Builder.Draft.ConnectTails` | src/builder/normalize.py:122-133 | computes the tails pass in place |
| `Builder.Draft.NormalizeOrchestration` | src/builder/normalize.py:83-135 | the whole repair in place: consistent afterwards, reachable on repairable drafts, unchanged on settled ones, and a valid draft valid afterwards exactly under the stated condition |
| `Delivery.GapFree` | src/api/events_ws.py:122-192 | over any interleaving of racing writers, wake-ups, drops with events in flight and reconnects, a client has received a gap-free, duplicate-free beginning of the log, and no connection sent past a terminal event |
| `Delivery.QueryIsSuffix` | src/engine/events_pg.py:57-71 | on a numbered log the query returns exactly what follows the cursor |
| `Delivery.LogHoldsWrites` | src/engine/events_pg.py:29-55 | in every run the k-th row is the event of one writer, unaltered, and a writer that is done without a row found its number taken |
| `Delivery.TerminalIff` | src/api/events_ws.py:35-37 | an event ends a connection exactly if it completes the workflow with the name of a completed, failed or canceled status |
| `Delivery.FinalIffInactive` | src/api/events_ws.py:32 | the shared set of terminal statuses is exactly those that claims and cancels refuse |
| `Delivery.SendBatch` | src/api/events_ws.py:126-134 | sends in order up to and including the first terminal event, and moves the cursor to the last event sent |
| `Delivery.PollFetchesRest` | src/api/events_ws.py:165-177 | one poll fetches everything not yet sent, whatever wake-ups were lost |
| `Delivery.TailIsLostAfterTerminal` | src/api/events_ws.py:107-120 | a client without a connection while the row is terminal receives nothing while the status stays, whatever is logged |
| `Delivery.MissedIsReachable` | src/api/events_ws.py:107-120 | a run in which a client drops, an event is logged and the row ends |
| `Delivery.MissedEventIsLost` | src/api/events_ws.py:107-133 | after it the client lacks a logged event, in every continuation in which the status stays |
| `Delivery.ReconnectCatchesUpIff` | src/api/events_ws.py:107-192 | in every reachable state without a connection, the client can receive more, without appends or status changes, if and only if the row is not terminal and the log holds more |
| `Delivery.LeftToItself` | src/api/events_ws.py:122-192 | whatever the order of polls, sends and arrivals, the client never gets past the first terminal event after the cursor, and the connection is at rest exactly when the client has all up to there |
| `Delivery.StepsTowardsRest` | src/api/events_ws.py:122-192 | every such step that changes anything lowers a bound |
| `Delivery.LiveConnectionDelivers` | src/api/events_ws.py:122-192 | a live connection left alone gives the client the log up to and including the first terminal event after its cursor |
| `EventBus.Bus.Subscribe` | src/engine/events.py:71-75 | a new empty queue, the others untouched |
| `EventBus.Bus.Unsubscribe` | src/engine/events.py:77-83 | exactly that queue goes |
| `EventBus.Bus.Emit` | src/engine/events.py:85-103 | every queue of the execution stays a contiguous suffix of the events since it subscribed, at most 128 long |
| `EventBus.Bus.Close` | src/engine/events.py:105-115 | every queue of the execution ends with the marker |
| `EventBus.OfferKeepsSuffix` | src/engine/events.py:91-103 | a queue that holds the newest events still does after the next one, and is one longer until it has 128 |
| `EventBus.OfferLosesOldest` | src/engine/events.py:91-103 | a queue with room loses nothing, one of 128 exactly its oldest item; the new item is always last |
| `Placeholders.ClosingIsMatch` | src/variable_substitution.py:16 | the scanner's local test agrees with the pattern's matches, for both patterns |
| `Placeholders.SpansAreTheLeftmost` | src/variable_substitution.py:38 | the scan finds the one family of disjoint matches outside which no match starts |
| `Placeholders.BodiesAreLeftmost` | src/variable_substitution.py:38 | the bodies handed to the replacement are those of the leftmost matches, in order |
| `Placeholders.ReplaceInterleaves` | src/variable_substitution.py:38 | replacing keeps the literals of the original text and puts each body's replacement between them, in order, without looking at it |
| `Placeholders.ReplaceBySelf` | src/variable_substitution.py:33-38 | replacing every placeholder by itself restores the text |
| `Paths.SplitJoin` | src/variable_substitution.py:42 | splitting a joined path gives its segments back |
| `Paths.SplitIff` | src/variable_substitution.py:42 | the segments of a path are the only undotted segments that join to it |
| `Paths.WalkPath` | src/variable_substitution.py:66-77 | the walking loop computes the recursive walk |
| `Paths.WalkIsChain` | src/variable_substitution.py:66-77 | a walk finds a value exactly when a chain of dictionaries leads there over safe segments and non-null values |
| `Paths.GetReads` | src/variable_substitution.py:66-77 | a key reads the value of its first entry |
| `Paths.GetMisses` | src/variable_substitution.py:66-77 | a missing key reads as null |
| `Paths.ValueIsLedTo` | src/variable_substitution.py:41-63 | the value looked up is the one a chain of dictionaries leads to: from the variables under `state.variables` and under any head but `state`, from the node results under `state.nodeResults`, and none for any other path under `state` |
| `Paths.SafeIff` | src/variable_substitution.py:19-30 | the eight names no walk passes |
| `Paths.StripTakesSpace` | src/variable_substitution.py:38 | a body is white space, its path and white space again, and the path neither begins nor ends with any |
| `Paths.SpacesAre` | src/variable_substitution.py:38 | the characters that count as white space |
| `Templates.ExtractReferences` | src/variable_validation.py:54-68 | lists the stripped bodies of all texts of a tree in traversal order |
| `Templates.ReferencesOfText` | src/variable_validation.py:58-59 | the references of a text are the stripped bodies of its leftmost placeholders |
| `Templates.ResolveReads` | src/variable_substitution.py:41-63 | a path resolves to what the segments that spell it lead to, and to its own placeholder if they lead nowhere |
| `Templates.ResolvesTo` | src/variable_substitution.py:41-63 | a path that leads to a text is replaced by it, one that leads to another value by its JSON rendering |
| `Templates.ResolvesToItself` | src/variable_substitution.py:41-63 | a path that leads nowhere is replaced by its own placeholder |
| `Templates.SubstitutionFillsReferences` | src/variable_substitution.py:80-97 | substituting in a tree is filling its holes with the resolved references in the order extraction lists them; no filling is scanned again |
| `Templates.OnlyReferencesMatter` | src/variable_validation.py:54-68 | states that resolve the listed references alike render a tree alike |
| `Templates.UnresolvedTextIsKept` | src/variable_substitution.py:33-63 | a template none of whose references resolves is kept as it is if and only if no placeholder is padded |
| `Mustache.BuildScope` | src/executors/_eval.py:95-120 | what every name means: extras, then reserved names, then identifier variables |
| `Mustache.ExpandOne` | src/executors/_eval.py:68-92 | the rewrite of a single placeholder in its surrounding text |
| `Mustache.RewrittenIff` | src/executors/_eval.py:68-92 | a placeholder is rewritten to subscripts if and only if every segment of its path is an identifier, perhaps with a line feed at its end; else it is left as it is |
| `Mustache.EvaluateReads` | src/executors/_eval.py:68-92 | the rewritten text is read back as the path's head followed by its other segments |
| `Mustache.MustacheMeansPath` | src/executors/_eval.py:68-120 | on safe identifier paths whose head is no keyword, extra, `variables`, `node_results` or `state`, a condition finds a value if and only if a template resolves to it |
| `Mustache.WalkIsSafeFollow` | src/variable_substitution.py:66-77 | the walk is the plain walk on safe paths and finds nothing on others |
| `Mustache.UnsafeStillEvaluates` | src/executors/_eval.py:68-120 | with an unsafe segment the template finds nothing, the condition still what the path leads to |
| `Mustache.ConditionAgreesIff` | src/executors/_eval.py:68-120 | on identifier paths with an ordinary head, condition and template find the same if and only if every segment is safe or the path leads nowhere |
| `Mustache.WholeHeadFollows` | src/executors/_eval.py:95-107 | under the heads `variables` and `node_results` a condition follows the other segments from the whole dictionary |
| `Mustache.VariablesHeadDisagrees` | src/executors/_eval.py:95-107 | the condition `{{variables}}` finds all variables, which no variable's value is |
| `Mustache.StateHeadFails` | src/variable_substitution.py:45-59 | a path through `state` fails as a condition unless a variable has that name |
| `Secrets.RedactAll` | src/api/workflows.py:103-149 | the redacting passes give each document with the marker for every set `apiToken` of a jira or confluence node and every set `vectorDbApiKey` and `vectorDbEmbeddingApiKey` of a vector-db node, and nothing else changed |
| `Secrets.EncryptAll` | src/api/workflows.py:181-255 | the encrypting passes, in place: each of these fields is kept if empty or already encrypted, taken from the stored document for the marker, and else encrypted; nothing else changes |
| `Secrets.ById` | src/api/workflows.py:188-192 | the last stored document of every id |
| `Secrets.WriteBackIff` | src/api/workflows.py:103-255 | writing back the redacted view restores the stored documents if and only if every secret is found under its id |
| `Secrets.WriteBackRestores` | src/api/workflows.py:103-255 | with unique ids it always restores them |
| `Secrets.SaveIsSecureIff` | src/api/workflows.py:181-255 | a write stores only empty or encrypted secrets if and only if its markers stand for such |
| `Secrets.SecretsAreAccounted` | src/api/workflows.py:181-255 | after any writes in which ids keep their kind, a stored secret is a text sent for that id and field, kept if it came marked as encrypted and otherwise encrypted once by the write that received it |
| `Secrets.RunsStaySecure` | src/api/workflows.py:181-255 | after any such writes each of these fields, by kind and name, is stored empty or with the prefix of encryption, and none is the marker |
| `Secrets.RestIsStoredAsSent` | src/api/workflows.py:181-255 | after any writes every other field of every document is stored as the last write sent it |
| `Secrets.KindChangeKeepsPlainText` | src/api/workflows.py:200-205 | if an id changes its kind, a plain field can be kept as a secret |
| `JiraExtract.RunExtract` | src/executors/jira.py:108-179 | ends against every server; asks for 1 to 100 issues at a time, each time with the token just answered; against an honest server returns key, fields and, exactly if asked for, changelog of the first issues in order up to the limit, and truncated exactly when there were more; reports exactly the empty settings, in order |

## Left out

- Concurrency inside one database statement: LangGraph, Prisma, Postgres, Cloud Tasks and asyncpg appear only as atomic steps, uniqueness constraints and tasks that may be delivered any number of times.
- `ClaimAndRun.Handle`: runs on a row nobody else touches; interleaving is the step system's, and the sweepers' writes appear only there.
- `Approvals.TokenResolvesItsPauseIff`: a token may be issued for any recorded pause and its signature, expiry and audience are not modelled, so runs include tokens that were never mailed.
- `SingleDriver.AtMostOneDriver`: one clock serves the database and all workers; skew between them is not modelled.
- Random edge ids: a clash in `connect_nodes` is modelled as overwriting an edge; in the repair ids are taken to be fresh.
- Edge ids in repair theorems: drafts are compared by source, target and branch.
- Node labels, positions and node data other than what validation, routing and repair read.
- `Compile.BuildGraph`: the executors' construction errors and the evaluator itself are parameters or absent.
- `Supersteps.BothFireIffClashFree`: executors are taken not to fail; one that raises (an empty condition or an evaluation error in an if-else or while, the while-loop iteration cap) ends the run earlier.
- `Mustache.EvaluateReads`: reads only a name with string subscripts, the texts the rewrite writes; other expressions, and the evaluator's limit on literal length, are outside it.
- `Templates.SubstitutionFillsReferences`: JSON rendering of non-text values is a parameter.
- `find_unknown_variable_references`, which compares each listed reference's first segment with Start inputs, node ids, node names and built-in names, and the name sanitizers it uses: not modelled.
- HTTP header encryption and redaction; encryption is an abstract function that may depend on a nonce.
- Secret fields hold a text or null; other JSON types in them are rejected by the schema.
- `JiraExtract.RunExtract`: transport errors and retries; issue fields are opaque.
- `Delivery.GapFree`: retention deletes, snapshots and keepalives; authorization before the connection.
- Synchronous waiting in `run_external`, rate limits, authentication, admin endpoints, uploads, agent loops and model calls, the frontend.
- The superstep reducers in `src/engine/state.py`: single expressions over dictionaries.
