# Verified model of the machine-config operator

The operator is two programs that talk through annotations on Node objects. The **controller** merges
MachineConfigs into a RenderedMachineConfig (RMC) and takes the nodes of a pool to it: cordon, drain, set
`desired-revision`, wait, uncordon, never more than `maxUnavailable` at a time. The **agent** on each node
applies the files and units of the desired revision, reboots the host when it must and may, and reports
`current-revision` and its state.

This project models both in Dafny and proves what the pair is for: the budget holds over every run, no node
is touched before it is drained, a rollout finishes, reports are true across crashes and reboots, and neither
party overwrites the other. Where the program changes things in place the model does too (classes, loops,
maps), proved against functions about which the theorems are stated.

`dafny verify dfyconfig.toml` checks everything.

## How it is put together

| file | what it holds |
|---|---|
| `Order.dfy` | strings, sorting, filtering, counting |
| `Nodes.dfy`, `Drain.dfy`, `Rollout.dfy`, `NodeUpdate.dfy` | nodes and pods, drain retries, node selection, the per-node step and the reconcile loop |
| `Protocol.dfy` | the cluster as a state machine: controller writes interleaved with agent writes and pod changes |
| `StaleEvents.dfy` | what a queued, older watch event does to the budget and to draining |
| `Progress.dfy`, `Rounds.dfy` | termination of a rollout, what an agent restart does to it, and rounds as runs of the protocol |
| `Config.dfy`, `Merge.dfy`, `Rmc.dfy`, `Diff.dfy` | merge by priority, canonical form, names and storage of RMCs, diff and reboot decision |
| `Apply.dfy` | files and units on a host |
| `AgentMachine.dfy`, `AgentProcess.dfy` | one agent, its host and node, across crashes and reboots; the handlers as the program runs them |
| `AgentLimits.dfy` | exactly where the agent's guarantees end: false reports, forgotten reboots |
| `Refinement.dfy`, `System.dfy` | the machine's agent is the protocol's agent; controller and machines together are a run of the protocol |
| `NodeStore.dfy` | concurrent writers on one versioned object |
| `Status.dfy`, `PoolStatus.dfy`, `Overlap.dfy`, `Debounce.dfy`, `Cleanup.dfy`, `Retention.dfy` | pool status and conditions, pool overlap, debounce, garbage collection of RMCs and what it means for a rollout |

The layers meet. `AgentProcess` shows each handler to be a sequence of steps of `AgentMachine`; `System` puts one
such machine on every node beside one controller and shows every interleaved run of them to be a run of `Protocol`;
`Protocol.LoopIsARun` shows the reconcile loop of `NodeUpdate` to be steps of its controller; and `Rounds` shows the
rounds whose termination `Progress` proves to be runs of `Protocol`. So the bound, the drain guarantee and
termination are about the code's own loops and handlers.

Loops and specifications share some definitions: when a node is unavailable, which config wins, what a unit action
is. What each of these comes to is proved once more without it, on the fields, numbers and names themselves
(`Rollout.SelectedAreInService`, `NodeUpdate.ToldMeans`, `Merge.HighestPriorityWins`, `Apply.UnitAchieves` and the like).

## Where the code falls short of its design

Each is a lemma with the exact condition or a concrete state.

- An agent may handle an event that its watch queued earlier, its own `applying` report for one. If that copy shows
  work and the node is available again, the agent takes it: the count stays within the bound if and only if the copy
  shows no work or the bound has room (`StaleEvents.StaleEventBound`), and a node is changed undrained unless it is
  still protected (`Protocol.StaleEventIsSafeIff`). `StaleEvents.StaleEventExceedsBudget` is such a run from a budget
  of one.
- A rollout finishes if and only if no node is stuck: cordoned at its target, with nothing to reach and an agent that
  does not report `done` (`Progress.RolloutFinishesIffNoneStuck`). Nodes get there by a restart of the agent between
  its `done` report and the uncordon, since startup reports `idle` (`Progress.RestartStrands`); and without any
  restart in the run when the target is rolled back while a node it cordoned is draining, if that node's agent has
  been idle since some earlier restart (`Progress.RollbackStrands`). They stay cordoned for as long as the target
  stays (`Progress.StrandedForever`).
- A change of the desired revision is safe for honest reporting if and only if no reboot is marked pending and the new
  revision is not the one whose reboot the agent remembers; or, where the change leaves the agent nothing to do (the
  node is paused or runs that revision already), if and only if no reboot is both marked pending and recorded
  (`AgentLimits.ChangeWhileAwaiting`). An apply overtaken by a change must not end with its reboot pending, with the
  like exception (`AgentLimits.ChangeWhileApplying`; a host that reports what it does not hold:
  `AgentLimits.FalseReport`). The controller checks neither.
- An apply forgets the reboot it needs if and only if it finds every file in place and no unit to change
  (`AgentLimits.ApplyForgetsIff`). That is so after a crash once all files were written
  (`AgentLimits.CrashForgetsReboot`), and without a crash after a reboot that could neither be made nor marked
  (`AgentLimits.FailedRebootIsForgotten`).
- A reboot that the diff requires, because something flagged was removed, while the new RMC itself asks for none, is
  never carried out once the policy has postponed it: later looks ask the RMC (`Diff.RequiredAgainstTheFlag`,
  `AgentMachine.ApplyEndsPostponed`, `AgentMachine.PostponedForGood`).
- Reboots may come a second earlier than the interval asks, since the recorded time loses its fraction
  (`AgentMachine.FullIntervalIffWholeSecond`).
- An RMC found under a collision suffix is reused without refreshing its reboot policy (`Rmc.RebootPolicyIsFresh`), and
  the hash does not see per-file and per-unit reboot flags, so those of a stored RMC are never refreshed
  (`Rmc.HashIgnoresRebootFlags`, `Rmc.RebootFlagsAreFresh`) and agents may decide otherwise than the merge asks
  (`Diff.StaleFlagsDecide`).
- An RMC that another writer created in between is taken without a look at its hash (`Rmc.RmcStore.EnsureRMC`).
- An agent that was applying an RMC when it was deleted goes on to report it (`Retention.AtWorkReportsDeleted`).
- After a failed overlap detection the reconcile goes on with all nodes, and two pools may write to the same node
  (`Overlap.ExclusiveOwnership`).
- While an overlap or a stuck drain lasts with no node degraded, the Degraded condition gets a new transition time
  at every reconcile (`Status.DegradedTimeIsKeptUnlessReraised`).
- A `maxUnavailable` above 100 percent exceeds the pool (`Rollout.BudgetWithinPool`).

## Model

| member | source | states |
|---|---|---|
| Rollout.CalculateMaxUnavailable | internal/controller/rollout.go:20-44 | whatever is configured, the budget is at least one node |
| Rollout.BudgetMeans | internal/controller/rollout.go:20-44 | a number is taken as it is, a percentage is the least number of nodes that makes it up, and anything missing, unreadable or below one is one |
| Rollout.BudgetMonotone | internal/controller/rollout.go:20-44 | a larger pool or a larger percentage, negative ones included, never lowers the budget |
| Rollout.BudgetWithinPool | internal/controller/rollout.go:28-43 | a percentage budget of a non-empty pool is within the pool if and only if it is at most 100 percent |
| Rollout.UpdateBeforeIsTotal | internal/controller/rollout.go:46-69 | the update order is a strict weak order and total on nodes of different names |
| Rollout.SelectNodesForUpdate | internal/controller/rollout.go:114-164 | the loop returns the first free slots' worth of eligible nodes in update order |
| Rollout.SelectionMeetsSpec | internal/controller/rollout.go:114-164 | selected nodes are eligible and distinct, as many as budget and candidates allow, and no eligible node passed over precedes a selected one |
| Rollout.SelectedAreInService | internal/controller/rollout.go:46-164 | on the nodes' own fields: nobody selected is paused, closed, draining, at work or told another revision; the selected and all unpaused nodes in such a state fit the budget; a node passed over meets a used-up budget and selected nodes that are zoned before it, older or first by name |
| Rollout.CollectNodesInProgress | internal/controller/rollout.go:168-192 | exactly the unpaused unavailable nodes that are off target or ready to uncordon, in listing order |
| Rollout.ContinuedMeans | internal/controller/rollout.go:71-192 | on the nodes' own fields: exactly who is continued |
| Nodes.FilterEvictablePods | internal/controller/drain.go:73-109 | the result is exactly the pods a drain must still remove, in order |
| Nodes.DrainedMeans | internal/controller/drain.go:73-109 | a node counts as drained exactly when every pod left on it is going, gone, static, of a DaemonSet or the operator's own |
| NodeUpdate.NodeClient.CordonNode | internal/controller/cordon.go:15-41 | the stored node becomes cordoned and unschedulable, other nodes and fields untouched; nothing on failure |
| NodeUpdate.NodeClient.UncordonNode | internal/controller/cordon.go:43-70 | opens the node and clears cordon and drain marks together, or nothing on failure |
| NodeUpdate.NodeClient.SetDesiredRevision | internal/controller/node_update.go:144-161 | which of desired revision, its time and the pool mark are stored, for every pattern of failing writes |
| NodeUpdate.NodeClient.ProcessNodeUpdate | internal/controller/node_update.go:38-184 | one lifecycle step changes one node, to the state and with the reply the specification of the step gives |
| NodeUpdate.ToldMeans | internal/controller/node_update.go:58-86 | a step tells a node its revision if and only if the node is cordoned, was found drained and has not been told, or is open, untouched by any pool and joins a pool that a revision has succeeded in |
| NodeUpdate.OpenedMeans | internal/controller/node_update.go:88-181 | when a step closes a node, and that it opens only its own cordon on a drained node that is at its target and done |
| NodeUpdate.TellingRecords | internal/controller/node_update.go:144-161 | a node that is told a revision is given the time and the pool with it, as far as those writes succeed |
| NodeUpdate.DrainMarksMean | internal/controller/node_update.go:112-141 | while pods are left a step records the start of the drain, once, and each failed attempt, and moves nothing else |
| NodeUpdate.DrainMarksGo | internal/controller/cordon.go:43-70 | the marks of a drain go when the node is opened |
| NodeUpdate.DrainMarksStay | internal/controller/node_update.go:88-183 | and at no other time; nothing but that uncordon opens a node |
| NodeUpdate.FlagsMean | internal/controller/node_update.go:88-183 | each flag of the reply, from the nodes and the calls: cordoned, drain started, failed, stuck, complete, uncordoned |
| NodeUpdate.RequeueMeans | internal/controller/node_update.go:66-183 | a step asks to come back unless it has just opened its node; after one, five or ten seconds, by what it did |
| NodeUpdate.ProcessedAllPointwise | internal/controller/machineconfigpool_controller.go:272-306 | the loop processes every listed node once, on its own stored state, and leaves the others alone |
| NodeUpdate.WorklistDistinct | internal/controller/machineconfigpool_controller.go:225-240 | nodes in progress and nodes to start never overlap, so the merged list has no duplicates, and the former come first |
| NodeUpdate.AppendMissing | internal/controller/machineconfigpool_controller.go:231-240 | exactly the nodes whose names are not yet listed are appended, in order |
| NodeUpdate.NodeClient.Reconcile | internal/controller/machineconfigpool_controller.go:223-306 | a reconcile works through its worklist as specified and returns the earliest requeue asked for |
| NodeUpdate.EarliestRequeue | internal/controller/machineconfigpool_controller.go:300-305 | the requeue is positive and no later than any node's own positive requeue |
| NodeUpdate.SleepsIffAllOpened | internal/controller/machineconfigpool_controller.go:300-305 | a reconcile asks for no requeue if and only if every node it worked through was opened |
| Protocol.AgentFrame | internal/agent/agent.go:296-476 | no agent step touches the controller's or people's fields, makes an available node unavailable, or creates work that was not there |
| Protocol.WorklistFits | internal/controller/machineconfigpool_controller.go:223-240 | unavailable nodes together with everything a reconcile will touch stay within max(unavailable, budget) |
| Protocol.StepKeepsBound | internal/controller/machineconfigpool_controller.go:225-306 | every step of anybody keeps the claimed set (unavailable or still to be processed) within the bound |
| Protocol.RollingBound | internal/controller/rollout.go:71-192 | over every interleaving, with changing targets, failing writes, crashes, restarts and stale events that meet a still claimed node, unavailable nodes never exceed max(initial, budget) |
| Protocol.StaleEventIsSafeIff | internal/agent/agent.go:224-246 | a stale event keeps the drain guarantee if and only if it starts nothing or its node is still protected and not about to be opened |
| StaleEvents.StaleStepBound | internal/agent/agent.go:224-246 | a step taken from an older copy keeps the count within the bound if and only if it takes no available node or there is room |
| StaleEvents.StaleEventBound | internal/agent/agent.go:224-246 | for an available node and an idle agent: if and only if the copy shows no work or there is room |
| StaleEvents.StaleEventExceedsBudget | internal/agent/agent.go:224-246 | a run from a safe start with budget one in which an agent handles its own earlier event, two nodes end unavailable and one of them is changed while open |
| Protocol.LoopIsARun | internal/controller/machineconfigpool_controller.go:258-306 | the reconcile loop equals the protocol's controller steps taken without interruption |
| Protocol.StepKeepsSafe | internal/controller/node_update.go:88-181 | every step keeps: a node told to leave its revision, or being moved, is cordoned, unschedulable and free of evictable pods (the new-node shortcut apart) |
| Protocol.ApplyOnlyWhenDrained | internal/controller/node_update.go:88-181 | that holds in every cluster any run reaches whose stale events start applies only on nodes still protected |
| Protocol.OnlyJoiningNodesAreExempt | internal/controller/node_update.go:58-86 | over every run, who is exempt from the drain was let in as an open node untouched by any pool, after some revision had succeeded |
| Protocol.FirstRolloutExemptsNobody | internal/controller/node_update.go:62-63 | as long as no revision has succeeded the drain guarantee has no exemption |
| Protocol.FreshClusterIsSafe | internal/controller/cordon.go:43-85 | a cluster with no update in flight is a legitimate start |
| Progress.AgentRoundIsTwoSteps | internal/agent/agent.go:411-476 | an undisturbed apply is the protocol's two agent steps |
| Progress.ContinuedNode | internal/controller/node_update.go:88-183 | a node in progress never moves away from its uncordon, is nearer to it after any round it enters drained, and gets stuck in none |
| Progress.SomethingStarts | internal/controller/rollout.go:114-164 | with nothing in progress and something to do, a reconcile starts a node |
| Progress.RoundProgress | internal/controller/machineconfigpool_controller.go:223-306 | every round with no node stuck lowers (nodes waiting, work begun) lexicographically, leaves none stuck and keeps what the next round needs |
| Progress.RolloutTerminates | internal/controller/rollout.go:114-192 | from any cluster an earlier target left, drains under way included, with no node stuck: every sequence of rounds reaches one at which all nodes are at the target, uncordoned and schedulable |
| Progress.RolloutFinishesIffNoneStuck | internal/controller/rollout.go:114-192 | every sequence of rounds finishes if and only if no node is stuck at its start |
| Rounds.RolloutIsARun | internal/controller/machineconfigpool_controller.go:223-306 | the first n rounds are a run of the protocol, for every n |
| Rounds.RolloutRunEnds | internal/controller/rollout.go:114-192 | so a rollout with no node stuck, as a run of the protocol, reaches a finished cluster |
| Progress.FinishedIsStable | internal/controller/rollout.go:114-192 | a finished rollout stays finished |
| Progress.PickedUpIffDone | internal/controller/cordon.go:76-85 | a cordoned node at its target is continued if and only if its agent reports done |
| Progress.RestartStrands | internal/agent/agent.go:174-177 | a restart that reports idle leaves a node at its target stranded |
| Progress.RollbackStrands | internal/controller/cordon.go:15-85 | a node cordoned for a new target that is then taken back is stuck if and only if its agent does not report done |
| Progress.StrandedForever | internal/controller/rollout.go:168-192 | while the target stays, no run ever uncordons a stranded node, unless an older event of its own sets its agent to work |
| Drain.CalculateRetryInterval | internal/controller/drain.go:263-277 | the configured interval, or the automatic one: at least 30 seconds, and its twelvefold within 12 seconds of the timeout and never past it unless it is those 30 |
| Drain.RetryReply | internal/controller/drain.go:215-258 | stuck exactly from the timeout on; before it the requeue is the interval or what is left of the timeout, whichever is less, but at least 10s, and overshoots the timeout by less than that; without a recorded start it is the interval |
| Drain.StuckBeforeDeadline | internal/controller/drain.go:215-277 | a drain that keeps failing on schedule is reported stuck before the timeout plus 10s |
| Drain.ThirteenRequeues | internal/controller/drain.go:215-277 | with the automatic interval thirteen requeues reach the timeout |
| Merge.MergeConfigs | internal/renderer/merge.go:62-116 | the maps overwritten in order of priority and the sorted slices are the merge, as defined without an order of evaluation |
| Merge.LastListerHasTheSay | internal/renderer/merge.go:73-103 | the last config in merge order that lists a key is the greatest (priority, name) that does |
| Merge.HighestPriorityWins | internal/renderer/merge.go:73-132 | in numbers and names: every merged file, unit and flag is that of the config of highest priority that lists it, the last by name among equals, and the sources are all the configs in that order |
| Merge.SortedSlice | internal/renderer/merge.go:136-170 | however the map is walked, its values come out in strict key order, each once |
| Merge.MergeIgnoresOrder | internal/renderer/merge.go:62-132 | any permutation of the configs merges to the same result, files, units, flags and sources |
| Merge.QuietMerge | internal/renderer/merge.go:84-103 | if the merged reboot flag is false no file and no unit is flagged |
| Rmc.ToCanonical | internal/renderer/hash.go:74-117 | the filled and sorted arrays are the canonical form |
| Rmc.CanonicalKeeps | internal/renderer/hash.go:67-117 | two merged configs hash alike input if and only if files, units and the overall reboot flag agree |
| Rmc.HashInputIgnoresOrder | internal/renderer/hash.go:74-117 | permuted configs give the same hash input |
| Rmc.HashIgnoresRebootFlags | internal/renderer/hash.go:67-71 | two merges with the same hash input and different per-file reboot flags |
| Rmc.NamesInjective | internal/renderer/hash.go:136-138 | names made of pool, ten hex digits and an optional suffix up to 10 tell all three apart |
| Rmc.BuiltMeans | internal/renderer/render.go:57-121 | an RMC carries its merge, hash and name and its pool's reboot policy, and without a pool the strategy Never |
| Rmc.RmcStore.EnsureRMC | internal/controller/machineconfigpool_controller.go:407-496 | which calls must succeed for it to succeed, and then the suffix loop stores exactly the settled object under its name; otherwise it leaves the store alone; if another writer created the object first, that one is taken, whatever its hash |
| Rmc.EnsureIsSafe | internal/controller/machineconfigpool_controller.go:407-496 | the result has the built hash, and no stored object changes its config or hash |
| Rmc.EnsureIsIdempotent | internal/controller/machineconfigpool_controller.go:407-496 | settling twice settles on the same object and leaves the store as it is |
| Rmc.GivesUpIff | internal/controller/machineconfigpool_controller.go:440-470 | no name is found if and only if the plain one and ten suffixed ones are taken by other configs |
| Rmc.PoolsNeverShare | internal/renderer/render.go:57-155 | what a pool settles on was built for that pool, and names stay those of their pool and hash |
| Rmc.RebootPolicyIsFresh | internal/controller/machineconfigpool_controller.go:424-496 | when the settled object carries the pool's current reboot policy, exactly |
| Rmc.RebootFlagsAreFresh | internal/controller/machineconfigpool_controller.go:428-471 | the settled object carries the merge's per-file and per-unit flags if and only if it is new or had them already |
| Diff.DiffItems | internal/agent/diff.go:62-157 | each differing key is reported once, with the right kind, in key order |
| Diff.DiffFiles | internal/agent/diff.go:62-104 | that, for files by path |
| Diff.DiffUnits | internal/agent/diff.go:115-157 | that, for units by name |
| Diff.PatchGivesNew | internal/agent/diff.go:62-157 | applying the reported changes to the current config gives the new one |
| Diff.EqualMeansIdentical | internal/agent/diff.go:159-181 | what the comparison calls equal is identical, and conversely |
| Diff.DiffBasedReboot | internal/agent/reboot_decision.go:121-171 | a reboot is required exactly when a changed key is flagged on the side that owns the change, and the reasons are exactly those changes, files before units, each in key order |
| Diff.DetermineReboot | internal/agent/reboot_decision.go:76-119 | the decision, for all rendered RMCs and all key-unique ones, with its basis and reasons in every case |
| Diff.NeedsRebootMeans | internal/agent/reboot_decision.go:76-171 | in files and units: no reboot at the same revision; what the new RMC asks on a first apply, without the current RMC or without any flags; else one exactly when something flagged in the new config is added or changed, or something flagged in the current one is dropped |
| Diff.RenderedKeysUnique | internal/renderer/merge.go:105-106 | rendered RMCs list no path and no unit twice, which is what the decision needs |
| Diff.BuiltIsRendered | internal/renderer/render.go:57-121 | an RMC built from a merge carries that merge |
| Diff.QuietConfigsNeverReboot | internal/agent/reboot_decision.go:76-171 | between rendered configs neither of which asks for a reboot none is ever required |
| Diff.RequiredAgainstTheFlag | internal/agent/reboot_decision.go:121-171 | a rendered config that asks for no reboot needs one if and only if it drops something flagged in the current one |
| Diff.StaleFlagsDecide | internal/agent/reboot_decision.go:121-171 | agents decide alike with a stored RMC and with the merge, from every current config, if and only if the two agree on every flag |
| Apply.FileIsWholeOrUntouched | internal/agent/files.go:87-194 | whatever goes wrong a file is as it was or as specified; undisturbed it comes to hold, and is touched only if it did not |
| Apply.UnitAgain | internal/agent/systemd.go:85-202 | a unit applied again acts exactly when it restarts or reloads, or both masks and sets enablement |
| Apply.UnitAchieves | internal/agent/systemd.go:85-202 | a unit applied with success is what its spec says in state, enablement and mask; no reported change means none; one that is so already is left alone |
| Apply.UnknownUnitIsLeft | internal/agent/systemd.go:134-200 | stopping, disabling or unmasking a unit the host does not know does nothing |
| Apply.Applier.ApplyConfig | internal/agent/apply.go:81-128 | files by path, then units by name, stopping at the first error, with the counters of what was done; after a success every file and every unit is as specified |
| Apply.FilePassHolds | internal/agent/files.go:87-194 | after success every present file holds its content, every absent one is missing, and the counters sum to the list |
| Apply.FailedFilePassIsPrefix | internal/agent/apply.go:84-103 | on error the files before the failing one hold and nothing after it was touched |
| Apply.UnitPassPointwise | internal/agent/systemd.go:85-132 | every unit ends as its own application leaves it |
| Apply.UnitPassCounts | internal/agent/apply.go:105-124 | every unit counts once, as applied exactly when something was done to it |
| Apply.FailedUnitPassIsPrefix | internal/agent/apply.go:105-124 | on error exactly the units before the failing one went through, each as its own application leaves it, and none after it was touched |
| Apply.ApplyConverges | internal/agent/apply.go:81-151 | after a success all files and units are as specified; a second apply changes nothing exactly when every unit is idempotent, and files never change again |
| AgentMachine.StepKeepsInv | internal/agent/agent.go:411-476 | what every step keeps, retargeting under an apply included: a pending or remembered revision that is desired is held, and a half-done apply has written what it has passed |
| AgentMachine.ReportsAreHonest | internal/agent/agent.go:313-476 | over any run with crashes, reboots, retargeting and refreshed policies anywhere, every reported revision is one whose files the host held at that moment, if desired does not change while a reboot is pending or back to a remembered one, and no overtaken apply ends pending |
| AgentMachine.QuietMachineIsFine | internal/agent/agent.go:152-177 | a host with nothing in flight is a legitimate start |
| AgentLimits.ChangeWhileAwaiting | internal/agent/reboot/handler.go:230-245 | a change of desired leaves all later reports honest, whatever the new revision holds, if and only if no reboot is marked pending and it is not the remembered one; on a paused node or back to the current revision, if and only if no reboot is both marked pending and recorded |
| AgentLimits.ChangeWhileApplying | internal/agent/agent.go:448-465 | the end of an apply leaves all later reports honest if and only if it is still the desired revision's, does not mark its reboot pending, or leaves the agent nothing to do on a host with no recorded reboot |
| AgentLimits.FalseReport | internal/agent/reboot/handler.go:239-242 | a host that, retargeted while it awaits a reboot, reports a revision it does not hold |
| AgentLimits.WritesChangeIffNotHeld | internal/agent/files.go:144-194 | an apply that reaches its end found something to change if and only if some file did not hold |
| AgentLimits.ApplyForgetsIff | internal/agent/agent.go:439-446 | an apply that needs a reboot reports done without one if and only if every file was in place and no unit changed |
| AgentLimits.EndAnswersForReboot | internal/agent/agent.go:448-468 | an apply that changed something and runs to its end reboots, marks the reboot pending or reports an error |
| AgentLimits.CrashForgetsReboot | internal/agent/agent.go:439-446 | after a crash anywhere in an apply the next one forgets the reboot if and only if every file of the desired revision was in place and no unit changes |
| AgentLimits.FailedRebootIsForgotten | internal/agent/agent.go:458-462 | a required reboot that could neither be made nor marked is reported as an error and forgotten by the next apply |
| AgentMachine.RecheckRebootsIff | internal/agent/reboot/handler.go:85-158 | a recheck reboots if and only if the RMC asks for it and it is forced, or the strategy is IfRequired and no reboot is on record, no interval is set or the interval has passed; otherwise it touches only the pending mark |
| AgentMachine.ApplyEndsPostponed | internal/agent/agent.go:448-468 | an apply whose diff-based reboot is not yet allowed ends waiting |
| AgentMachine.PostponedForGood | internal/agent/agent.go:313-327 | while the target stays, a postponed reboot the RMC does not ask for is never made, by time, by force or by a crash and restart of the agent after the mark is written |
| AgentMachine.RebootsAreSpaced | internal/agent/reboot/handler.go:124-196 | two consecutive reboots are more than the interval less one second apart, however RMCs and policies change while every policy asks for the interval |
| AgentMachine.FullIntervalIffWholeSecond | internal/agent/reboot/state.go:69-90 | the full interval is kept after a reboot if and only if it fell on a whole second |
| AgentProcess.Agent.HandleNodeUpdate | internal/agent/agent.go:296-342 | which steps of the machine the handler takes, determined by the state before it and the outcome of its calls, and that each is possible |
| AgentProcess.Agent.ApplyConfig | internal/agent/agent.go:411-476 | so for the apply, from the announcement (which may fail, and then nothing happens) to the report, with the whole state it leaves |
| AgentProcess.WritesAreThePass | internal/agent/apply.go:84-103 | the machine's file writes, one step each, are the file pass of module Apply |
| AgentProcess.AppliedHolds | internal/agent/agent.go:411-476 | once all files went through the host holds the revision, and it is reported as current and done exactly when the units went through, no reboot is owed and the report got out |
| AgentProcess.WorkGetsDone | internal/agent/agent.go:296-342 | an event is passed over exactly when there is no work or a needed call fails; work met at rest with no reboot awaited gets the revision onto the host |
| AgentProcess.Agent.RebootIfAllowed | internal/agent/reboot/handler.go:85-158 | the reboot policy as written does what the machine's rule says, and fails when it says |
| AgentProcess.Agent.RunReboot | internal/agent/reboot/handler.go:166-196 | which marks a reboot leaves, for every pattern of failing writes |
| AgentProcess.Agent.CheckRebootPending | internal/agent/reboot/handler.go:207-251 | the pending mark is cleared exactly when a recorded reboot is seen to have happened |
| AgentProcess.Agent.Start | internal/agent/agent.go:152-177 | startup is one step of the machine, or two when the awaited reboot is seen to have happened |
| AgentProcess.StartedByParts | internal/agent/reboot/handler.go:207-251 | the startup check, taken part by part, is the machine's startup followed by its report |
| Refinement.StepMatches | internal/agent/agent.go:296-476 | every step of agent and host is a step of the protocol's agent on the node's annotations and memory, or none |
| Refinement.HandlerIsARun | internal/agent/agent.go:296-476 | one handler is a run of the cluster protocol |
| System.SystemIsARun | internal/agent/agent.go:152-246 | controller, pods, people who force a reboot and one machine per node, interleaved in any order: every run is a run of the protocol |
| System.SystemIsBoundedAndSafe | internal/controller/rollout.go:71-192 | so the bound and the drain guarantee hold of the whole system |
| Protocol.ControllerLeavesFaces | internal/controller/node_update.go:38-184 | a lifecycle step writes no annotation that an agent writes |
| NodeStore.EditIsAPatch | internal/controller/cordon.go:15-121 | a whole-object edit is, on the object it was made from, a patch of its own keys |
| NodeStore.AgentWriteReads | internal/agent/nodewriter.go:47-107 | what reads back after each agent write, state and revision of a report together, and that no other key changes |
| NodeStore.EditReads | internal/controller/cordon.go:15-121 | what reads back after each controller edit, whether or not there was anything to write |
| NodeStore.NoLostUpdate | internal/controller/cordon.go:15-121 | every interleaving of version-checked updates and merge patches ends where the effective writes, one at a time, end |
| NodeStore.NeitherOverwrites | internal/agent/nodewriter.go:80-120 | after any interleaving the agent's keys read as if only the agent wrote, the controller's as if only the controller did |
| NodeStore.WritersKeepToTheirKeys | internal/agent/nodewriter.go:47-107 | agent patches and controller edits stay within disjoint sets of keys |
| NodeStore.UncheckedUpdateIffUntouched | internal/controller/cordon.go:18-40 | without the version check a whole-object update would be the edit it means if and only if nothing outside its keys was written since the read |
| Status.CountsFit | internal/controller/status.go:57-132 | ready ≤ updated ≤ total, updating + degraded ≤ unavailable, ready + unavailable ≤ total |
| Status.AllReady | internal/controller/status.go:86-110 | all ready means all updated, none updating, degraded or unavailable |
| Status.DegradedMeans | internal/controller/status.go:92-149 | somebody is degraded if and only if an agent reports an error, or has been applying for longer than the timeout (ten minutes by default) since its node was told |
| Status.ComputeCurrentRevision | internal/controller/status.go:151-178 | a most frequent revision: the target if it is one, else the smallest; the target when there is none |
| Status.CurrentRevisionIsDetermined | internal/controller/status.go:151-178 | map iteration order does not matter to it |
| Status.ConditionsTellTheTruth | internal/controller/status.go:180-277 | after an update every condition is True exactly when it is due; Degraded exactly when a node is degraded, the pool overlaps or a drain is stuck |
| Status.ReasonsAreTrue | internal/controller/status.go:180-277 | the reason of every reported condition is the one that holds |
| Status.TimesAreKept | internal/controller/status.go:305-330 | every type but Degraded keeps its transition time while its status stays, and takes the present one otherwise |
| Status.DegradedTimeIsKeptUnlessReraised | internal/controller/status.go:466-493 | with its status unchanged Degraded keeps its time if it did not stand or a node is degraded, and takes the present one otherwise |
| Status.ReportingAgain | internal/controller/machineconfigpool_controller.go:331-359 | reporting the same again changes no condition but Degraded |
| PoolStatus.AggregateStatus | internal/controller/status.go:57-149 | the loop's counts, current revision and timed-out nodes are those of the node list |
| PoolStatus.MergeConditions | internal/controller/status.go:305-330 | types stay unique, new conditions win with kept times, old ones of other types stay |
| PoolStatus.Pool.SetCondition | internal/controller/status.go:451-462 | one type is replaced or added, its time kept while its status stays |
| PoolStatus.Pool.ApplyStatus | internal/controller/status.go:280-303 | counts and revisions are stored; the last successful revision moves only on a complete rollout without pending reboots |
| PoolStatus.Pool.ApplyOverlapCondition | internal/controller/status.go:392-415 | the overlap condition and, if there is an overlap, Degraded |
| PoolStatus.Pool.SetDrainStuckCondition | internal/controller/node_update.go:187-239 | DrainStuck and Degraded are raised |
| PoolStatus.Pool.ClearDrainStuckCondition | internal/controller/node_update.go:241-262 | DrainStuck is lowered and nothing else changes |
| PoolStatus.Pool.UpdateStatus | internal/controller/machineconfigpool_controller.go:331-358 | the whole status update: fitting counts, unique types, and the table of conditions the theorems above are about |
| Overlap.DetectPoolOverlapFromLists | internal/controller/overlap.go:108-136 | the conflicting nodes are exactly those two pools claim, each with exactly its pools, sorted |
| Overlap.FilterNonConflictingNodes | internal/controller/overlap.go:151-163 | exactly the uncontested nodes in order; all of them if detection failed |
| Overlap.GetConflictsForPool | internal/controller/overlap.go:49-61 | exactly the contested nodes of the pool, sorted |
| Overlap.OverlapIsShared | internal/controller/overlap.go:49-136 | a pool reports an overlap exactly when another pool claims one of its nodes |
| Overlap.ExclusiveOwnership | internal/controller/machineconfigpool_controller.go:103-144 | two pools write to disjoint sets of nodes if and only if detection succeeded or they share no node |
| Debounce.DebounceState.CheckAndUpdate | internal/controller/debounce.go:49-79 | the reply is the one the pool's history of calls gives, and other pools are untouched |
| Debounce.DebounceState.Reset | internal/controller/debounce.go:82-88 | the pool starts over, others are untouched |
| Debounce.ProceedsIffSteady | internal/controller/debounce.go:49-79 | a call proceeds if and only if some call of the pool is at least the debounce old and all since carried the same two hashes |
| Debounce.RequeueIsEnough | internal/controller/debounce.go:63-75 | the same call repeated no sooner than the returned requeue proceeds, whatever other pools do |
| Debounce.RequeueIsNeeded | internal/controller/debounce.go:63-75 | repeated any sooner it is held back again |
| Cleanup.GetRevisionsInUse | internal/controller/cleanup.go:97-117 | exactly the target and the non-empty current and desired revisions |
| Cleanup.RmcCleaner.CleanupOldRMCs | internal/controller/cleanup.go:46-84 | what is deleted, for every limit, listing and pattern of failing deletions |
| Cleanup.SweepIsCleanup | internal/controller/cleanup.go:64-83 | any arrangement by age, swept as the loop does, deletes only unused ones, oldest first, down to max(limit, in use) |
| Retention.DeletedStaysUnwanted | internal/controller/cleanup.go:63-117 | a deleted RMC is never again any node's desired or current revision while the target stays, in any run, stale events of any age included as long as fetching a deleted RMC fails, unless an agent was applying it when it went |
| Retention.AtWorkReportsDeleted | internal/agent/agent.go:470-473 | the exception: an agent at work on it goes on to report it |
| Cleanup.CleanupIsDetermined | internal/controller/cleanup.go:64-83 | without ties in age the outcome does not depend on the sort |

## Left out

- Kubernetes client, watch, list, retry and backoff: a read or write succeeds or fails, as parameters say; a retried update is a further attempt of `NodeStore`.
- Lagging caches: listings and the pod reads of a drain check are taken as current. The manager's default client reads a cache; with a lagging one a reconcile may start a node the budget has no room for, or take a node for drained that is not, so both the bound and the drain guarantee can fail.
- System.SystemIsARun: the machines decide from the live node; stale events are steps of the protocol (StaleStep) but not of the machines, and not of the rounds of Progress and Rounds.
- Agent startup against a moving target: in the protocol a startup is one step, so the desired revision does not change between the startup check and its report.
- Protocol.RollingBound: people do not pause, unpause or cordon by hand during a run, and no node joins or leaves.
- Progress.RolloutFinishesIffNoneStuck, Progress.RolloutTerminates: within a round agents neither fail nor reboot, API calls other than evictions succeed, and no restart falls between a report and its uncordon (what such a restart does: Progress.RestartStrands).
- AgentMachine.ReportsAreHonest: the catalogue grows and its policies change; RMCs deleted under a running apply are in Retention.AtWorkReportsDeleted.
- Refinement.HandlerIsARun: unit passes and reboot decisions enter as their outcomes, which module Apply and module Diff describe.
- Nodes deleted during a reconcile: the model's node set is fixed, and a per-node write to a missing node does nothing.
- SHA-256 and JSON: an uninterpreted function of the canonical form whose value is a fixed-length lower-case hex string.
- Rmc.EnsureIsSafe, Rmc.PoolsNeverShare and the rest of the RMC identity: one controller writes RMCs; what an object created in between does is in the contract of Rmc.RmcStore.EnsureRMC.
- Collision freedom of the full hash: RMCs are the same when their full hashes are, as in the program.
- File mode and owner: files are compared and written by content, so nothing is claimed of mode or owner after an apply; paths are taken as already clean.
- Temporary files, chroot, chown, D-Bus, systemctl and the reboot command: foreign calls that succeed or fail.
- Units that change state by themselves: unit states are what the program reads and sets.
- A host on which the boot marker survives a reboot, or the last-reboot file does not.
- Percentages: the ceiling is exact, not computed in floating point, which agrees while node count times percentage stays far below 2^53; the text of a percentage is taken as parsed.
- Several clock readings within one status update (one is taken), condition messages and observed generations.
- Overlap.ExclusiveOwnership: both pools see the same listing; label selectors are an arbitrary relation between nodes and pools.
- Render failures: SetRenderDegradedCondition and ClearRenderDegradedCondition, whose effect the later status update replaces.
- SetDrainingCondition, ClearDrainingCondition, CleanupLegacyConditions, CleanupOrphanedRMCs, DryRun: more of the same kind and easier.
- Update cancellation, the RMC cache, the node annotator, the validator, metrics, events, logging and command lines.
