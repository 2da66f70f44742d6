# A verified model of the kubehz agent

The agent watches a Kubernetes cluster, sends a heartbeat to the platform, pulls a desired-state
document and, where the server allows it, acts: it patches replica counts and kubelet versions, deletes
unhealthy worker machines and force-deletes the pods that keep a deleted machine from going away. This
project models the parts of it in which many guardrails interact over time, and proves what they
guarantee over whole runs, against a cluster, a server, a clock and a network that may do anything
between two steps. `dafny verify dfyconfig.toml` checks all of it.

## How the model is laid out

Every operation that works by changing things is a method on a class with the program's own fields,
written with the program's own loops and branches, and proved equal to a function of its inputs and the
old state. Everything that is then guaranteed is proved about those functions. The guarantees are stated on
the documents, listings and answers themselves: a deployment's labels and annotations, a node's readiness
and its age in seconds, the numbers in a version. What a pass does is given both ways, as what every one of
its writes implies and as what makes it happen (`ScalingLaws.ScaledIff`, `RolloutExact.KubeletPatchedIff`,
`HealingLaws.DeletedIff`, `Unwedge.SweepExact`, and for a whole call `ReconcileLaws`).

| part | files |
|---|---|
| cluster objects, documents, refusal tests | `Fleet`, `FleetLaws`, `Versions`, `PoolResolution` |
| report store | `ActionStore`, `ScalingReports` |
| executor passes as functions | `Scaling`, `Rollout`, `Unwedge`, `Healing`, `ExecutorSpec` |
| executor object | `Executor` |
| what one pass guarantees | `Scaling`, `ScalingLaws`, `RolloutLaws`, `RolloutExact`, `Unwedge`, `HealingLaws`, `ReconcileLaws` |
| what whole runs guarantee | `RolloutRuns`, `RolloutSafety`, `RolloutFinish`, `RolloutTargets`, `HealMonitor`, `ExecutorRuns` |
| pull loop and conditional GET | `DesiredClient`, `Poller`, `PollerLaws` |
| heartbeat delivery | `Backoff`, `Coalescer`, `Sender`, `SenderLaws` |
| inventory mirror | `Json`, `Text`, `Inventory`, `InventoryManager` |
| report shaping | `MachineIssues`, `MachineIssuesLaws`, `PayloadCaps` |
| shared | `Common`, `Ordering` |

The executor keeps a ghost trace of everything it does to the outside: report-store calls, API writes
with the answer each got, and two markers (a listing read by the healer, an unwedge attempt). The store
always holds what the trace replays to. Every API call is answered by an oracle: accepted, not found,
conflict, forbidden, or failed with or without having taken effect. Map iteration order, the clock,
random jitter, the network and the other goroutines' steps are likewise arbitrary inputs.

The healer's guarantees over runs go through a monitor (`HealMonitor`): it rebuilds the healer's memory
from the trace alone and says which events it allows. `ExecutorRuns.RunFollows` shows that every run is
accepted and that the monitor ends up with exactly the executor's maps; cooldown and one-shot unwedge
are then laws about accepted traces.

The rollout laws are about runs whose steps are the three stages of Reconcile calls
(`RolloutRuns.ReconcileIsThreeStages`): a stage lists the cluster, the environment may move on, and then
its writes land, as far as they take effect. What the laws need of a stage is `RolloutRuns.StageBehaves`.

The sender is a machine over the atomic steps of its goroutine and the enqueuer's. `Sender.Sender.Run`,
with the program's nested loop, is proved to take only steps of that machine, whatever the schedule. The
inventory manager's two goroutines interleave in the same way, a poll as its GET and its take-over, a
verdict as its check, patch and record.

## Where the code and its documentation differ

The model follows the code. Where an input contradicts the documentation, the lemmas name it and prove
exactly when the documented behaviour holds.

- A machine's own control-plane labels are looked at only while it has no node
  (`internal/executor/heal.go:164`, not `:173-192`): `HealingLaws.ControlPlaneLabelGap`,
  `HealingLaws.LabelledCandidateIff`, `HealingLaws.DeletedIff`.
- The repository's own `README.md:306-308` says that a 4xx clears the reports; the poller acts on nothing
  and clears nothing: `PollerLaws.RejectionKeepsReports`, `PollerLaws.RejectionActsOnNothing`.
- "One pool rolls at a time" (`internal/executor/upgrade.go:116-118`) constrains the rolling stage. The
  scaling stage that runs just before it can un-converge several pools at once, because progress is
  floored at the declared replicas (`:298-300`), and so can the healer:
  `RolloutSafety.ScalingUnconvergesTwo`, `RolloutSafety.DeletionUnconverges`, with the exact condition
  `RolloutSafety.OneRollAtATimeIff` and `RolloutSafety.CleanScaleShort`, and bounds that hold before any
  stage, `RolloutSafety.ScaleBound` and `RolloutSafety.HealBound`.
- It is also relative to the current target: a pool still rolling to an older one is not counted
  (`internal/executor/upgrade.go:125-132`): `RolloutTargets.ChangedTargetRollsTwo`, with the exact
  condition `RolloutTargets.OneRollAcrossTargetsIff` and what the next roll will do,
  `RolloutTargets.NextRollLeaves`. Changing the target only while every pool has settled is one way to
  meet it, `RolloutTargets.OneRollAcrossTargets`.
- `internal/executor/executor.go:341` sets every valid pool back to pending first, so repeating a pass
  with identical outcomes does notify, although `internal/actions/store.go:61-63` promises it does not:
  `ScalingReports.RescaleSilentIff`, `ScalingReports.RepeatedPassSilentIff`.
- `internal/publisher/sender.go:136` says that a wake during a backoff means a newer payload; a wake left
  over from the payload just taken causes an immediate retry of that same payload:
  `SenderLaws.StaleWakeRetriesAtOnce`, `SenderLaws.EarlyRetryIsNewerIff`; each Enqueue can do so at most
  once, `SenderLaws.EarlyRetriesBounded`.
- `internal/publisher/debounce.go:14-15` calls Debounce a quiet period; it is measured from the oldest
  change, so further changes do not postpone the push: `Coalescer.BusyPush`, `Coalescer.QuietIff`,
  `Coalescer.ChangeServed`.
- A poll whose GET is overtaken by a status write, and a write that takes effect although it is reported
  as failed, both leave a stale baseline that can swallow a verdict until the next poll:
  `InventoryManager.OvertakenPollSwallows`, `InventoryManager.LostAcknowledgementSwallows`, with the exact
  conditions `InventoryManager.TakeOverMirrorsIff` and `InventoryManager.VerdictMirroredIff`.
- An event with an empty reason bypasses the guard against empty reasons
  (`internal/machineissues/collector.go:187-189`, not on the path at `:238-256`):
  `MachineIssuesLaws.ReasonlessExample`, `MachineIssuesLaws.ReasonlessIff`.

## Model

| member | source | states |
|---|---|---|
| `HealingLaws.DisruptionBudget` | internal/executor/heal.go:204-250 | after any pass the number of deleting machines is at most max(number before, maxUnhealthy), counting deletions that took effect although the call failed; with more sick machines than maxUnhealthy nothing is attempted |
| `HealingLaws.CandidatesAreTheSick` | internal/executor/heal.go:141-194 | the candidates are exactly the live unlabelled machines without a node for at least the configured seconds and a minute, and the last live machines behind a worker node not Ready for at least the configured seconds and a minute, each once, in name order, with its owner and its cause |
| `HealingLaws.RemediationSound` | internal/executor/heal.go:217-250 | a deleted machine was live and listed, has a resolved owner that may be acted on, and had been without a node, or behind a worker node not Ready, for at least the configured seconds and for a minute; the deletion carries the document's cooldown |
| `HealingLaws.RemediationComplete` | internal/executor/heal.go:205-250 | with slack in the budget, eligible distinct pools, served cooldowns and an API that answers every sick machine is deleted in this pass |
| `HealingLaws.HealReportsMatchPass` | internal/executor/heal.go:196-284 | after a pass each sick machine has its one heal entry, none is in progress, unfinished entries are about sick machines only, finished ones survive, other kinds are untouched |
| `HealingLaws.LabelledCandidateIff` | internal/executor/heal.go:156-192 | a machine with control-plane labels is among the candidates exactly when it is the last live machine naming a node without such labels that has been down for the configured seconds and a minute |
| `HealingLaws.DeletedIff` | internal/executor/heal.go:196-250 | a pass attempts a candidate exactly when there are no more sick machines than maxUnhealthy and, after the deletions made before its turn, none has failed, its pool may be acted on, there is room under the limit and its cooldown is served |
| `HealingLaws.PassExact` | internal/executor/heal.go:196-284 | a pass event by event: the listing read, the sweep, one refusal per candidate exactly with more sick machines than maxUnhealthy and else one turn per candidate, and the prune; a turn is a deletion with its reports or the one reason that holds the candidate back |
| `HealingLaws.ControlPlaneLabelGap` | internal/executor/heal.go:173-192 | a concrete control-plane-labelled machine that a pass deletes |
| `HealingLaws.DeletionFate` | internal/executor/heal.go:255-273 | the outcome recorded for a deletion is the one the API gave for that very candidate |
| `ExecutorObject.Executor.CountInFlight` | internal/executor/heal.go:125-139 | counts every deleting machine and indexes live machines by node, the last one winning |
| `ExecutorObject.Executor.AddCandidate` | internal/executor/heal.go:144-152 | a machine becomes a candidate once, nameless ones never, with the owner the resolver finds |
| `ExecutorObject.Executor.Detect` | internal/executor/heal.go:141-194 | both detection loops compute the candidates, in name order |
| `ExecutorObject.Executor.Remediate` | internal/executor/heal.go:255-284 | the trace, the cooldown map and the tracking map after one deletion, for every answer |
| `ExecutorObject.Executor.TreatOne` | internal/executor/heal.go:219-250 | the guardrails in their order decide one candidate and update budget, in-flight count and halt flag |
| `ExecutorObject.Executor.TreatEach` | internal/executor/heal.go:215-250 | the loop over the candidates equals its specification, starting from what is already in flight |
| `ExecutorObject.Executor.RefuseAll` | internal/executor/heal.go:204-213 | the storm brake refuses every candidate and deletes nothing |
| `ExecutorObject.Executor.HealPass` | internal/executor/heal.go:89-251 | the whole pass, sweep first, prune last, for the map order that happened |
| `ExecutorObject.Executor.StuckPodsOn` | internal/executor/unwedge.go:140-163 | the terminating pods of the node, sorted and cut |
| `ExecutorObject.Executor.UnwedgeOne` | internal/executor/unwedge.go:169-218 | deletes pod by pod, stops at the first Forbidden, and reports the counts |
| `ExecutorObject.Executor.VisitOne` | internal/executor/unwedge.go:94-135 | one tracked machine is forgotten, left alone or attempted, in the code's order of checks |
| `ExecutorObject.Executor.UnwedgePass` | internal/executor/unwedge.go:79-136 | visits every tracked name once, in some order, and leaves the sweep's tracking and trace |
| `Unwedge.StuckPodsBounded` | internal/executor/unwedge.go:140-163 | only pods already terminating on that node are in reach, at most 100, none exactly when there is none |
| `Unwedge.StuckPodsAreFirst` | internal/executor/unwedge.go:145-162 | in order of namespace and name; with more than 100 the first 100 are kept and none is dropped otherwise |
| `Unwedge.ForbiddenStops` | internal/executor/unwedge.go:191-201 | nothing is deleted after a Forbidden answer |
| `Unwedge.SweepIsOrderIndependent` | internal/executor/unwedge.go:94-135 | what stays tracked does not depend on the map's iteration order |
| `Unwedge.SweepSound` | internal/executor/unwedge.go:94-135 | every attempt is for a tracked, never attempted, timed-out deletion of a listed machine still going away, whose listed node is not Ready and holds a terminating pod; every deleted pod is one of those |
| `Unwedge.SweepExact` | internal/executor/unwedge.go:94-135 | conversely every such deletion is attempted, as a whole, in that pass; what stays tracked are the deletions still going away, with the attempted ones marked |
| `Unwedge.AttemptRun` | internal/executor/unwedge.go:169-218 | an attempt is the marker, the force-deletions up to the first Forbidden answer, and one report with how many pods went, how many failed and after how many seconds |
| `HealMonitor.Cooldown` | internal/executor/heal.go:238-241 | in an accepted trace a deletion comes at least its cooldown after every earlier success of the pool and after the baseline |
| `HealMonitor.AttemptJustified` | internal/executor/unwedge.go:79-136 | an attempt goes back to one accepted deletion, seen deleting in every listing since, never repeated or attempted before, at least the timeout ago |
| `HealMonitor.OneAttemptPerDeletion` | internal/executor/unwedge.go:72-72 | between two attempts on one machine name lies another accepted deletion |
| `HealMonitor.PodJustified` | internal/executor/unwedge.go:169-190 | a force-deleted pod was terminating on the node of a deleted and attempted machine |
| `HealMonitor.NeverOverwritten` | internal/executor/heal.go:271-276 | between two deletions of one name the healer saw that name not deleting, so a live entry is never overwritten |
| `ExecutorRuns.RunFollows` | internal/executor/executor.go:227-258 | every run of Reconcile calls is accepted by the monitor, which ends with the executor's own maps |
| `ExecutorRuns.RunCooldown` | internal/executor/heal.go:238-241 | per-pool cooldown over every run and any clock, even one that runs backwards |
| `ExecutorRuns.LastHealMonotone` | internal/executor/heal.go:288-293 | a pool's last remediation time never decreases |
| `ExecutorRuns.RunUnwedge` | internal/executor/unwedge.go:79-136 | at most one unwedge per accepted deletion, at least the eviction timeout after it, in every run |
| `ExecutorRuns.RunUnwedgeCircumstances` | internal/executor/unwedge.go:94-163 | at every attempt of every run the machine was listed as going away, its tracked node was listed and not Ready, a terminating pod was listed there, and the timeout had passed; every force-deleted pod was listed, terminating, on that node |
| `ExecutorRuns.RunForceDeletes` | internal/executor/unwedge.go:169-218 | every pod force-deleted in any run was terminating on the tracked node of a machine this agent deleted |
| `ExecutorRuns.RunNeverOverwrites` | internal/executor/heal.go:271-276 | in no run does a deletion overwrite a live tracking entry |
| `ExecutorRuns.RunDisruptionBudget` | internal/executor/heal.go:196-250 | in every run, after every turn that reads its inputs, at most max(before, maxUnhealthy) machines are deleting |
| `ExecutorRuns.RunRemediationSound` | internal/executor/heal.go:141-250 | every machine deleted in any run had been without a node, or behind a node not Ready, for the configured seconds and a minute by what its own turn read, with both healing bits set |
| `ExecutorRuns.RunAuthorised` | internal/executor/executor.go:227-258 | every event of every run is authorised by the flags and numbers of its own turn's document |
| `ExecutorRuns.RunScalingSound` | internal/executor/executor.go:327-404 | every replica patch of any run went with the scaling flag to a pool of its turn's document, with its number in range, to a deployment listed under its valid name that may be acted on and declared another number |
| `ExecutorRuns.RunUpgradeSound` | internal/executor/upgrade.go:121-177 | every kubelet patch of any run went with the upgrade flag to the document's target, with an observed (major, minor) not behind the target's |
| `ExecutorRuns.TurnAuthorised` | internal/executor/executor.go:227-258 | a turn stamps the store first, or clears it and does nothing else when every flag is off |
| `ExecutorRuns.RunStamped` | internal/executor/executor.go:227-258 | across all Reconcile calls keys stay unique and every item carries the store's revision, that of the last acted document |
| `ExecutorRuns.RunHealReports` | internal/executor/heal.go:196-284 | the heal entries after a healing turn of any run match that turn's sick machines |
| `ExecutorObject.Executor.Reconcile` | internal/executor/executor.go:227-258 | scale, roll, heal, each behind its flag; memory, retry answer and trace equal the specification |
| `ReconcileLaws.StagesInOrder` | internal/executor/executor.go:227-258 | memory, retry answer and events of a call are those of its stages, each behind its own flag and in the order scale, roll, heal; with every flag off it only clears |
| `ReconcileLaws.PatchesIff` | internal/executor/executor.go:227-258 | a call sends exactly the replica and version patches that its document, its listings and the answers call for |
| `ReconcileLaws.HealsIff` | internal/executor/executor.go:227-258 | and exactly the deletions and unwedge attempts its readings call for, when both healing bits are set and everything was read |
| `ReconcileLaws.HealingAlwaysRetries` | internal/executor/executor.go:253-257 | with both healing bits set a call asks to be run again, whatever it read and did |
| `ReconcileLaws.RetryIff` | internal/executor/executor.go:244-257 | it does so exactly then, or when scaling could not list or had a patch not accepted, or rolling could not list, waits for the control plane, or has a pool to start or still rolling |
| `ExecutorObject.Executor.BeginOrClear` | internal/executor/executor.go:231-243 | the store is begun exactly when some pass will act, cleared otherwise |
| `ExecutorObject.Executor.constructor` | internal/executor/executor.go:187-216 | empty maps, the construction time as cooldown baseline, and the default eviction timeout |
| `ExecutorObject.Executor.ScaleOne` | internal/executor/executor.go:327-404 | the report sequence, the one patch and the outcome of one pool, for every answer |
| `ExecutorObject.Executor.ScalePools` | internal/executor/executor.go:262-314 | the pass over the pools in name order with halt and retry |
| `ExecutorObject.Executor.ReportCannotList` | internal/executor/executor.go:280-288 | a failed listing fails every pool of the pass |
| `Scaling.ScaleConverges` | internal/executor/executor.go:262-314 | a fault-free pass leaves every acceptable pool at its number and everything else untouched |
| `Scaling.ScaleIdempotent` | internal/executor/executor.go:364-370 | on the cluster it leaves, the next pass writes nothing |
| `Scaling.ScaleHaltsAtFirstFailure` | internal/executor/executor.go:294-313 | a pass is an acted prefix up to the first transient failure, then only pending; retry is asked exactly then |
| `Scaling.ScaleAllEvents` | internal/executor/executor.go:327-404 | a replica patch goes only to a pool of the pass, with its number in range, to a deployment listed under its valid name that may be acted on and declares another number |
| `Scaling.JudgeIff` | internal/executor/executor.go:327-370 | a pool is patched exactly when its valid name lists a deployment that may be acted on with another number and its own is in range, and let be exactly when that number is declared |
| `ScalingLaws.ScaledIff` | internal/executor/executor.go:262-314 | exactly the scalable pools of the pass are patched, up to and including the first patch not accepted; that one, or a listing that failed, asks for a retry |
| `ScalingLaws.TurnExact` | internal/executor/executor.go:294-404 | a pass is one turn per pool: queued behind a failure, silent, refused for the reason that holds, confirmed, or patched with its reports |
| `ScalingLaws.PassPoolsAreFirst` | internal/executor/executor.go:262-274 | the pools of a pass come in name order, all of them or the first 100 |
| `Scaling.PatchedAtMostOnce` | internal/executor/executor.go:364-370 | over any passes of one revision without outside edits a pool is patched with effect at most once |
| `ScalingReports.DoneIsTrue` | internal/executor/executor.go:364-403 | whatever fails along the way, a pool last reported done is at its desired number when the pass ends |
| `ScalingReports.RescaleSilentIff` | internal/executor/executor.go:327-404 | repeating any pool, with any outcome, leaves the reports as they are, but silently only without a valid name |
| `ScalingReports.RepeatedPassSilentIff` | internal/executor/executor.go:262-314 | repeating a whole pass with the same listing and answers leaves the store as it is, and is silent exactly when the listing fails or no pool of the pass has a valid name |
| `ExecutorObject.Executor.RollProgress` | internal/executor/upgrade.go:284-302 | counts the pool's live machines and those at target with a node, floored at the declared replicas |
| `Rollout.RollProgressMeans` | internal/executor/upgrade.go:284-302 | n <= m, and n = m exactly when every live machine of the pool is at target and joined and they number at least the declared replicas |
| `RolloutExact.CountIs` | internal/executor/upgrade.go:284-302 | the counts are numbers of listed machines: live ones of the pool, and those of them on the version with a node |
| `ExecutorObject.Executor.DeriveFromVersion` | internal/executor/upgrade.go:307-327 | the loop computes the recovered version |
| `Rollout.DeriveFromMeans` | internal/executor/upgrade.go:307-327 | it is that of the least-named machine still on another version, else the target |
| `ExecutorObject.Executor.ObservePools` | internal/executor/upgrade.go:116-138 | every desired pool's status, whether one is mid-roll anywhere, and whether one needs rolling |
| `ExecutorObject.Executor.AbortUpgrade` | internal/executor/upgrade.go:147-175 | a failed pre-flight fails every existing pool not at target and patches none |
| `ExecutorObject.Executor.PatchKubelet` | internal/executor/upgrade.go:239-278 | one patch, its reports, and the remembered pre-roll version exactly on success |
| `ExecutorObject.Executor.RollOne` | internal/executor/upgrade.go:181-232 | one pool in the acting phase, every branch |
| `ExecutorObject.Executor.RollPools` | internal/executor/upgrade.go:179-234 | the acting phase, one pool at a time, halting on failure |
| `ExecutorObject.Executor.UpgradePools` | internal/executor/upgrade.go:64-235 | the whole pass, including the early exits and the pre-flight |
| `RolloutLaws.PatchImpliesPreflight` | internal/executor/upgrade.go:121-177 | at most one patch attempt, only with both versions readable and the observed (major, minor) not behind the target's, to an existing manageable pool of another known version, with nothing mid-roll |
| `RolloutExact.PreflightIff` | internal/executor/upgrade.go:146-177 | it proceeds exactly when both versions are readable and the control plane is not behind; otherwise it says which of the three it was, and waits unless the target is unreadable |
| `RolloutExact.PreflightOnPrinted` | internal/executor/upgrade.go:156-175 | for any printed versions it proceeds exactly when the observed (major, minor) is at least the target's |
| `RolloutExact.KubeletPatchedIff` | internal/executor/upgrade.go:64-235 | the patch sent is that of the first pool in name order whose deployment may be acted on and declares another version, exactly when the listings are readable, no pool of the pass is still rolling and the pre-flight lets it pass |
| `RolloutExact.RollRetryIff` | internal/executor/upgrade.go:64-235 | a pass asks to be run again exactly when it cannot list, waits for the control plane, or has a pool to start or still rolling |
| `RolloutExact.TurnExact` | internal/executor/upgrade.go:179-278 | past the pre-flight a pass is one turn per pool: started, queued, refused, mid-roll, done exactly when all its machines have joined on the target and its roll was seen; and the versions remembered |
| `RolloutExact.PassExact` | internal/executor/upgrade.go:140-177 | behind it one failure, with its reason, for each listed pool not at the target and nothing else |
| `RolloutExact.RollPoolsAreFirst` | internal/executor/upgrade.go:73-84 | the pools of a pass are the validly named ones in name order, all of them or the first 100 |
| `RolloutExact.TargetTrims` | internal/executor/upgrade.go:65-71 | the target is the declared version without surrounding white space |
| `RolloutLaws.FirstStartablePatched` | internal/executor/upgrade.go:224-231 | with nothing mid-roll the pass gets to the first startable pool and patches it |
| `RolloutRuns.ReconcileIsThreeStages` | internal/executor/executor.go:244-257 | what a Reconcile call does to the cluster is what its scaling, rolling and healing stages do, in that order |
| `RolloutRuns.StageBehaves` | internal/executor/upgrade.go:121-232 | a scaling stage writes replica counts only, a rolling stage at most one kubelet patch, to the target, of a startable desired pool with nothing mid-roll, a healing stage neither |
| `RolloutSafety.OneRollAtATimeIff` | internal/executor/upgrade.go:116-138 | over runs of stages and environment moves, every state has at most one desired pool at target but unconverged exactly when every scaling and healing stage leaves at most one such pool with fewer joined machines at target than live ones or than its declared number |
| `RolloutSafety.ShortfallExact` | internal/executor/upgrade.go:284-302 | the pools mid-roll after a scaling or healing stage are exactly those the document, the listing and the answers show to be short |
| `RolloutSafety.NumberIsTheDocuments` | internal/executor/executor.go:372-404 | where a replica patch took effect, the number declared after the stage is the document's |
| `RolloutSafety.CleanScaleShort` | internal/executor/executor.go:294-313 | after a fault-free scaling stage they are exactly those the document and the listing alone show to be short |
| `RolloutSafety.ScaleBound` | internal/executor/upgrade.go:284-302 | whatever the answers, a scaling stage leaves short only pools at the target with fewer joined machines there than live ones, than the listed number or than the document's; with at most one of those before the stage, at most one is short after it |
| `RolloutSafety.HealBound` | internal/executor/heal.go:141-250 | whatever the answers, a healing stage leaves short only pools at the target that are short already or own a sick machine |
| `RolloutSafety.ScalingUnconvergesTwo` | internal/executor/upgrade.go:298-300 | raising two converged pools leaves both mid-roll after one fault-free scaling stage |
| `RolloutSafety.DeletionUnconverges` | internal/executor/upgrade.go:298-300 | a pool with no machine to spare is mid-roll once the healer has deleted one |
| `RolloutSafety.EachPoolPatchedOnce` | internal/executor/upgrade.go:179-235 | after a kubelet patch that took effect no later stage of the run patches that pool |
| `RolloutFinish.ToStartNext` | internal/executor/upgrade.go:224-231 | whatever step happens, the pools still to be started are those before it without the ones it patched with effect |
| `RolloutFinish.OnePassPerPool` | internal/executor/upgrade.go:179-235 | in any run each good pass that finds a pool to start takes one off that list for good |
| `RolloutFinish.RecurringPassesFinish` | internal/executor/upgrade.go:179-235 | in every endless run of any steps in which good passes recur the rollout is complete some time |
| `RolloutFinish.RollEnds` | internal/executor/upgrade.go:284-302 | a controller that again and again narrows the gap of the rolling pools, which nothing widens, ends every roll |
| `RolloutFinish.RolloutCompletes` | internal/executor/upgrade.go:179-235 | with such a controller, scaling and healing that un-converge nobody, and passes that recur (failing, idle or waiting ones in between), the rollout completes |
| `RolloutRuns.StatusAfter` | internal/executor/upgrade.go:239-278 | a stage changes a pool's observed version only by an effective kubelet patch of it, and its counts only by deletions and the declared number |
| `RolloutTargets.OneRollAcrossTargetsIff` | internal/executor/upgrade.go:125-132 | over runs whose document changes, in an environment that un-settles nobody, at most one pool is rolling, to any version, at every moment and across every change, exactly when no scaling or healing stage leaves two lacking machines, no started roll leaves two, and no new pools come with two |
| `RolloutTargets.RollLeavesExact` | internal/executor/upgrade.go:224-231 | after a stage that started a pool, rolling are exactly those that were and that pool if not all its machines run the target already |
| `RolloutTargets.NextRollLeaves` | internal/executor/upgrade.go:179-231 | for an undisturbed good pass the same, read off document and listing: it starts the first startable pool |
| `RolloutTargets.OthersUnsettled` | internal/executor/upgrade.go:125-132 | when a pass starts a roll, the pools still rolling besides it are exactly those waiting for their turn that had not settled |
| `RolloutTargets.ChangedTargetRollsTwo` | internal/executor/upgrade.go:125-132 | a concrete cluster in which one pool is rolling before the stage and two are after it, because the target changed too early |
| `Versions.ParseRecoversPrinted` | internal/executor/upgrade.go:340-363 | parsing recovers the major and minor of every printed version, with or without v and suffix |
| `Versions.ParseIff` | internal/executor/upgrade.go:340-363 | (major, minor) is read off a string exactly when it is, between white space, an optional v, the number, a dot, the number, and something that does not begin with a digit |
| `Versions.SameVersionIff` | internal/executor/executor.go:499-502 | two versions are the same exactly when they are equal up to one leading v |
| `FleetLaws.ControlPlaneIff` | internal/executor/executor.go:442-474 | a deployment is refused as a control plane exactly for one of the two labels or a tell-tale part of its name, in any case |
| `FleetLaws.EligibleIff` | internal/executor/executor.go:442-485 | a pool may be acted on exactly when it does not look like a control plane and carries none of the four autoscaler annotations |
| `FleetLaws.SubdomainIff` | internal/executor/executor.go:336-339 | a name is valid exactly when it is at most 253 characters of dot-joined labels of letters, digits and inner dashes |
| `FleetLaws.MatchesIff` | internal/machines/machines.go:174-180 | a requirement matches exactly when it holds of the key-value pairs of the labels |
| `PoolResolution.PoolResolver.constructor` | internal/machines/machines.go:146-167 | the resolver's maps and sorted order |
| `PoolResolution.PoolResolver.Find` | internal/machines/machines.go:174-191 | selector match in name order, then the owner reference's stripped name |
| `PoolResolution.PoolForSound` | internal/machines/machines.go:146-217 | the owner is the least-named deployment whose non-empty selector holds of the labels, else the one whose name, a dash and one more segment make up an owning MachineSet's name, else none |
| `PoolResolution.StripIff` | internal/machines/machines.go:213-218 | stripping recovers exactly the name before the last dash, and "" without one |
| `PoolResolution.PoolForOrderIndependent` | internal/machines/machines.go:146-191 | the answer does not depend on the listing's order |
| `ActionStore.Store.Begin` | internal/actions/store.go:46-59 | a new revision drops the items, the same one keeps them; notifies exactly on a visible change |
| `ActionStore.Store.Upsert` | internal/actions/store.go:64-88 | replaces in place or appends; notifies exactly on a visible change |
| `ActionStore.Store.Prune` | internal/actions/store.go:95-113 | the compaction equals the filter; notifies exactly when something went |
| `ActionStore.Store.Clear` | internal/actions/store.go:116-126 | empties the store; notifies exactly when it was not empty |
| `ActionStore.UpsertRefinesMapUpdate` | internal/actions/store.go:64-88 | on unique keys it is a map update |
| `ActionStore.UpsertKeepsOrder` | internal/actions/store.go:64-88 | keys keep their insertion order, a new one goes last |
| `ActionStore.PruneRefinesFilter` | internal/actions/store.go:95-113 | keeps exactly what is not stale |
| `ActionStore.ReplayKeyed` | internal/actions/store.go:46-126 | keys stay unique under every sequence of operations |
| `ActionStore.ReplayHoldsLastReports` | internal/actions/store.go:64-88 | per key the store holds the last report |
| `DesiredClient.Client.Fetch` | internal/desired/client.go:105-149 | the outcome and the remembered tag for every response |
| `DesiredClient.AnswerIff` | internal/desired/client.go:127-148 | a document is delivered exactly by a success with a decodable body within the bounds, and then its tag is taken over; 304, 401 and 403 are told apart, and all else is a failure |
| `DesiredClient.Client.ReloadToken` | internal/desired/client.go:69-87 | true exactly when the token changed at its source, and then it is taken over |
| `Poller.Poller.Once` | internal/desired/poller.go:74-131 | one round: memory, executor, backoff and pause equal the specification |
| `Poller.Poller.Run` | internal/desired/poller.go:69-138 | the loop over any sequence of polls; with machines named uniquely its reconciliations are legal, so every law of executor runs applies, and the trace it leaves keeps cooldown and one-shot unwedge |
| `PollerLaws.NotModifiedIsCurrent` | internal/desired/client.go:127-129 | against a server with strong tags a 304 stands for the document an unconditional GET would fetch |
| `PollerLaws.ReconciledIsCurrent` | internal/desired/poller.go:102-131 | every document reconciled is validated and is the server's at that response |
| `PollerLaws.NotModifiedRerunsIff` | internal/desired/poller.go:103-112 | a 304 re-runs exactly when the last reconciliation asked for it |
| `PollerLaws.PollActsIff` | internal/desired/poller.go:102-131 | a poll acts on a document exactly when the answer delivers it, or is a 304 and the last call, on that document, asked to be run again; once, and on nothing else |
| `PollerLaws.HealingRerunsEveryPoll` | internal/desired/poller.go:103-112 | while the last document arms healing every 304 runs the executor again on it |
| `PollerLaws.NotModifiedRerunsWhen` | internal/desired/poller.go:103-112 | a 304 does so exactly when healing is armed or the last call's scaling or rolling had something to come back for |
| `PollerLaws.TokenFollows` | internal/desired/poller.go:84-100 | the token is taken from its source after a rejection and never changed otherwise |
| `PollerLaws.FailuresInARow` | internal/desired/poller.go:78-113 | the failures counted for the backoff are those since the last poll that did not fail |
| `PollerLaws.AuthorisedByCurrent` | internal/desired/poller.go:102-131 | every event a poll adds, in the legal runs the loop produces, is authorised by the document the server held when it answered |
| `PollerLaws.RejectionActsOnNothing` | internal/desired/poller.go:78-102 | a failed or rejected poll changes neither trace nor reports, remembered tag nor cached document |
| `PollerLaws.RejectionKeepsReports` | internal/desired/poller.go:78-102 | a concrete run whose reports survive a 403 |
| `PollerLaws.PauseBounds` | internal/desired/poller.go:82-130 | failures wait within the backoff's bounds for the jittered part of its envelope, a changed token is tried at once, success waits the interval plus the jittered part of a tenth |
| `Backoff.Backoff.constructor` | internal/publisher/backoff.go:23-34 | positive, ordered bounds for every input |
| `Backoff.Backoff.Next` | internal/publisher/backoff.go:40-55 | the jittered, capped wait, between base and max, and one more attempt |
| `Backoff.Backoff.Pow` | internal/publisher/backoff.go:63-69 | the loop computes the power |
| `Backoff.WaitBounds` | internal/publisher/backoff.go:40-55 | never instant, never above max or the exponential envelope, and the jittered part of the envelope to the nanosecond unless that is below base |
| `Backoff.EnvelopeDoubles` | internal/publisher/backoff.go:40-45 | the envelope begins at base and doubles with every failure until it reaches max |
| `Backoff.EnvelopeGrows` | internal/publisher/backoff.go:41-45 | the envelope never shrinks with further failures |
| `Backoff.EnvelopeReachesMax` | internal/publisher/backoff.go:41-45 | after finitely many failures it is the cap and stays there |
| `Sender.Sender.EnqueueStep` | internal/publisher/sender.go:47-55 | the store under the lock and the non-blocking signal are two steps of the machine |
| `Sender.Sender.Take` | internal/publisher/sender.go:57-61 | reads the slot without emptying it |
| `Sender.Sender.ClearIfSame` | internal/publisher/sender.go:66-72 | empties the slot only if it still holds the delivered payload |
| `Sender.Sender.ReloadToken` | internal/publisher/sender.go:102-111 | a changed token resets the backoff, an unchanged one waits it out |
| `Sender.Sender.React` | internal/publisher/sender.go:92-140 | every reaction to an answer is a sequence of the machine's steps |
| `Sender.Sender.Run` | internal/publisher/sender.go:77-142 | the nested loop takes only steps of the machine, under any schedule |
| `SenderLaws.NoLostWakeup` | internal/publisher/sender.go:47-90 | a parked sender with a full slot has a wake pending or an Enqueue between store and signal |
| `SenderLaws.DeliveryOrder` | internal/publisher/sender.go:77-142 | attempts never go back to an older payload and deliveries strictly increase |
| `SenderLaws.NewestDelivered` | internal/publisher/sender.go:66-72 | the newest payload stays in the slot until delivered; when both sides are idle it has been |
| `SenderLaws.NewestGetsDelivered` | internal/publisher/sender.go:77-142 | from every reachable state with the last Enqueue finished, every way the sender may go on with an accepting server has delivered the newest payload after four of its steps |
| `SenderLaws.SenderNeverStuck` | internal/publisher/sender.go:77-142 | and it can always go on until then, needing nothing but time |
| `SenderLaws.FailuresAreInARow` | internal/publisher/sender.go:92-140 | the failures counted are those since the last delivery or changed token |
| `SenderLaws.BacksOff` | internal/publisher/sender.go:111-139 | each is waited out for the jittered part of the envelope after so many |
| `SenderLaws.AuthRejectionWaits` | internal/publisher/sender.go:111-128 | after a rejection with an unchanged token nothing is sent before a wait of at least base and at most max, newer payloads included |
| `SenderLaws.EarlyRetryIsNewerIff` | internal/publisher/sender.go:132-139 | a wake during a backoff brings something newer exactly when an Enqueue stored after the Take of the failed payload |
| `SenderLaws.EarlyRetriesBounded` | internal/publisher/sender.go:132-139 | each Enqueue cuts short at most one backoff |
| `SenderLaws.StaleWakeRetriesAtOnce` | internal/publisher/sender.go:132-139 | a concrete interleaving in which the same payload is retried at once |
| `Coalescer.DecideExact` | internal/publisher/debounce.go:51-79 | pushes exactly when a settled change or the periodic push is due and the gap is over, blames a change exactly when one is due, and else waits exactly until the first instant at which something is |
| `Coalescer.Run` | internal/publisher/debounce.go:107-136 | the loop over any sequence of wake-ups |
| `Coalescer.MinGap` | internal/publisher/debounce.go:107-136 | any two pushes are at least MinGap apart |
| `Coalescer.TimerNeverLate` | internal/publisher/debounce.go:124-134 | the armed timer never lies after the earliest due time |
| `Coalescer.ChangeServed` | internal/publisher/debounce.go:107-136 | a change is pushed within max(Debounce, MinGap) + 2d of being sent, whatever else arrives |
| `Coalescer.QuietIff` | internal/publisher/debounce.go:118-133 | a change push surely follows Debounce without a change when the newest change is the oldest one waiting or came Debounce before the minimum gap was over, and only when that is so up to the loop's lateness; exact for a punctual loop |
| `Coalescer.PushHasCause` | internal/publisher/debounce.go:107-136 | a change push follows a change consumed since the previous push and at least Debounce ago, a periodic one comes at least FullInterval after the previous push |
| `Coalescer.BusyPush` | internal/publisher/debounce.go:118-133 | a concrete run with a change one instant before a change push |
| `Coalescer.FullInterval` | internal/publisher/debounce.go:107-136 | pushes are at most max(FullInterval, MinGap) + d apart, the first within d of the start |
| `Coalescer.NothingOverdue` | internal/publisher/debounce.go:107-136 | at no turn is a change or a periodic push overdue by more than d |
| `Json.MergeSets` | internal/inventory/manager.go:193-211 | a member named by a merge patch is deleted by null and merged with anything else |
| `Json.MergeKeeps` | internal/inventory/manager.go:199-211 | a member it does not name is left alone |
| `Inventory.StatusAvailableUpdates` | internal/inventory/inventory.go:96-118 | the reader, telling never recorded from recorded empty |
| `Inventory.SpecInventory` | internal/inventory/inventory.go:48-82 | the spec field for field, nameless addons skipped |
| `Inventory.SpecRead` | internal/inventory/inventory.go:48-82 | a spec is read exactly when there is a non-empty object, each text from the member of its own name, and the addons from the named entries in their order |
| `Inventory.UpdatesRead` | internal/inventory/inventory.go:96-118 | the updates read are the named entries, in their order and field for field |
| `Inventory.CapUpdates` | internal/inventory/manager.go:266-281 | the first 256 named entries, clamped |
| `Inventory.CappedAt` | internal/inventory/manager.go:266-281 | a capped list is the first 256 named entries in their order, each text cut to its bound and otherwise left as it is |
| `Inventory.CappedBounds` | internal/inventory/manager.go:261-281 | what is written is within the resource's schema; nothing is left exactly when all were nameless |
| `Inventory.CappedFixed` | internal/inventory/manager.go:266-281 | a list within bounds is its own cap |
| `Inventory.StatusRoundTrip` | internal/inventory/manager.go:193-211 | reading back a written list gives the list, the empty one included, and no sibling member changes |
| `InventoryManager.EqualUpdates` | internal/inventory/manager.go:285-295 | equal in length, order and content |
| `InventoryManager.Manager.SetState` | internal/inventory/manager.go:249-260 | takes over the view and notifies exactly when the spec changed |
| `InventoryManager.Manager.Fetched` | internal/inventory/manager.go:120-147 | the memory after a poll's answer |
| `InventoryManager.Manager.HandleUpdates` | internal/inventory/manager.go:172-245 | memory, resource and number of writes for every verdict and answer; the missing permission is warned about once |
| `InventoryManager.VerdictIsThreeSteps` | internal/inventory/manager.go:172-245 | undisturbed, a verdict's check, patch and record are what handling it does |
| `InventoryManager.AlwaysMirror` | internal/inventory/manager.go:120-260 | however the poll's GET and take-over interleave with a verdict's check, patch and record, with one writer and no overtaken answer taken over the memory agrees with the resource whenever no successful patch waits to be recorded |
| `InventoryManager.VerdictMirrored` | internal/inventory/manager.go:172-245 | a handled verdict leaves its capped form as an explicit list; repeats and restarts write nothing; the first verdict always writes |
| `InventoryManager.NamelessChangesNothing` | internal/inventory/manager.go:173-178 | an all-nameless verdict changes nothing |
| `InventoryManager.SkipsIff` | internal/inventory/manager.go:172-190 | a verdict is passed over exactly when it is all nameless, there is no resource, or the memory holds it already |
| `InventoryManager.HandledSays` | internal/inventory/manager.go:209-245 | only an accepted write is remembered, only a missing resource is forgotten, any other answer leaves the memory, and the resource gets the capped list as far as the write took effect |
| `InventoryManager.TakeOverMirrorsIff` | internal/inventory/manager.go:120-147 | in every run with one writer, taking over a poll's answer leaves the memory right exactly when no verdict has written another list since its GET |
| `InventoryManager.VerdictMirroredIff` | internal/inventory/manager.go:187-190 | a verdict is mirrored exactly when the memory does not already claim it, or claims it rightly |
| `InventoryManager.OvertakenPollSwallows` | internal/inventory/manager.go:120-147 | a run in which a poll is overtaken by a verdict's write, after which a repetition of the earlier verdict is swallowed |
| `InventoryManager.LostAcknowledgementSwallows` | internal/inventory/manager.go:209-237 | so does a write reported as failed that took effect, until the next poll |
| `MachineIssues.Collector.ScanMachines` | internal/machineissues/collector.go:201-220 | terminal errors and join timeouts of live machines |
| `MachineIssues.Collector.CollectRaws` | internal/machineissues/collector.go:176-256 | machines first, then events, newer messages replacing older ones in place |
| `MachineIssues.Collector.MapIssues` | internal/machineissues/collector.go:176-302 | the reported issues and the pruned first-seen memory |
| `MachineIssuesLaws.CurrentIssues` | internal/machineissues/collector.go:184-256 | the keys are exactly those of live machines with an error or without a node for ten minutes, and of the events about live machines, each once |
| `MachineIssuesLaws.KeyOfIff` | internal/machineissues/collector.go:222-238 | an event counts for exactly the live machine of the namespace that it names, under its pool and its own reason |
| `MachineIssuesLaws.ScanSays` | internal/machineissues/collector.go:201-220 | what machines report is in the machine's own words or says for how many minutes it has had no node |
| `MachineIssuesLaws.NewestWins` | internal/machineissues/collector.go:222-256 | the message is that of the first newest event about the key, by the series' time, else the last, else the event's, else its creation; without an event it is the machine's own |
| `MachineIssuesLaws.SinceIsUnbroken` | internal/machineissues/collector.go:258-281 | over any passes the memory has exactly the current keys, each with the time its unbroken presence began |
| `MachineIssuesLaws.OrderIrrelevant` | internal/machineissues/collector.go:283-301 | kept keys, their order and their since do not depend on the listings' order |
| `MachineIssuesLaws.KeptAreOldest` | internal/machineissues/collector.go:283-300 | at most 20 are kept, in order of since, pool, machine and reason, and none dropped comes before one kept |
| `MachineIssuesLaws.ReasonlessIff` | internal/machineissues/collector.go:238-256 | an issue without a reason exists exactly when an event about a live machine has none |
| `MachineIssuesLaws.ReasonlessExample` | internal/machineissues/collector.go:238-256 | one such event about a healthy machine suffices |
| `Text.ClampMeans` | internal/state/payload.go:467-476 | the longest prefix of at most n runes, whatever their width in bytes; idempotent |
| `PayloadCaps.Payload.ApplyCaps` | internal/state/payload.go:332-464 | every field after the caps, in terms of the payload before |
| `PayloadCaps.TrimNamespaces` | internal/state/payload.go:449-463 | an over-limit map keeps its 500 least keys with their counts |
| `PayloadCaps.CapsIdempotent` | internal/state/payload.go:332-464 | applying the caps again changes nothing |
| `PayloadCaps.CapsBound` | internal/state/payload.go:332-464 | whatever the payload, all lists, strings and revisions end up within the server's bounds |
| `PayloadCaps.SurvivorsArePrefix` | internal/state/payload.go:374-424 | surviving actions and issues are the first 20 valid ones, at increasing positions of the original list, each field cut to its bound and otherwise left as it is; a list without any is nil |
| `PayloadCaps.PrefixesAreLeft` | internal/state/payload.go:332-464 | of everything else a prefix of 500 nodes, 50 components, 50 events and 100 addons, each field cut to its bound and otherwise left as it is, and the 500 least namespaces |
| `PayloadCaps.LeastNamespacesUnique` | internal/state/payload.go:449-463 | the kept namespaces do not depend on how the map is walked |

## Left out

- HTTP, TLS, headers, URLs, JSON decoding and body limits: a fetch or a post is answered by an oracle.
- client-go, informers and field paths: listings are sequences of typed records, read atomically or not at all; where a law needs it, object names are unique per listing, as the API server guarantees.
- Label-selector parsing: a parsed selector is a list of requirements with the library's four operators.
- Detail texts and RFC 3339 rendering: reports keep the values the texts are built from, and times are integers; `since` keeps the text's resolution of one second.
- Logging, except the one-time permission warning of the inventory manager.
- `internal/config`, `internal/kube`, `internal/agent`, `internal/buildinfo`, `cmd`, `deploy`: parsing and wiring.
- `internal/collector`, `internal/controlplane`, `internal/machineissues/store.go`: single-pass field mapping, certificate parsing behind libraries, and a latest-wins slot.
- The issue collector's handling of a failed machine listing: an empty snapshot, with the first-seen memory left alone.
- Slice aliasing: the report store's and the payload's in-place filters reassign a sequence.
- Overflow of 64-bit durations, replica counts decoded as floating point, and invalid UTF-8.
- `ExecutorObject.Executor.Reconcile`: a nil document returns at once; the poller never passes one.
- `ExecutorObject.Executor.Remediate`: outcomes of calls are inputs, so timeouts and cancellation appear as failures that may have taken effect.
- `Backoff.Backoff.Next`: real arithmetic instead of float64 rounding.
- `Coalescer.MinGap`, `Coalescer.FullInterval`: hold for positive cadences, which the configuration enforces, an agent started long after the zero time, and a clock that does not run backwards; deciding, pushing and arming the timer count as one instant, so their duration is part of d.
- `Coalescer.QuietIff`: for a loop that runs up to d late its two halves differ by d, since how late a turn comes is not known before it.
- `RolloutSafety.OneRollAtATimeIff`: for a fixed target, and a machine controller and users that neither edit versions nor un-converge a pool; `RolloutTargets.OneRollAcrossTargetsIff` lets the document change.
- `RolloutFinish.RolloutCompletes`: that the controller closes the gap and that passes recur are hypotheses; both are outside the agent.
- `InventoryManager.AlwaysMirror`: for one writer of the status, no write that takes effect although reported as failed, and a resource that is not deleted between two polls; the ways it fails otherwise are stated beside it.
- `Sender.Sender.Run`: one enqueuer, as in the program; a cancelled run simply ends.
- `MachineIssuesLaws.OrderIrrelevant`: leaves the messages out, because events of equal time tie in listing order.
- `Fleet.Lower`: lowers ASCII letters, which is what names of Kubernetes objects can hold.
- The inventory snapshot copy (a getter) and the `lastErr` fields (log throttling).
