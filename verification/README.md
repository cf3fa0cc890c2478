# Rollout, allocation, health check and teardown logic of Cluster API

This project models the part of the Cluster API controllers that decides how many machines there are and
which of them go: the MachineDeployment rollout engine (RollingUpdate, proportional scaling, OnDelete), the
MachineSet replica allocator under it, the MachineHealthCheck, the lookup of nodes by provider id, and the
deletion of Machines and Clusters.

## How it is built

Most controllers appear twice. Specification functions on values say what a pass does to the stored objects
(`RollingSpec`, `ScaleSpec`, `OnDeleteSpec`, `HealthCheckSpec`, ...), and the main results are lemmas about
them. Methods in the form of the source, with its loops and its mutable objects, are proved to compute those
functions (`Rolling`, `Scaling`, `OnDelete`, `HealthCheck`, ...).

- **Failures.** `accepts` is the number of writes the API server accepts before it refuses one. Every pass
  stops at its first refused write, so quantifying over `accepts` covers every prefix of a pass. A refused
  write leaves the stored object as it was.
- **Other actors.** Status reports, template edits, hooks and vanishing objects are steps of a run that the
  controller does not take. Runs are sequences of such steps and passes in any order.
- **Sorting.** Methods rely only on a sorted permutation, never on how ties are broken.
- **Numbers.** Replica counts are unbounded integers. The 32-bit product in proportional shares, the 32-bit
  count of announced remediations and the 64-bit revision increment are modelled with their wrap-around. The
  floating-point share is exact rounding of a quotient, which it equals for all 32-bit operands.

## What the results assume

- The desired size, stored sizes and available counts are not negative. Budgets may be.
- Availability results speak of `min(spec, available)` per set. `AvailabilityFloor` and `AvailabilitySafety` hold
  with any number of machines counted as available beyond spec, and subtract them; `AvailabilityExactly` says when
  they do harm.
- Surge results speak of the machines that exist, and of those that spec or status still ask for or report. A
  MachineSet reports the machines it listed before its own sync, so machines can exist that neither accounts
  for; `SurgeSafety` adds them to the cap and `HiddenMachinesSurge` shows why. A set that is removed takes its
  machines with it.
- A settled state has status and available equal to spec in every set.
- Shares need a positive annotated size and a product within 32 bits, as the code's own comment supposes;
  `OverflowGoesNegative` shows what happens otherwise.
- Set names are distinct, as the API guarantees within a namespace.
- A pass starts where the new set is known or missing and its other annotations are current; the
  pass that only syncs annotations changes no size and is covered by `AnnotationSync`.
- All targets of a health check are judged at one reading of the clock.
- While a Machine or Cluster is deleted, nothing it waits for is created again; hooks may come and go.

## Where code and comments differ

- The comment that the replicas added never exceed in absolute value those to add
  (controllers/machinedeployment_sync.go:308-310) holds only under the condition in `CommentHoldsExactly`.
- ResolveFenceposts and its callers (controllers/mdutil/util.go:324,337,606) count on validation of the budgets.
  The webhook (api/v1alpha4/machinedeployment_webhook.go:102-128) checks only that they parse, so that negative
  ones get through and a rollout can stall (`NegativeSurgeStalls`, `ProgressExactly`).
- The comment on isDeleteNodeAllowed (controllers/machine_controller.go:408-409) speaks of the last control
  plane node; the code refuses only when no active control plane machine is left, and the model follows the code.
- A drain that cannot reach the workload cluster reports success (controllers/machine_controller.go:473-482);
  `Drained` stands for whatever the drain reports as done.

## Model

| member | source | states |
|---|---|---|
| Fleet.RoundingExact | controllers/mdutil/util.go:595-614 | percentages round up for surge and down for unavailability, each to the next whole machine |
| Fleet.PercentagesResolve | controllers/mdutil/util.go:586-614 | the documented cases for every size: any surge percentage gives at least one surge machine, no surge gives at least one machine that may be missing, and small unavailabilities round to none beside a surge |
| Fleet.BudgetsResolve | controllers/mdutil/util.go:320-340 | the two budgets of every deployment, negative ones included: they are both zero, for a deployment with machines, exactly if one of the fields does not parse |
| Fleet.RefreshIsExact | controllers/mdutil/util.go:285-317 | refreshing the replica annotations makes them current, is a no-op exactly when they are, and leaves every other key alone |
| Fleet.GoalRecorded | controllers/mdutil/util.go:285-317 | current annotations are those from which the desired and the allowed size are read back |
| Fleet.ScaleToExact | controllers/machinedeployment_sync.go:419-462 | a resize fails only for want of a write and then changes nothing; otherwise size and annotations are as asked, other keys untouched, at the cost of one write exactly if something changed |
| Fleet.SumPermuted | controllers/mdutil/util.go:453-511 | replica sums do not depend on the order in which sets are listed |
| Decimal.ParseFormat | controllers/mdutil/util.go:189-202 | a number written into an annotation is read back unchanged |
| Decimal.FormatInjective | controllers/mdutil/util.go:290-299 | comparing annotation strings compares the numbers |
| RollingSpec.DrainShrinks | controllers/machinedeployment_rolling.go:192-232 | whatever cuts it short, a scale-down loop only shrinks sets, by exactly what it reports, never below zero and never beyond its budget |
| RollingSpec.DrainKeepsKey | controllers/machinedeployment_rolling.go:192-292 | no loop over old sets touches an annotation other than the two replica ones |
| RollingSpec.DrainTouches | controllers/machinedeployment_rolling.go:203-291 | only a set with something to offer is written, and then with current annotations |
| RollingSpec.DrainSucceeds | controllers/machinedeployment_rolling.go:192-232 | a loop that succeeds reached no set, with budget left, that is more available than large; with a write per set it fails exactly on one |
| RollingSpec.BlockedExactly | controllers/machinedeployment_rolling.go:203-222 | what stops the cleanup: a set of positive size that is more available than large, reached with budget left; nothing stops the other loops |
| RollingSpec.DrainTotal | controllers/machinedeployment_rolling.go:262-292 | a loop that succeeds removes the smaller of its budget and all it may take |
| RollingSpec.DrainShare | controllers/machinedeployment_rolling.go:264-292 | closed form: each set gives up its quota as far as the budget lasts after every older set; a loop cut short leaves no set smaller than that |
| RollingSafety.CleanupKeepsAvailable | controllers/machinedeployment_rolling.go:182-235 | cleanup of unhealthy replicas never takes a set below its available machines |
| RollingSafety.ReconcileOldShrinks | controllers/machinedeployment_rolling.go:100-180 | no old set grows or goes negative in any pass or failed prefix of one |
| RollingSafety.RemovedExactly | controllers/machinedeployment_rolling.go:154-178 | closed form of what both loops remove: the allowance and an overrun, as far as there are old replicas; no failed prefix removes more |
| RollingSafety.BudgetsCompose | controllers/machinedeployment_rolling.go:129-178 | the two loops stay within the one allowance computed up front if and only if there is none, it covers all old replicas, or the lagging machines are no more than the unhealthy replicas beyond it; failed prefixes included |
| RollingSafety.OldReplicasLeft | controllers/machinedeployment_rolling.go:129-180 | on success the old sets keep exactly what the new set's available machines do not replace, less the overrun |
| RollingSafety.ReconcileOldSucceeds | controllers/machinedeployment_rolling.go:100-180 | with two accepted writes per old set the stage fails if and only if its first loop reaches a set more available than large |
| RollingSafety.AvailabilityFloor | controllers/machinedeployment_rolling.go:100-295 | in every state and after every failed prefix, machines kept available are at least min(before, desired - maxUnavailable - machines wrongly counted as available) |
| Availability.AvailabilityExactly | controllers/machinedeployment_rolling.go:100-295 | the old-set stage keeps min(before, desired - maxUnavailable) machines available for every number of accepted writes if and only if it has nothing to do, its first loop fails on a set more available than large, or the lag is harmless: a condition on the sets before the pass |
| Availability.AvailabilityStage | controllers/machinedeployment_rolling.go:100-295 | the same for one stage: harmless lag suffices however it is cut short, and is necessary for a stage that succeeds |
| Availability.NoLagKeepsMinimum | controllers/machinedeployment_rolling.go:129-135 | with no machine counted as available beyond the size of its set, the promised minimum is always kept |
| Availability.LagBreaksAvailability | controllers/machinedeployment_rolling.go:249-256 | counterexample for lagging statuses: available machines of an emptied set cost one machine too many and one replica over the allowance |
| RollingRuns.NewSetMoves | controllers/mdutil/util.go:532-551 | the new set moves towards the desired size, never past it, and never lifts the peak over the cap |
| RollingRuns.NewSetFillsTheCap | controllers/mdutil/util.go:540-551 | given a write, the new set is cut to the desired size or grows by exactly the room left under the cap, and fails only for a surge that does not parse |
| RollingRuns.NewSetWrites | controllers/machinedeployment_rolling.go:74-98 | at the desired size nothing is written; otherwise size and annotations are refreshed together |
| RollingRuns.CreatedKeeps | controllers/machinedeployment_sync.go:158-191 | a created set has exactly min(desired, room under the cap) replicas |
| RollingRuns.RollingPassKeeps | controllers/machinedeployment_rolling.go:32-63 | every pass, also one that creates the new set or fails: no size below zero, peak at most max(peak, cap), new set at most the desired size on success, distance to the end never grows |
| RollingRuns.RollingPassAvailability | controllers/machinedeployment_rolling.go:45-59 | the availability floor for a whole pass, including scaling the new set down, for every budget |
| RollingRuns.SettledPassExactly | controllers/machinedeployment_rolling.go:74-180 | from a settled state, a pass that is not cut short gets strictly closer to the end if and only if the rollout is not stalled |
| RollingRuns.SettledPassProgress | controllers/machinedeployment_rolling.go:32-63 | with room, every pass from a settled state that is not cut short gets strictly closer to the end, also one that creates the new set |
| RollingRuns.StalledForGood | controllers/machinedeployment_rolling.go:74-180 | a stalled rollout keeps its distance from the end in every run without template edits, whatever the passes, their accepted writes, the annotations, cleanups and reports, if the new set reports no more machines than it may have |
| RollingRuns.NoRoomStuck | controllers/mdutil/util.go:532-551 | every deployment without room has a settled state, under any names and annotations, that is stalled and not at its end |
| RollingRuns.NegativeSurgeStalls | api/v1alpha4/machinedeployment_webhook.go:102-128 | an input the webhook admits and that stalls: three machines and a surge of minus one |
| RollingRuns.AdmittedRoom | api/v1alpha4/machinedeployment_webhook.go:102-128 | of the admitted deployments, those with machines have room if and only if neither budget resolves to a negative number |
| RollingRuns.ProgressExactly | controllers/mdutil/util.go:595-614 | every settled state makes progress if and only if the deployment has room: no machines, or budgets that are not negative and not both zero |
| SurgeRuns.SurgeSafety | controllers/mdutil/util.go:475-489 | in every run of either strategy, with syncs, reports, template edits, cleanups and a desired size and budgets that change from pass to pass, the machines that exist stay within max(start, the largest cap of a pass + machines neither asked for nor reported when it started) |
| SurgeRuns.SurgeExactly | controllers/mdutil/util.go:532-562 | no pass of either strategy, however many of its writes are accepted, takes the machines over max(before, cap), if and only if the new set cannot outgrow its machines or can do so under the cap with every machine of the old sets counted |
| SurgeRuns.HiddenMachinesSurge | controllers/machineset_controller.go:270-275 | the hidden machines matter: a set scaled down right after a sync whose report predates it leads to three machines where two are allowed |
| SurgeRuns.SyncDrifts | controllers/machineset_controller.go:270-275 | a MachineSet reconcile, which reports the machines it listed before it synced and creates no more than SyncAndReport does, is a step that such runs admit |
| RollingRuns.AvailabilitySafety | controllers/machinedeployment_rolling.go:124-156 | in every run in which machines do not fail on their own, kept-available machines never fall below min(start, floor - lag), with lag the most machines wrongly counted as available when a pass starts |
| RollingRuns.RolloutEnds | controllers/machinedeployment_rolling.go:32-72 | without template edits, a run with as many settled passes as its start was far from the end is at the end: new set at the desired size, old sets empty, however its other passes fail |
| Objects.LessOrder | controllers/mdutil/util.go:61-97 | the sort orders are strict, and creation time with name decides between any two names |
| Objects.SortedMeans | controllers/mdutil/util.go:61-97 | what each order puts first: the set created earlier, the one created later, or the larger one and then the newer or the older |
| Objects.OldestFirstTimes | controllers/mdutil/util.go:66-71 | earlier in the listing means created earlier, or at the same time under a smaller name |
| Objects.LexExactly | controllers/mdutil/util.go:67-69 | names compare by their first difference, and a prefix comes first |
| Objects.SortedUnique | controllers/mdutil/util.go:61-71 | the listing by creation time and name is unique, so the second sort of a pass changes nothing |
| Objects.Sort | controllers/machinedeployment_rolling.go:186 | sorting yields a sorted permutation; nothing is said about ties |
| Objects.Accumulate | controllers/mdutil/util.go:453-511 | the accumulator loops compute the replica sums |
| Objects.ScaleMachineSet | controllers/machinedeployment_sync.go:419-462 | one write changes size and annotations together, and none happens when both are current |
| Rolling.VisitUnhealthy | controllers/machinedeployment_rolling.go:203-231 | one iteration of the cleanup loop, with its error for a set more available than large |
| Rolling.VisitWhole | controllers/machinedeployment_rolling.go:274-291 | one iteration of the scale-down loop |
| Rolling.CleanupUnhealthyReplicas | controllers/machinedeployment_rolling.go:183-235 | refines the drain of unhealthy replicas, oldest set first |
| Rolling.ScaleDownOldMachineSets | controllers/machinedeployment_rolling.go:239-295 | refines the drain of whole sets under the availability budget |
| Rolling.ReconcileOldMachineSets | controllers/machinedeployment_rolling.go:100-180 | the whole old-set stage on API objects computes the specified sweep |
| Rolling.ReconcileNewMachineSet | controllers/machinedeployment_rolling.go:74-98 | the new-set stage on API objects computes the specified size |
| Rolling.CreateNewMachineSet | controllers/machinedeployment_sync.go:139-194 | a missing new set is created with its size and all its annotations in one write, or not at all |
| Rolling.BornInSync | controllers/machinedeployment_sync.go:139-194 | a set is created under its own name, without machines, with the annotations meant for it, the next revision and the replica annotations |
| Rolling.RollStages | controllers/machinedeployment_rolling.go:32-63 | the stages of a pass on API objects compute the specified pass, whatever order the sets are listed in, and visit old sets by creation time, oldest first |
| Rolling.FinishPass | controllers/machinedeployment_rolling.go:65-69 | old sets are cleaned up only once the statuses say the rollout is complete |
| Rolling.FinishCollects | controllers/machinedeployment_rolling.go:65-69 | what a pass deletes are old sets that are empty and reported so, when the new set is fully available and no old set reports a machine |
| Rolling.RolloutRolling | controllers/machinedeployment_rolling.go:32-72 | a whole pass on API objects: the specified stages and, where they succeed, the cleanup |
| ProportionalSpec.RoundNearest | controllers/mdutil/util.go:385-386 | shares are rounded to the nearest integer, halves up |
| ProportionalSpec.RecordedOrReported | controllers/mdutil/util.go:373-383 | a recorded size is read back as written; where none parses the status size of the deployment stands in |
| ProportionalSpec.ShareIsNearest | controllers/mdutil/util.go:367-387 | proportionality: spec plus fraction is the integer nearest to spec * (desired + surge) / recorded size, halves up |
| ProportionalSpec.ExactShares | controllers/machinedeployment_sync.go:282-349 | sets that make up the recorded size and whose shares of the allowed size are whole get exactly those shares in one pass, growing or shrinking, in any order |
| ProportionalSpec.EstimateStaysInside | controllers/mdutil/util.go:345-363 | in the direction of scaling the replicas added never pass those to add, and no size goes negative |
| ProportionalSpec.ProportionalTotal | controllers/machinedeployment_sync.go:283-348 | with sane shares the total after a pass is max(allowed size, estimated sizes of all but the largest set), and exactly the allowed size when not shrinking |
| ProportionalSpec.ProportionalToZero | controllers/mdutil/util.go:368-371 | scaling to zero empties every set in one pass |
| ProportionalSpec.AddedExactly | controllers/machinedeployment_sync.go:308-329 | closed form of the replicas added: all of them if some run of leading fractions reaches the target, otherwise the sum of all fractions |
| ProportionalSpec.CommentHoldsExactly | controllers/machinedeployment_sync.go:308-310 | the commented bound on the absolute value holds if and only if a run of leading fractions reaches the target or all fractions together stay inside |
| ProportionalSpec.CommentFails | controllers/machinedeployment_sync.go:308-310 | stale annotations break the commented bound: six replicas leave while two were to be added |
| ProportionalSpec.SizeExactly | controllers/mdutil/util.go:345-363 | closed form of every size but the first: unchanged once the sets before it used up what there is to add, otherwise its fraction as far as that goes |
| ProportionalSpec.NonNegativeExactly | controllers/mdutil/util.go:367-387 | a set goes negative if and only if it takes a fraction that removes more than it has and enough is left to remove |
| ProportionalSpec.OverflowGoesNegative | controllers/mdutil/util.go:385 | overflow of the 32-bit product sends a set below zero |
| ProportionalSpec.RefreshedFraction | controllers/mdutil/util.go:367-387 | a set with current annotations has a zero fraction |
| ProportionalSpec.SteadyPass | controllers/machinedeployment_sync.go:331-348 | with current annotations the whole difference goes to the largest set |
| ProportionalSpec.IdlePass | controllers/machinedeployment_sync.go:434-437 | sharing among sets of the allowed size with current annotations writes nothing |
| ProportionalSpec.ResizeExact | controllers/machinedeployment_sync.go:331-348 | a pass that succeeds gives every set its size and current annotations and changes nothing else |
| ProportionalSpec.ExcessShrinks | controllers/machinedeployment_sync.go:304-348 | sharing an excess removes min(largest set, excess): the excess is gone or a set is |
| ProportionalSpec.FirstPassSteadies | controllers/machinedeployment_sync.go:283-348 | any first sharing over sane shares leaves current annotations and a total no lower than the allowed size |
| ScaleSpec.ScaleConverges | controllers/machinedeployment_sync.go:246-352 | runs of whole scale passes, each taking the branch the code takes, with reports in between: within as many passes as there are active sets the total is exactly the desired size if one active set is left, and exactly the allowed size otherwise |
| ScaleSpec.FirstShares | controllers/machinedeployment_sync.go:282-349 | one sharing pass from any sane shares leads to where that convergence starts |
| ScaleSpec.RestExactly | controllers/machinedeployment_sync.go:246-352 | a pass writes nothing if and only if a single active set has the desired size, or several have the allowed size and the new one is not saturated |
| ScaleSpec.ScaleToZero | controllers/machinedeployment_sync.go:246-352 | scaling to zero takes one pass, by whichever branch |
| ScaleSpec.ScaleFromZero | controllers/machinedeployment_sync.go:253-265 | without an active set one pass brings the new set, or else the one created last, to the desired size |
| ScaleSpec.LatestIsNewest | controllers/mdutil/util.go:262-282 | the set that is chosen is the only active one; without any it is the new one, or no other was created later |
| ScaleSpec.SaturatedExactly | controllers/mdutil/util.go:568-584 | saturated means the desired size, that many machines available, and the desired size recorded on the set |
| ScaleSpec.EmptyingKeepsAvailable | controllers/machinedeployment_sync.go:267-276 | emptying old sets beside a saturated new one keeps as many machines available as desired, however far it gets |
| ScaleSpec.SingleSurgeExactly | controllers/machinedeployment_sync.go:253-265 | bringing a single active set to the desired size keeps the peak of sizes and reports within a bound if and only if the set has that many already or the other sets leave room |
| Proportional.EstimateSizes | controllers/machinedeployment_sync.go:311-329 | the first loop records every set's estimate under its name |
| Proportional.UpdateSets | controllers/machinedeployment_sync.go:332-348 | the second loop writes the sizes and stops at the first refusal |
| Proportional.AbsorbLeftover | controllers/machinedeployment_sync.go:335-342 | the leftover goes to the first set only, which is clamped at zero |
| Proportional.SortForScaling | controllers/machinedeployment_sync.go:301-306 | larger sets first; newer first among equals when growing, older first when shrinking |
| Proportional.ScaleProportionally | controllers/machinedeployment_sync.go:282-349 | the branch on API objects computes the specified sizes for every order the sort may choose |
| Scaling.FilterActive | controllers/mdutil/util.go:617-635 | keeps exactly the sets of positive size, in order |
| Scaling.FindOneActiveOrLatest | controllers/mdutil/util.go:262-282 | finds the only active set, or without any the new one or else the newest, and nothing where several are active or there is none |
| Scaling.IsSaturated | controllers/mdutil/util.go:568-584 | tells exactly whether the new set has the desired size, has it recorded and has it available |
| Scaling.ScaleOne | controllers/machinedeployment_sync.go:253-265 | the branch for a single set is the specified pass |
| Scaling.EmptyOlds | controllers/machinedeployment_sync.go:267-276 | the branch for a saturated new set is the specified pass, newest old set first |
| Scaling.ScaleShares | controllers/machinedeployment_sync.go:278-349 | the branch that shares among all active sets is the specified pass, for every order the sort may choose |
| Scaling.Scale | controllers/machinedeployment_sync.go:246-352 | the whole of scale on API objects is the specified pass, also one that is cut short |
| OnDeleteSpec.AdoptTracks | controllers/machinedeployment_rollout_ondelete.go:83-135 | through the first loop the amount to scale down follows the total size |
| OnDeleteSpec.AdoptExact | controllers/machinedeployment_rollout_ondelete.go:85-135 | each old set is resized to its machines that are not being deleted, if they could be listed, and told not to create more |
| OnDeleteSpec.LiveExact | controllers/mdutil/util.go:745-755 | live machines are those not being deleted, and deleting ones those that are |
| OnDeleteSpec.FollowExactly | controllers/machinedeployment_rollout_ondelete.go:86-134 | what an old set keeps: its machines not being deleted; none if it has none; its size if they cannot be listed |
| OnDeleteSpec.FollowOldTotal | controllers/machinedeployment_rollout_ondelete.go:76-160 | conservation: the amount ends equal to total - desired, and the total at max(new, min(desired, new + old machines not being deleted)) |
| OnDeleteSpec.OnDeleteTotal | controllers/machinedeployment_rollout_ondelete.go:33-58 | a pass that succeeds, also one that creates the new set, keeps the new set within the desired size and the total at min(desired, new + old machines not being deleted) |
| OnDeleteSpec.CreationSwitched | controllers/machinedeployment_rollout_ondelete.go:86-181 | after a pass that succeeds the new set may create machines and every old set that had any is told not to |
| OnDeleteSpec.OnDeleteSurgeExactly | controllers/machinedeployment_rollout_ondelete.go:85-135 | the peak of spec and status never exceeds max(peak, desired size), for every number of accepted writes, if and only if following deletions never adds more, over any prefix of the old sets, than the new set leaves under the bound |
| OnDeleteSpec.OnDeleteSurge | controllers/machinedeployment_rollout_ondelete.go:33-58 | where every live machine is asked for or reported, no pass takes the peak over max(peak, desired size) |
| OnDeleteSpec.AdoptionSurges | controllers/machinedeployment_rollout_ondelete.go:105-134 | a failing input: an old set of size one with three live machines takes the peak from two to four |
| OnDeleteSpec.OnDeleteRestores | controllers/machinedeployment_rollout_ondelete.go:33-58 | from rest one pass that succeeds, also one that creates the new set, brings the total to exactly the desired size |
| OnDeleteSpec.OnDeleteEnds | controllers/machinedeployment_rollout_ondelete.go:33-160 | once users have deleted every old machine, two passes that succeed, with the deletions reported in between, end the rollout: old sets empty, new set at the desired size |
| OnDelete.CountDeleting | controllers/mdutil/util.go:745-755 | counts the machines being deleted |
| OnDelete.Adopt | controllers/machinedeployment_rollout_ondelete.go:86-134 | one iteration of the first loop, with its two writes and three listing outcomes |
| OnDelete.FollowDeletions | controllers/machinedeployment_rollout_ondelete.go:85-135 | the first loop on API objects adopts the sets in listing order and stops at the first error |
| OnDelete.DrainExcess | controllers/machinedeployment_rollout_ondelete.go:137-157 | the second loop drains whole sets in listing order |
| OnDelete.ReconcileOldMachineSetsOnDelete | controllers/machinedeployment_rollout_ondelete.go:76-160 | both loops on API objects compute the specified following and draining |
| OnDelete.ReconcileNewMachineSetOnDelete | controllers/machinedeployment_rollout_ondelete.go:163-181 | the new set may create machines again before it grows |
| OnDelete.RolloutOnDelete | controllers/machinedeployment_rollout_ondelete.go:33-73 | a whole pass on API objects: find or create the new set, the specified stages and, where they succeed, the cleanup |
| AnnotationSync.CopyAnnotations | controllers/mdutil/util.go:167-183 | copying in any order yields the same result and reports a change truthfully |
| AnnotationSync.CopySettles | controllers/mdutil/util.go:142-183 | copying is a fixed point after one go, never touches the six keys that belong to the set, and brings every other annotation of the deployment |
| AnnotationSync.MaxRevision | controllers/mdutil/util.go:115-127 | the largest parsable revision, or zero |
| AnnotationSync.RevisionRead | controllers/mdutil/util.go:130-140 | a revision is read back as it was written, and a set without one is at zero |
| AnnotationSync.SetNewMachineSetAnnotations | controllers/mdutil/util.go:206-257 | computes the specified annotations and change flag, including both parse failures |
| AnnotationSync.AfterSync | controllers/mdutil/util.go:206-257 | after a sync the revision is max(own, 1 + largest old), no deployment annotation is missing, and "unchanged" is truthful; with an unparsable own revision annotations are copied and "unchanged" is reported regardless |
| AnnotationSync.HistoryGrows | controllers/mdutil/util.go:234-247 | a sync that changes anything appends the revision the set had to its history, and otherwise the history stays |
| AnnotationSync.SyncApplies | controllers/machinedeployment_sync.go:106-133 | a sync brings the ready time and the delete policy the deployment asks for |
| AnnotationSync.MissingAfterSync | controllers/machinedeployment_sync.go:106-133 | an annotation stays missing after a sync if and only if one was, the set's revision does not parse and nothing else has to be written |
| AnnotationSync.SyncSettles | controllers/machinedeployment_sync.go:106-133 | a second sync with the same inputs changes nothing, so at most one pass per change ends early |
| AnnotationSync.CreatedIsSynced | controllers/machinedeployment_sync.go:193-194 | a set just created is in sync already |
| AnnotationSync.NewestRevision | controllers/machinedeployment_sync.go:96-100 | the new revision is above every old one if and only if it parses and the largest old one is below the int64 maximum |
| Cleanup.CompleteMeansNoOldMachines | controllers/mdutil/util.go:518-525 | complete if and only if the deployment is observed, the new set is full and available and no old set reports a machine |
| Cleanup.FilterAlive | controllers/machinedeployment_sync.go:474-479 | keeps exactly the sets that are not being deleted |
| Cleanup.CleanupDeployment | controllers/machinedeployment_sync.go:467-511 | deletes, in order of creation and up to the first refusal, exactly the removable ones among the surplus over the history limit, and runs off its list exactly for a negative limit |
| Cleanup.NewestAreKept | controllers/machinedeployment_sync.go:481-498 | what a cleanup deletes is scaled down, observed and not being deleted, only with a history limit, and never one of the newest sets within it, which were all created no earlier |
| Cleanup.SurplusIsGone | controllers/machinedeployment_sync.go:481-508 | a cleanup that ends well leaves no removable set beyond the history limit, counted from the newest |
| DeletePolicy.PoliciesRank | controllers/machineset_delete_policy.go:43-96 | nothing outranks a deleting machine; annotated, node-less and failed machines outrank sound ones, under Random strictly; and age counts in the direction the policy names |
| DeletePolicy.SortMachines | controllers/machineset_delete_policy.go:98-107 | sorts the given list in place from high to low priority |
| DeletePolicy.GetMachinesToDelete | controllers/machineset_delete_policy.go:109-123 | permutes the list in place and returns exactly min(max(diff, 0), n) machines, none of lower priority than a kept one |
| MachineSetSync.NeverTooMany | controllers/machineset_controller.go:397-423 | under every policy at least desired - already deleting live machines are left |
| MachineSetSync.OverDeletionExactly | controllers/machineset_delete_policy.go:109-123 | every outcome of the sort leaves min(live, desired) live machines if and only if live machines tied with deleting ones are harmless |
| MachineSetSync.RandomNeverOverDeletes | controllers/machineset_delete_policy.go:82-96 | under Random exactly min(live, desired) live machines are left |
| MachineSetSync.RandomSparesHealthy | controllers/machineset_delete_policy.go:82-96 | under Random no healthy machine is chosen while an annotated, node-less or failed one is kept |
| MachineSetSync.OldestCanOverDelete | controllers/machineset_delete_policy.go:43-55 | under Oldest a live machine without a node can be deleted while a deleting one is counted as kept |
| MachineSetSync.CreateMachines | controllers/machineset_controller.go:332-396 | creates one machine per attempt, stops at a template that cannot be cloned, and reports success exactly when all were created |
| MachineSetSync.CreatedExactly | controllers/machineset_controller.go:332-396 | the machines created are the successful attempts before the first template that cannot be cloned; refused ones do not stop the loop |
| MachineSetSync.DeleteMachines | controllers/machineset_controller.go:408-421 | tries every victim and reports success exactly when none was refused |
| MachineSetSync.SyncReplicas | controllers/machineset_controller.go:311-426 | creates exactly the missing machines or deletes exactly the surplus in order of priority; all error cases, and waiting for the cache |
| MachineSetSync.SyncAndReport | controllers/machineset_controller.go:270-275 | what is reported is the number of machines listed before the sync, and what the sync creates stays within the desired number |
| MachineSetSync.LiveAfterSync | controllers/machineset_controller.go:397-423 | live machines left after an error-free sync of no more machines than there are, by policy |
| HealthCheckSpec.FailsExactly | controllers/machinehealthcheck_targets.go:89-186 | when a target fails, in observed fields: a failure or a lost node at once; otherwise only in a cluster that is up, for the first condition of a kind that matches for too long, or without a node once machine, control plane and infrastructure are all older than the startup timeout |
| HealthCheckSpec.PendingIsPositive | controllers/machinehealthcheck_targets.go:155-183 | a passing target with a deadline asks for a check at least a second ahead, so the positive filter drops nothing |
| HealthCheckSpec.PassesUntil | controllers/machinehealthcheck_targets.go:149-180 | a passing target fails exactly after its earliest deadline |
| HealthCheckSpec.WakeUpExact | controllers/machinehealthcheck_controller.go:305-312 | no passing target fails up to a second before the wake-up, one does when it comes, and without a wake-up none ever does |
| HealthCheckSpec.RangeRoundTrip | controllers/machinehealthcheck_controller.go:543-566 | a written range reads back as it was, or is rejected for its order or size |
| HealthCheckSpec.BreakerExact | controllers/machinehealthcheck_controller.go:517-541 | with the bounds that the limits name, remediation is allowed if and only if the unhealthy count is within them; then unhealthy machines plus announced remediations stay within the maximum, and the announcement is exact if and only if it fits 32 bits |
| HealthCheckSpec.BoundsNamed | controllers/machinehealthcheck_controller.go:543-577 | the bounds in use are the two numbers of the range, or zero and maxUnhealthy as a count or as a percentage rounded down; otherwise there are none |
| HealthCheckSpec.BreakerByLimit | controllers/machinehealthcheck_controller.go:517-577 | the decision and the announced count for every kind of limit, in its own numbers: at most n unhealthy, at most p percent, or between min and max; an error for none, a malformed one or a range out of order |
| HealthCheckSpec.BreakerWraps | controllers/machinehealthcheck_controller.go:527 | a range up to 4294967295 announces a negative number |
| HealthCheck.MinDuration | controllers/machinehealthcheck_targets.go:322-335 | the minimum, or zero for none |
| HealthCheck.CheckConditions | controllers/machinehealthcheck_targets.go:161-185 | fails if and only if some matching condition is past its deadline, otherwise the time to the earliest |
| HealthCheck.NeedsRemediation | controllers/machinehealthcheck_targets.go:89-186 | fails exactly on a failure field, a missing node or a passed deadline, marks only then, and otherwise gives the time to the earliest deadline |
| HealthCheck.HealthCheckTargets | controllers/machinehealthcheck_targets.go:275-310 | splits targets into healthy, unhealthy and pending, marks the first two, and stores nothing |
| HealthCheck.PatchUnhealthyTargets | controllers/machinehealthcheck_controller.go:347-428 | requests remediation of every unpaused failing machine, never over one in progress, and stores exactly what was not refused |
| HealthCheck.PatchTargets | controllers/machinehealthcheck_controller.go:316-344 | stores the conditions of exactly the machines whose patch was not refused |
| HealthCheck.Reconcile | controllers/machinehealthcheck_controller.go:204-313 | status, held and stored conditions of every machine, and result of one reconcile, refused patches included |
| HealthCheck.JudgedExactly | controllers/machinehealthcheck_controller.go:405-412 | remediation is requested exactly for unpaused failing targets where it is allowed and none is in progress; the check is marked failed or passed, or left alone while pending |
| HealthCheck.HealthyForGood | controllers/machinehealthcheck_targets.go:275-310 | a target counts as healthy exactly if it has a node, is not being deleted and never fails as things are |
| HealthCheck.BreakerBoundsRemediation | controllers/machinehealthcheck_controller.go:224-296 | in every reconcile that allows remediation, failing targets plus announced remediations stay within maxUnhealthy as a count, within its percentage of all targets, or within the upper end of the range |
| ProviderId.PatternIsRegex | controllers/noderefutil/providerid.go:43-49 | the parser accepts exactly the strings of the regular expression |
| ProviderId.ParseMatches | controllers/noderefutil/providerid.go:52-78 | validation never rejects what the expression admits, and the id part has no slash |
| ProviderId.ParseBuilt | controllers/noderefutil/providerid.go:52-78 | an id put together from provider, optional path and last part is read back as those |
| ProviderId.ParseParts | controllers/noderefutil/providerid.go:52-78 | everything that is read at all has that form |
| ProviderId.KeyIsFaithful | controllers/noderefutil/providerid.go:90-111 | index keys are equal if and only if provider and id are |
| ProviderId.IndexRefinesScan | controllers/noderefutil/indexer.go:61-78 | for every node list the index returns exactly the nodes the scan would match |
| ProviderId.ScanExactly | controllers/machine_controller_noderef.go:185-194 | the scan finds the first node with the same provider and id, and nothing exactly if there is none |
| ProviderId.ScanByPage | controllers/machine_controller_noderef.go:176-201 | page after page, a failed listing ends the search and so does a match |
| ProviderId.ScanPages | controllers/machine_controller_noderef.go:176-201 | paging finds the first match before any listing that fails, and reports the failure only without a match |
| ProviderId.GetNode | controllers/machine_controller_noderef.go:170-209 | one indexed match is the answer, several are an error, none falls back to the scan, a failed listing is passed on; with and without the index it gives the answer that PathsAgreeExactly compares |
| ProviderId.PathsAgreeExactly | controllers/machine_controller_noderef.go:170-209 | losing the index changes the answer if and only if more than one node matches |
| MachineTeardown.Machine.PrepareNode | controllers/machine_controller.go:286-325 | drains exactly when allowed, unhooked and not exempt, proceeds exactly when that is done, and leaves exactly the two conditions that follow |
| MachineTeardown.Machine.DeleteObjects | controllers/machine_controller.go:348-376 | infrastructure, bootstrap data, node and finalizer, each waiting for the one before |
| MachineTeardown.Machine.ReconcileDelete | controllers/machine_controller.go:272-377 | a pass on the machine object makes exactly the specified requests, and stores its conditions as of the last patch that was accepted |
| MachineTeardown.RequestsExactly | controllers/machine_controller.go:272-377 | which requests a pass makes, each once, in observed fields: hooks clear, node drained or exempt where it may go, machine patched, and every object before it looked for and gone |
| MachineTeardown.StoredBeforeDeletion | controllers/machine_controller.go:286-347 | nothing but a drain is requested before the conditions stored say that the hooks are clear and the drain is done; a hook that holds a pass up is marked |
| MachineTeardown.PassIsOrdered | controllers/machine_controller.go:558-622 | in one pass every request is due by what the pass observed, an object is passed over only once it is seen gone, and nothing is requested that an earlier request left behind |
| MachineTeardown.TeardownOrder | controllers/machine_controller.go:272-377 | over every run every request is due in its own pass, so never past a set hook or an undrained node, and infrastructure, bootstrap, node and finalizer come in that order |
| ClusterTeardown.MachinesSplit | controllers/cluster_controller.go:414-422 | machines split into workers and control plane without loss or overlap |
| ClusterTeardown.FilterOwnedDescendants | controllers/cluster_controller.go:427-462 | collects exactly the owned descendants, pools, deployments, sets and workers before control plane machines |
| ClusterTeardown.ControlPlaneLast | controllers/cluster_controller.go:427-462 | owned control plane machines come last in every delete sequence |
| ClusterTeardown.DeleteChildren | controllers/cluster_controller.go:230-253 | every owned child not yet being deleted is asked to go, and any refusal is remembered |
| ClusterTeardown.Cluster.ReconcileDelete | controllers/cluster_controller.go:215-326 | a pass makes exactly the specified requests |
| ClusterTeardown.RequestsExactly | controllers/cluster_controller.go:215-326 | which requests a pass makes, in observed fields: every owned child of any kind that is not being deleted nor left to a control plane provider, and cluster objects only once no descendant that counts is left |
| ClusterTeardown.TeardownOrder | controllers/cluster_controller.go:215-326 | over every run children come first; the control plane only with no pool, deployment, set or machine left but those of a control plane provider; infrastructure only once the control plane is gone; the finalizer last |

## Left out

- The API client, patch helper, events, logging and watches: represented by answers and by writes that may be refused.
- Template equality, hashing and the name of a created set: finding the new set among a list is an input.
- A created set that already exists under its name: the race with a slow cache is not modelled.
- Remediation through an external template, and same-pass remediation by the MachineSet controller.
- The contents of the revision history beyond how an entry is appended.
- The drain timeout counted from the first drain: whether a drain is exempt is an input.
- updateStatus of the MachineSet controller: its counts are inputs of the rollout.
- Phases, conditions other than those named, webhooks, conversion, MachinePool internals.
- DeletePolicy.PoliciesRank: the exponential is any curve from 0 to 100 that never falls with age, because only that is used; very old machines may reach 100.
- Proportional.EstimateSizes: not modelled for a set recorded against size zero, where the code converts an infinite float to an integer and Go leaves the result open.
- Proportional.ScaleProportionally: the same.
- Scaling.ScaleShares: the same.
- Scaling.Scale: the same.
- Runs that mix paused scaling with rollout passes: scale looks at sizes and not at the machines that are left, so surge is not bounded by it beyond what `SingleSurgeExactly` says.
