# Verified model of the governance policy propagator

The governance policy propagator copies a root policy to every managed cluster that its placement
bindings select, keeps the status of the root policy, starts automation jobs for violations, and
rotates the keys that protect template values. This project models the parts of its controllers that
are hardest to get right and proves what they promise, for every input and every run.

`dafny verify dfyconfig.toml` checks everything.

| files | what they model |
|---|---|
| `ResolverRegistry`, `ResolverRegistryProofs` | the reference-counted template resolvers, as interleaved atomic steps |
| `ReplicaProtocol`, `ReplicaProtocolProofs`, `ReplicaReconcile`, `ReplicaLostWakeup`, `ReplicaTable` | the reconcile protocol of replicated policies against a lagging cache |
| `GoTime`, `EveryEvent`, `EveryEventRuns`, `OnceMode` | the modes of a PolicyAutomation |
| `Ordering`, `PolicySets`, `Placement`, `DecisionSets`, `PlacementOrder`, `RootStatus`, `RemainingOrder` | placement decisions, per cluster and for a whole policy, and the status derived from them |
| `Enqueue`, `EnqueueComplete` | which replicas the event handlers put on the work queue |
| `DottedNames`, `Dependencies` | canonical dependencies and the PolicySets watched for them |
| `KeyRotation` | rotation of the encryption key |

The two protocols are state machines. One step is one atomic operation of one goroutine (a map
operation, an atomic counter, a lock operation, a section under the write lock, one API call, one event
delivery), and a run is any sequence of steps. Work-queue serialisation per key, the lock and Go's
deferred calls are part of the steps. Every other controller is modelled as the loops and field updates
it consists of, proved against a specification function or predicate; the main results are about that
specification.

What the models take for granted: resource versions grow and are never reused; replicas have no
finalizers and always carry the root-policy label; the cache and the event handlers see every change, in
order; the namespace of a key stays a cluster namespace; there are fewer than 2^32 replicated policies;
the clock does not go back; names of objects of one kind in a namespace are unique, not empty and without
spaces. `Placement.Decision`, which the results on placement and on the work queue speak of, is what
`singleClusterDecision` returns where no Placement is misread (`SeesExactly`), in particular if no
PlacementDecision has an empty placement label. Each lemma names what it uses.
Preconditions of the form `IndicesOk(run[i])` or `Shape(run[i])` hold in every state of every run
(`ResolverRegistryProofs.RunKeepsInv`, `ReplicaProtocolProofs.RunKeepsInv`); they stand there so that the
next step is defined.

## Where the code does less than one would expect

* **A wake-up can be lost.** "A tracked replica that is gone always has a reconcile coming" is false. A
  reconcile that finds the cached replica equal to the desired one writes its version over a tombstone
  (`controllers/propagator/replicatedpolicy_controller.go`, lines 304-330) even though the delete event of
  that replica may have been dropped because of the tombstone
  (`controllers/propagator/replicatedpolicy_setup.go`, lines 167-179). `ReplicaLostWakeup` builds such a
  run. `WakeExactly` shows that this one step, `LosesWakeup`, is the only one that can break the promise,
  and `LosingStepForgets` that it always does.
  For the whole ResourceVersions map, `MapIsBounded` counts the keys that took it, and `LostKeysCount` shows
  that the bound fails without them.
* **An update of a PlacementBinding can be missed.** When a binding to a PolicySet that excludes a cluster
  also gets the policy itself as a subject, the policy becomes placed there and nothing is enqueued
  (`ExclusionIsMissed`). `UpdateMissesExactly` gives the exact condition on the two versions of the binding:
  both select the replica, but an exclusion keeps one of them from reaching it. Updates of a
  PlacementDecision have their own condition (`DecisionUpdateMissesExactly`).
* **A once-job can be repeated after its job was deleted**, and jobs are created with a time to live
  (`controllers/automation/ansible.go`, line 108): `OnceJobIsUnique`, `DeletionRepeats`, `OnceRepeats`.
* **A missing Placement is read as one with an empty name** by the per-cluster form, and as no decisions by
  the whole-policy form (`SeesExactly`, `MisreadPlaces`).
* **The placement list depends on the order of the bindings** when a restricted binding is listed only
  because of another restricted one: exactly then (`OrderMattersExactly`). The remaining bindings in the
  status inherit this (`RemainingDependsOnOrder` gives two orders of two bindings); for which clusters they
  do is `RemainingOrderExactly`.
* **`GetAffectedObjs` is not always a symmetric difference** (`DifferenceExactly`).
* **Rotation periods over 106751 days overflow** and are not honoured (`PeriodHonouredExactly`); so do
  delays of a PolicyAutomation that do not fit in an int64 of nanoseconds (`DelayHonouredExactly`).
* `GetClusterDecisions` says that clusters listed only by restricted bindings are left out; the code adds
  them, and so does the model.

## Model

| member | source | states |
|---|---|---|
| `ResolverRegistryProofs.StepKeepsInv` | controllers/propagator/template_utils.go:149-290 | every atomic step of a get, a removal, a cleanup or a background failure, by any policy, keeps the registry invariant |
| `ResolverRegistryProofs.RunKeepsInv` | controllers/propagator/template_utils.go:149-290 | the registry invariant holds in every state of every interleaving |
| `ResolverRegistryProofs.CountIsReferences` | controllers/propagator/template_utils.go:149-290 | in every interleaving, reference count plus removals between decrement and deferred delete equals policies mapped to the account plus additions between increment and store |
| `ResolverRegistryProofs.StepsAreSafe` | controllers/propagator/template_utils.go:172-181 | no uint32 decrement underflows, and neither a removal nor GetResolver uses a nil resolver |
| `ResolverRegistryProofs.MappedFindsEntry` | controllers/propagator/template_utils.go:165-175 | a policy that is mapped to an account and not being released finds an entry for it |
| `ResolverRegistryProofs.InstalledIsCurrent` | controllers/propagator/template_utils.go:241-290 | a wrapper that was ever stored and is not cancelled is the current map entry of its account |
| `ResolverRegistryProofs.CleanupExact` | controllers/propagator/template_utils.go:187-203 | a cleanup that goes ahead removes the very wrapper it was started for, and no policy holds a reference to it |
| `ResolverRegistryProofs.EntryLostOnlyToCleanup` | controllers/propagator/template_utils.go:187-203 | the map loses an entry only to the cleanup that cancels that wrapper, at count zero |
| `ResolverRegistryProofs.ZeroCountIsAttended` | controllers/propagator/template_utils.go:172-204 | an unreferenced entry is cancelled, has a cleanup waiting, or has a removal or a get in flight that will look at the count or raise it |
| `ResolverRegistryProofs.LookupExactly` | controllers/propagator/template_utils.go:241-262 | both lookups go on with the account's wrapper exactly when there is one that is not cancelled; else the first waits for the write lock and the second builds a new resolver |
| `ResolverRegistryProofs.HandedOutWasLive` | controllers/propagator/template_utils.go:212-290 | in every interleaving, the resolver a call hands out was not cancelled at some moment of that very call |
| `ResolverRegistryProofs.RemovalSpawnsExactly` | controllers/propagator/template_utils.go:180-186 | a removal starts a cleanup exactly when it finds the count at zero |
| `ResolverRegistryProofs.MappingIsUpdated` | controllers/propagator/template_utils.go:155-290 | a finished removal leaves the policy unmapped, a finished get leaves it mapped to the account it asked for |
| `ResolverRegistryProofs.FailureCancels` | controllers/propagator/template_utils.go:555-607 | a background failure cancels the account's entry and takes its resolver away; a stopped resolver is cancelled; no entry is removed |
| `ReplicaProtocolProofs.StepKeepsInv` | controllers/propagator/replicatedpolicy_controller.go:36-393 | every step of worker, server, cache, event filter and queue keeps the protocol invariant, and keeps a wake-up ahead exactly when it is not the losing step |
| `ReplicaProtocolProofs.RunKeepsInv` | controllers/propagator/replicatedpolicy_controller.go:36-393 | the protocol invariant holds in every reachable state |
| `ReplicaProtocolProofs.TombstoneIsSafe` | controllers/propagator/replicatedpolicy_controller.go:375-392 | an entry `deleted-rv` implies that the live object is not version rv, and that a reconcile is queued, delayed, retrying or running |
| `ReplicaProtocolProofs.StaleReadIgnoresNothingLive` | controllers/propagator/replicatedpolicy_controller.go:56-70 | a cache hit treated as missing is never the replica that is on the server |
| `ReplicaProtocolProofs.WroteIsConfirmed` | controllers/propagator/replicatedpolicy_controller.go:274-330 | a concrete version in an entry was written, or found equal to the desired replica, by some reconcile, and every server state of that version has the body that reconcile wanted |
| `ReplicaProtocolProofs.DroppedEventIsRedundant` | controllers/propagator/replicatedpolicy_setup.go:152-203 | a dropped create or update event carries a confirmed or unchanged body; a dropped delete event meets a tombstone, with a reconcile coming when the tombstone is still in the map |
| `ReplicaProtocolProofs.WakeExactly` | controllers/propagator/replicatedpolicy_setup.go:152-258 | over a run, a wake-up is ahead of every tracked key in every state if and only if no losing step was taken |
| `ReplicaProtocolProofs.NothingForgotten` | controllers/propagator/replicatedpolicy_controller.go:578-590 | without a losing step, a tracked key whose replica is gone everywhere always has a reconcile queued, delayed, retrying or running |
| `ReplicaProtocolProofs.LosingStepForgets` | controllers/propagator/replicatedpolicy_controller.go:304-330 | after a losing step, finishing the reconcile and the event in hand leaves a tracked key with no reconcile coming |
| `ReplicaReconcile.ReadExactly` | controllers/propagator/replicatedpolicy_controller.go:46-70 | the worker reads the cache, and treats a replica as missing exactly when the entry is a tombstone of that version |
| `ReplicaReconcile.EventQueuesExactly` | controllers/propagator/replicatedpolicy_setup.go:152-203 | an event queues a reconcile exactly when it brings a version the entry does not record with a new body, or a deletion without a tombstone |
| `ReplicaReconcile.RecordedIsWanted` | controllers/propagator/replicatedpolicy_controller.go:274-330 | in every run, a version a reconcile records was on the server with exactly the body that reconcile decided on, and is confirmed for it |
| `ReplicaReconcile.AcceptedIsLive` | controllers/propagator/replicatedpolicy_controller.go:274-318 | a create or update the server accepts leaves the decided replica live, in the place of the version that was read; nothing is sent if it was read already |
| `ReplicaReconcile.AcceptedIsRecorded` | controllers/propagator/replicatedpolicy_controller.go:274-330 | after an accepted call the entry records the new version, or the one that was read if it is the desired one already |
| `ReplicaReconcile.ConflictIsCleared` | controllers/propagator/replicatedpolicy_controller.go:274-300 | when the name is taken on creation, the entry is cleared and the reconcile comes again |
| `ReplicaReconcile.OutdatedIsNotRecorded` | controllers/propagator/replicatedpolicy_controller.go:304-330 | a cached replica with another body than the decided one is never recorded as it is |
| `ReplicaReconcile.UnwantedIsDeleted` | controllers/propagator/replicatedpolicy_controller.go:353-393 | an unwanted replica that was read is deleted: afterwards nothing is live, and the entry is the tombstone of the version that was read, or as before if the call failed |
| `ReplicaReconcile.MissingIsForgotten` | controllers/propagator/replicatedpolicy_controller.go:578-590 | without a replica the entry is dropped, unless the read was stale: then the tombstone stays and the reconcile comes again |
| `ReplicaReconcile.FailureIsRetried` | controllers/propagator/replicatedpolicy_controller.go:36-393 | a reconcile whose reads failed, whose call was not accepted, or that deleted a replica ends with a retry |
| `ReplicaLostWakeup.ForgottenIsReachable` | controllers/propagator/replicatedpolicy_controller.go:304-330 | a reachable state in which the entry of a replica that is gone is forgotten |
| `ReplicaTable.TableRunKeepsInv` | controllers/propagator/replicatedpolicy_setup.go:205-258 | in every interleaving of all keys, each key keeps the protocol invariant, and has a wake-up ahead unless it took a losing step before |
| `ReplicaTable.MapIsBounded` | controllers/propagator/replicatedpolicy_setup.go:205-258 | in every interleaving, the ResourceVersions map is bounded by the replicas that exist or whose end is not handled yet, plus pending work, plus the keys that took a losing step |
| `ReplicaTable.TableWakesExactly` | controllers/propagator/replicatedpolicy_setup.go:152-258 | over a run of the whole map, a wake-up is ahead of every key in every state if and only if no key took a losing step |
| `ReplicaTable.LostKeysCount` | controllers/propagator/replicatedpolicy_controller.go:304-330 | a run of the map that ends with a tracked key neither present nor pending, so the bound does need the keys that took a losing step |
| `EveryEvent.WaitIsNotSentinel` | controllers/automation/policyautomation_controller.go:289-313 | the wait of a cluster is never 0, the value for "no wait yet", even when the arithmetic wraps |
| `EveryEvent.Automation.JudgeAll` | controllers/automation/policyautomation_controller.go:276-326 | the loop over the event map, in any order, keeps exactly the surviving events, and the requeue is the least wait |
| `EveryEvent.Automation.Reconcile` | controllers/automation/policyautomation_controller.go:256-381 | the job targets exactly the noncompliant clusters without a surviving event, the status records them, and a failed job changes nothing |
| `EveryEventRuns.DelayIsRespected` | controllers/automation/policyautomation_controller.go:256-373 | over any run, a later job for a cluster is created no sooner than the delay after its recorded start |
| `EveryEventRuns.DelayHonouredExactly` | controllers/automation/policyautomation_controller.go:276-313 | every run keeps jobs of a cluster the delay apart, if and only if the delay fits in an int64 of nanoseconds |
| `EveryEventRuns.OneJobPerViolation` | controllers/automation/policyautomation_controller.go:256-373 | a cluster that stays noncompliant after its job is in no further job, for any delay |
| `EveryEventRuns.WaitIsRestOfDelay` | controllers/automation/policyautomation_controller.go:303-313 | a wait is the rest of the delay plus one nanosecond |
| `EveryEventRuns.RequeueIsInTime` | controllers/automation/policyautomation_controller.go:375-381 | at the requeued time the cluster with the least wait, if still noncompliant, is in the next job |
| `EveryEventRuns.TargetsExactly` | controllers/automation/policyautomation_controller.go:292-335 | a job targets exactly the noncompliant clusters without an event, or that came back and whose delay is over |
| `EveryEventRuns.WaitsExactly` | controllers/automation/policyautomation_controller.go:292-313 | exactly the noncompliant clusters that came back within their delay wait |
| `EveryEventRuns.RecordedExactly` | controllers/automation/policyautomation_controller.go:309-366 | which clusters are recorded after a reconcile, with which start and event time |
| `EveryEventRuns.UnreadableIsReplaced` | controllers/automation/policyautomation_controller.go:277-287 | an event that cannot be read does not keep a noncompliant cluster from a new job |
| `EveryEventRuns.SecondJobComes` | controllers/automation/policyautomation_controller.go:256-373 | over any run, a cluster seen compliant after its job and noncompliant when the delay is over has been in a further job by then |
| `EveryEventRuns.ReturnIsRequeued` | controllers/automation/policyautomation_controller.go:303-313 | if it is noncompliant again within the delay, the reconcile is requeued no later than the end of the delay plus one nanosecond |
| `EveryEventRuns.NoDelayKeys` | controllers/automation/policyautomation_controller.go:276-366 | with no delay, the recorded clusters after a reconcile are the noncompliant ones |
| `EveryEventRuns.NoDelayTargets` | controllers/automation/policyautomation_controller.go:276-366 | with no delay, a job targets the noncompliant clusters that were not recorded |
| `EveryEventRuns.JobsAreRisingEdges` | controllers/automation/policyautomation_controller.go:276-366 | with no delay, over every run, failed job creations included, a job is exactly the clusters noncompliant now and not at the last reconcile that did not fail, and the recorded clusters are those of that reconcile |
| `OnceMode.ParseFormatInt` | controllers/automation/ansible.go:98-102 | the generation can be read back from the annotation text |
| `OnceMode.MatchPAGeneration` | controllers/automation/ansible.go:37-61 | the search finds a job exactly when one was made from that generation |
| `OnceMode.OnceJobIsUnique` | controllers/automation/policyautomation_controller.go:213-254 | over any run with stale reads, lost replies, failed updates and deleted jobs, two once-jobs of one generation exist only if a job of that generation was deleted |
| `OnceMode.CreatesExactly` | controllers/automation/policyautomation_controller.go:221-232 | a reconcile in once mode goes on to create a job if and only if no job of its generation is left |
| `OnceMode.SuccessDisables` | controllers/automation/policyautomation_controller.go:236-250 | a created job is one once-job of the generation that was read, and the disabled version written after it starts no further one |
| `OnceMode.FailureEnds` | controllers/automation/policyautomation_controller.go:236-243 | a creation reported as failed ends the reconcile and leaves the PolicyAutomation as it is |
| `OnceMode.DeletionRepeats` | controllers/automation/policyautomation_controller.go:213-254 | from any reachable state in which the jobs of a generation are gone and a version in once mode can be read, a second once-job of that generation follows |
| `OnceMode.OnceRepeats` | controllers/automation/ansible.go:104-109 | a run in which a deleted job is repeated |
| `KeyRotation.Controller.Reconcile` | controllers/encryptionkeys/encryptionkeys_controller.go:114-230 | the Secret and the outcome after a reconcile, on success, failed key generation, failed update and disabled rotation |
| `KeyRotation.SuccessLeavesUsableKeys` | controllers/encryptionkeys/encryptionkeys_controller.go:126-229 | whatever was in the Secret, a successful reconcile leaves a valid AES key and an empty or valid previous key |
| `KeyRotation.RotatesWhenDue` | controllers/encryptionkeys/encryptionkeys_controller.go:271-308 | for up to 106751 days, when a rotation is due the generated key becomes the key, a valid old key becomes the previous one, and the second of the rotation is recorded; or nothing changes and the reconcile fails |
| `KeyRotation.KeepsWhenNotDue` | controllers/encryptionkeys/encryptionkeys_controller.go:168-229 | otherwise the key and the recorded rotation stay, and only an invalid previous key is cleared |
| `KeyRotation.LeavesAlone` | controllers/encryptionkeys/encryptionkeys_controller.go:114-165 | with rotation disabled, or without data, the Secret is not written |
| `KeyRotation.RequeueIsRestOfPeriod` | controllers/encryptionkeys/encryptionkeys_controller.go:234-265 | the next reconcile is asked for when the period after the recorded rotation is over |
| `KeyRotation.SupersededKeyStaysReadable` | controllers/encryptionkeys/encryptionkeys_controller.go:271-308 | with no outside edits, a superseded key is the previous key for one period less a second |
| `KeyRotation.PeriodHonouredExactly` | controllers/encryptionkeys/encryptionkeys_controller.go:255-256 | no valid key is rotated before its period is over, if and only if the period is at most 106751 days |
| `PolicySets.ExcludedClustersForPolicy` | controllers/common/common.go:447-473 | the strictly sorted names of exactly the clusters that some exclusion takes away from the policy |
| `PolicySets.ValidateExclusions` | api/v1beta1/policyset_webhook.go:70-136 | the repeated and the unlisted policies, each once; accepted if and only if every excluded policy is listed and none is repeated |
| `PolicySets.GetPolicySetDiffs` | controllers/common/policyset_handler.go:75-131 | exactly the policies whose membership or last exclusion differs |
| `PolicySets.UnconcernedPolicyUnchanged` | controllers/common/policyset_handler.go:75-131 | between valid sets, a policy that is not reported keeps its membership and its excluded clusters |
| `PolicySets.UnreportedExactly` | controllers/common/policyset_handler.go:75-131 | between any two sets, a policy that is not reported keeps its excluded clusters if and only if its earlier exclusions name the same clusters before and after, apart from those of its last one |
| `PolicySets.ReportedHasChanged` | controllers/common/policyset_handler.go:75-131 | a policy is reported only if its membership or its exclusions changed |
| `PolicySets.RepetitionGoesUnnoticed` | controllers/common/policyset_handler.go:75-131 | without validation a changed exclusion goes unreported |
| `Placement.GetDecisions` | controllers/common/common.go:216-278 | the clusters of the PlacementRule, or of all PlacementDecisions with the label of an existing Placement, in order |
| `Placement.LabelledMeaning` | controllers/common/common.go:245-262 | a cluster is in that list exactly when some PlacementDecision with the label lists it |
| `Placement.IsSingleClusterInDecisions` | controllers/propagator/replicatedpolicy_controller.go:468-561 | true exactly when a subject of the binding reaches the policy without excluding the cluster, and its placement lists the cluster or is a missing Placement misread as the one with an empty name |
| `Placement.SeesExactly` | controllers/propagator/replicatedpolicy_controller.go:528-561 | it differs from what GetDecisions lists exactly on a misread Placement, and never if no PlacementDecision has an empty label |
| `Placement.SingleClusterDecision` | controllers/propagator/replicatedpolicy_controller.go:395-465 | the decision on every hub, from the bindings isSingleClusterInDecisions accepts; where no Placement is misread, it is positive exactly where an unrestricted binding reaches the cluster and overrides exactly when one that reaches does |
| `Placement.MisreadPlaces` | controllers/propagator/replicatedpolicy_controller.go:532-538 | an unrestricted binding to a missing Placement places the policy on every cluster of the decisions with an empty label |
| `Placement.DecisionMeaning` | controllers/propagator/replicatedpolicy_controller.go:409-465 | the decision places the policy exactly where some unrestricted binding reaches, and overrides exactly when a binding that reaches says enforce |
| `Placement.ReplicaEnforcesExactly` | controllers/propagator/replication.go:114-120 | a replica enforces if and only if the root does, or the policy is placed there and some matching binding, restricted or not, overrides |
| `Placement.ReplicaActionExactly` | controllers/propagator/replication.go:114-120 | a replica has the root's action unless that does not enforce and the policy is placed and overridden there |
| `Placement.EnforcesExactly` | controllers/propagator/replication.go:115-115 | an action enforces exactly when it is the word in any mixture of cases |
| `Placement.OverrideSource` | controllers/propagator/replicatedpolicy_controller.go:420-465 | an override is the action of a binding that reaches the cluster and enforces, of a restricted one only if no unrestricted one does |
| `Placement.OverrideIsFirst` | controllers/propagator/replicatedpolicy_controller.go:420-465 | among the unrestricted, or else the restricted, bindings the first that enforces gives the override |
| `Placement.VerdictIgnoresOrder` | controllers/propagator/replicatedpolicy_controller.go:409-465 | placement and the effective action do not depend on the order of the bindings |
| `DecisionSets.GetPolicyPlacementDecisions` | controllers/common/common_status_update.go:69-161 | the clusters and placement entries one binding contributes |
| `DecisionSets.RawBinds` | controllers/common/common_status_update.go:75-112 | a binding yields entries exactly when it binds the policy |
| `DecisionSets.EntriesMeaning` | controllers/common/common_status_update.go:75-146 | the entries are exactly one for the policy itself if it is a subject, and one, with its exclusions, for each PolicySet subject that lists it |
| `DecisionSets.EntryFields` | controllers/common/common_status_update.go:85-146 | an entry names its binding, the PlacementRule or the Placement if it exists, and nothing more or a listing PolicySet with its exclusions |
| `DecisionSets.EntriesOnce` | controllers/common/common_status_update.go:72-107 | a binding that names the policy or a PolicySet repeatedly has one entry for it |
| `DecisionSets.AddClusters` | controllers/common/common_status_update.go:165-171 | adding a binding to each of its clusters adds nothing else, repeats nothing, and finds whether a cluster was there before |
| `DecisionSets.SortDecisionSet` | controllers/common/common_status_update.go:173-178 | every entry becomes strictly sorted with the same names |
| `DecisionSets.GetClusterDecisions` | controllers/common/common_status_update.go:185-273 | each key maps to the strictly sorted names of all bindings that bind the policy and list the cluster, and every such cluster is a key; the placement list is sorted by its key |
| `PlacementOrder.DecisionSetIgnoresOrder` | controllers/common/common_status_update.go:205-260 | the decision set does not depend on the order of the bindings |
| `PlacementOrder.KeyIsInjective` | controllers/common/common_status_update.go:263-270 | the space-joined sort key determines the four names |
| `PlacementOrder.PlacementsInOrder` | controllers/common/common_status_update.go:263-270 | the placement list is ordered by binding, then Placement, PlacementRule and PolicySet |
| `PlacementOrder.KeyDeterminesEntry` | controllers/common/common_status_update.go:263-270 | among the entries of a namespace, the sort key determines the entry |
| `PlacementOrder.SettledIgnoresOrder` | controllers/common/common_status_update.go:228-270 | a settled placement list is the same in every order of the bindings |
| `PlacementOrder.OrderMattersExactly` | controllers/common/common_status_update.go:228-270 | the placement list depends on the order if and only if some restricted binding shares a cluster with another restricted one and is not listed on its own account |
| `PlacementOrder.CoveredIsSettled` | controllers/common/common_status_update.go:228-258 | if every cluster of a restricted binding is listed by an unrestricted one, the order does not matter |
| `RootStatus.PlacedExactly` | controllers/propagator/replicatedpolicy_controller.go:395-561 | the per-cluster decision is positive exactly when the decision-set entry holds an unrestricted binding that reaches the policy there, and then the cluster is a key |
| `RootStatus.PlacedIsKeys` | controllers/common/common_status_update.go:185-273 | without restricted bindings and exclusions, the keys are exactly the clusters the policy is placed on |
| `RootStatus.ComputeRemainingBindings` | controllers/common/common.go:508-564 | reported for a cluster are, sorted, exactly the bindings of its entry that no placement excludes there, when some placement excludes it |
| `RootStatus.RemainingExactly` | controllers/common/common.go:508-564 | a binding with its entries in the placement list is reported exactly when it lists the cluster, no PolicySet of it excludes the cluster, and some placement does |
| `RootStatus.RemainingIsPlaced` | controllers/common/common.go:506-564 | every unrestricted binding that is reported makes isSingleClusterInDecisions true, so the policy is still placed there |
| `RootStatus.CalculatePerClusterStatus` | controllers/common/common_status_update.go:278-333 | one status per key of the decision set, strictly sorted by cluster, with its remaining bindings and the compliance of its replica, empty if there is none or its lookup failed; an error exactly when some lookup failed |
| `RootStatus.StatusFields` | controllers/common/common_status_update.go:295-326 | the compliance and the remaining bindings each status holds |
| `RootStatus.CalculateRootCompliance` | controllers/common/common_status_update.go:337-370 | the severity maximum over the clusters, NonCompliant over Pending over unknown over Compliant; empty without clusters |
| `RootStatus.RootComplianceExactly` | controllers/common/common_status_update.go:337-370 | which compliance the root has, case by case over the clusters |
| `RootStatus.StatusIgnoresOrder` | controllers/common/common_status_update.go:278-370 | clusters, compliance states and root compliance do not depend on the order of the bindings; nor do the remaining bindings, if the placement list is settled |
| `RootStatus.RemainingDependsOnOrder` | controllers/common/common_status_update.go:289-303 | two orders of the same bindings for which the reported remaining bindings differ |
| `RemainingOrder.ReportedExactly` | controllers/common/common.go:517-557 | for every order of the bindings, a binding is reported exactly when it lists the cluster, has no listed placement that excludes it, and some binding has |
| `RemainingOrder.RemainingOrderExactly` | controllers/common/common.go:508-564 | the remaining bindings of a cluster depend on the order of the bindings if and only if the cluster is unsteady: a condition on which bindings list it, exclude it, and share clusters |
| `RemainingOrder.StatusSameExactly` | controllers/common/common_status_update.go:289-332 | the status list is the same for another order exactly when no cluster has other remaining bindings |
| `Enqueue.GetAffectedObjs` | controllers/common/common.go:342-362 | each value once for which "in the first list" plus its multiplicity in the second is one |
| `Enqueue.DifferenceExactly` | controllers/common/common.go:342-362 | that is the symmetric difference if and only if whatever the second list repeats is also in the first |
| `Enqueue.LabelRoundTrip` | controllers/common/common.go:280-302 | parsing the root-policy label gives back name and namespace, and fails exactly without a dot |
| `Enqueue.ReplicaParses` | controllers/common/common.go:320-325 | a request is in the cluster's namespace, and its name parses back to the policy and its namespace |
| `Enqueue.GetPoliciesInPlacementBinding` | controllers/common/common.go:141-188 | exactly the policies that are subjects or in subject PolicySets, each once |
| `Enqueue.GetRepPoliciesInPlacementBinding` | controllers/common/common.go:307-329 | exactly the replicas of those policies on the clusters of the placement, each as often as the cluster is listed |
| `Enqueue.GetRootPolicyRequests` | controllers/common/common.go:373-404 | exactly the policies of the bindings that refer to the placement |
| `Enqueue.IsForPolicyOrPolicySet` | controllers/common/common.go:107-120 | whether some subject is a Policy or a PolicySet |
| `Enqueue.BindingCreated` | controllers/propagator/replicatepolicy_pb_eventHandler.go:101-120 | exactly the replicas the binding selects are added |
| `Enqueue.BindingUpdated` | controllers/propagator/replicatepolicy_pb_eventHandler.go:38-74 | what is added: everything either version selects if the override or the filter changed, else what the counting of GetAffectedObjs leaves |
| `Enqueue.DecisionUpdated` | controllers/propagator/replicatepolicy_pd_eventHandler.go:38-79 | exactly the policies bound to the placement, on the clusters of the affected decisions, are added |
| `Enqueue.DecisionAppearedOrWent` | controllers/propagator/replicatepolicy_pd_eventHandler.go:95-138 | exactly the policies bound to the placement, on every cluster of the decision, are added |
| `EnqueueComplete.CreateIsComplete` | controllers/propagator/replicatepolicy_pb_eventHandler.go:31-35 | creating a binding, wherever it is listed, enqueues every replica whose decision changes |
| `EnqueueComplete.UpdateMissesExactly` | controllers/propagator/replicatepolicy_pb_eventHandler.go:38-74 | among some other bindings an update misses a replica whose decision it changes, if and only if override and filter stay, the new version selects the replica, so does the old one or the cluster is listed twice, only one of them reaches the cluster, and the binding is unrestricted or enforces |
| `EnqueueComplete.UpdateIsComplete` | controllers/propagator/replicatepolicy_pb_eventHandler.go:38-74 | with no PolicySet excluding the cluster and no repeated cluster, an update of a binding enqueues every replica whose decision changes |
| `EnqueueComplete.ExclusionIsMissed` | controllers/propagator/replicatepolicy_pb_eventHandler.go:69-73 | an update that places a policy on a cluster and enqueues nothing |
| `EnqueueComplete.DecisionUpdateMissesExactly` | controllers/propagator/replicatepolicy_pd_eventHandler.go:38-79 | with some bindings an update of a PlacementDecision with unchanged label misses a replica whose decision it changes, if and only if its Placement exists, the cluster is gone from it, is in no other decision of that Placement, and had only been listed by repeated choices |
| `EnqueueComplete.DecisionUpdateIsComplete` | controllers/propagator/replicatepolicy_pd_eventHandler.go:38-79 | without repeated decisions in the old version, every replica whose decision changes is enqueued |
| `EnqueueComplete.DecisionUpdateIsSound` | controllers/propagator/replicatepolicy_pd_eventHandler.go:38-79 | an update enqueues only policies that bindings of this very Placement name, on clusters the two versions list differently |
| `EnqueueComplete.NamesExactly` | controllers/common/common.go:141-188 | the policies of a binding are exactly those it binds |
| `EnqueueComplete.DecisionAppearsIsComplete` | controllers/propagator/replicatepolicy_pd_eventHandler.go:95-138 | creating or deleting a PlacementDecision enqueues every replica whose decision changes |
| `Dependencies.CanonicalizeDependencies` | controllers/propagator/replication.go:157-224 | the canonical form of a list of dependencies, in order |
| `Dependencies.BuildDependencies` | controllers/propagator/replication.go:122-135 | the dependencies and the extraDependencies of each template of a replica are canonical |
| `Dependencies.GetPolicySetDependencies` | controllers/propagator/replication.go:227-267 | the PolicySets named by any dependency or extra dependency |
| `Dependencies.CanonicalConcat` | controllers/propagator/replication.go:157-224 | lists are canonicalised one dependency after the other, in order |
| `Dependencies.PolicyCanonical` | controllers/propagator/replication.go:200-216 | a Policy dependency keeps kind, version and compliance, and its new name cuts back to the namespace that was meant and the name that was given; a dotted name without a namespace stays |
| `Dependencies.SetCanonical` | controllers/propagator/replication.go:165-199 | an existing PolicySet becomes, in order, one Policy dependency per listed policy, whose name cuts back to the set's namespace and that policy, with the set's compliance |
| `Dependencies.MissingSetCanonical` | controllers/propagator/replication.go:165-199 | a missing PolicySet stays, with the namespace that was meant |
| `Dependencies.OtherCanonical` | controllers/propagator/replication.go:216-224 | every other dependency is unchanged |
| `Dependencies.CanonicalTwice` | controllers/propagator/replication.go:157-224 | canonicalisation is idempotent on a fixed snapshot |
| `Dependencies.PoliciesAreDotted` | controllers/propagator/replication.go:157-224 | every Policy dependency ends up without a namespace and with a dotted name |
| `Dependencies.WatchSetCovers` | controllers/propagator/replication.go:227-267 | snapshots that agree on the watched PolicySets give identical dependencies and extraDependencies |
| `Dependencies.WatchSetIsNeeded` | controllers/propagator/replication.go:227-267 | every watched PolicySet matters: emptying it or removing it gives different results |

## Left out

- ResolverRegistryProofs.StepKeepsInv: the registry is a value-level state machine, not a class, because its steps interleave; construction of a resolver is a step that succeeds or fails.
- ReplicaProtocolProofs.StepKeepsInv: the reconcile is a value-level state machine for the same reason; what the root policy and the placements say is an arbitrary outcome of the decide step.
- PlacementOrder.SettledIgnoresOrder: Go's stable sort is modelled as a sorted arrangement; with the injective key it is the only one.
- Errors of API calls in the placement algebra: they abort the call and requeue.
- Template resolution, JSON, encryption, token issuance and files.
- The handlers for deleted bindings, PlacementRules and PolicySets, and the ManagedCluster handler.
- `scan` mode, manual reruns and the violation context of a PolicyAutomation: little state.
- `processPolicySet`: an easier aggregation, and its placement list follows map iteration order.
- The comparison that decides whether a root status is written: it tells nil from empty slices, which sequences do not.
- Labels and annotations of a replica, which are edited in the root's own maps.
- Metrics, logging, event recording, TLS, deployment files and generated code.
