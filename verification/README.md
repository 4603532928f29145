# Verified model of the NVIDIA network operator's stateful core

The network operator keeps driver DaemonSets, drain requests and policy objects of a Kubernetes
cluster in line with its custom resources. This project models the places where it keeps state
across calls, restarts and concurrent writers, and proves what they guarantee:

- **Deferred cleanup of OFED DaemonSets** (`Retention`, `StateOfed`, `OfedSync`, `OfedRuns`, on top of
  the shared create/update/delete engine in `StateSkel`). A DaemonSet whose node pool has no eligible
  node is marked and kept for 20 minutes. The theorems quantify over runs that mix Syncs of any
  policies, complete or cut short by any API error, restarts anywhere, and foreign activity that
  leaves the watched DaemonSet's labels, node selector, marker and deletion mark alone and may write
  its status and anything else.
- **The shared-requestor drain protocol** (`DrainProtocol`, `DrainCompletion`, `DrainRequestor`) and the
  controller that drives it (`DrainController`). Every API call is one atomic step, steps of any number
  of requestors interleave, reads may lag and replies may get lost. The requestor's code is proved to
  make exactly the requests and the write of the protocol's call, and the controller's results are about
  the calls it makes of that code and the versions they decided on.
- **Node pools and tolerations** (`NodeInfo`, `Tolerations`), **policy exclusivity** (`PolicyOverlap`,
  `Admission`), **upgrade managers** (`UpgradeController`), and **aggregation and wake-up**
  (`StateManager`, `Conditions`, `ProxyEnqueuer`).

The API server is an explicit store (`Objects`, `ApiServer`). Code that works by updating things is
modelled by classes and loops whose contracts refer to functions on values; the theorems are about
those functions. Times are integers in nanoseconds, durations are 64-bit with Go's saturation and
wrap-around. The revision hash, the numeric comparison of tolerations and manifest rendering are
parameters, so the results hold for every choice of them.

Where the code and its documentation disagree, the model follows the code:

- The grace period is counted from the whole second of the first observation, because the marker has
  no fractions, so it can end up to one second before 20 minutes have passed.
- `ds-owner` of a NicNodePolicy is `nnp-<name>`, not `NicNodePolicy-<name>`.
- The comment on the proxy enqueuer says that coalescing an event with a pending retry loses nothing.
  That is so if and only if the retry has not listed yet. An event that arrives after the listing only
  gets the policies listed before it, and one that arrives after the retry queued its policies and
  before it clears its flag is dropped; both states are reachable.
- The drain requestor's delete carries no identity of the object it read. It hits the requestor's own
  object, and a completion is not reported early, if no two completions of one requestor are in flight
  together and completions read the current version; drains may overlap anything and read old versions.
  Without the first condition alone, and without the second alone, a run from the initial state breaks
  this. The work queue does not give the first, since one node is enqueued under two keys.
- The admission check compares a NicNodePolicy with the first NicClusterPolicy listed. Exclusivity is
  kept if and only if the others define none of its sections, in particular with at most one of them.
- Results that a controller puts together by hand, with a status and no states, set the Ready condition
  to true even when the status is an error.

## Model

| member | source | states |
|---|---|---|
| Retention.RemainingExact | pkg/state/state_ofed.go:644-659 | grace is left exactly while less than 20 minutes have elapsed since the marker, and then it is the difference; the only exception is a marker so far in the future that the 64-bit subtraction wraps |
| Retention.StaleRetention.Protect | pkg/state/state_ofed.go:541-548 | keeps the invariant that the deadline is the shortest of all grace periods protected so far, and 0 exactly when nothing is protected |
| Retention.MarkStaleSince | pkg/state/state_ofed.go:662-692 | returns the readable marker or now, and stamps now rounded down to the second exactly when there is no readable marker; an error writes nothing |
| Retention.ClearStaleSince | pkg/state/state_ofed.go:694-711 | removes the marker and nothing else |
| Retention.DeferralRemaining | pkg/state/state_ofed.go:605-660 | the remaining grace of a recoverable DaemonSet and 0 for one whose pool is unknown, retargeted or live, with the store changed by the marker at most |
| Retention.PlanStaleRetention | pkg/state/state_ofed.go:568-603 | marks, un-marks and protects exactly the state's DaemonSets; the deadline is the minimum remaining grace over the protected ones; an error leaves each object untouched or fully dealt with, and comes exactly from a failed call or an API without DaemonSets |
| StateOfed.StateOfed.GetManifestObjects | pkg/state/state_ofed.go:847-897 | fails iff a pool cannot be rendered; otherwise the objects of all pools in order, of each name the first |
| StateOfed.ManifestExact | pkg/state/state_ofed.go:885-894 | every rendered name exactly once, and as it was rendered first |
| StateOfed.RenderingsExact | pkg/state/state_ofed.go:877-894 | the list that is made unique has exactly the objects rendered for the pools |
| StateOfed.StateOfed.GetSyncState | pkg/state/state_skel.go:490-551 | Ready exactly when every rendered object exists and every DaemonSet has a pod wanted somewhere and the three counters equal; not ready on error, which comes exactly from a failed call |
| StateOfed.StateOfed.Sync | pkg/state/state_ofed.go:364-448 | the store after a complete Sync, the stores an erring one may leave, the pools from the eligible nodes, the rendered objects from the pools, the requeue as the minimum remaining grace, and the reported state in every case: Ready or NotReady, NotReady or Ignore without a driver section, Error exactly when rendering failed; an error exactly if an API call failed, rendering failed, a rendered object names another controller or DaemonSets are not served; independent of the state's fields before the call |
| OfedSync.SyncAtUndesired | pkg/state/state_ofed.go:421-433 | a complete Sync leaves a DaemonSet it did not render marked, and terminating exactly when no grace is left |
| OfedSync.StaleStages | pkg/state/state_ofed.go:411-433 | a Sync cut short anywhere leaves a stale DaemonSet as it was, marked, or as the complete Sync would |
| OfedSync.DesiredStages | pkg/state/state_ofed.go:584-592 | a Sync that renders a DaemonSet never deletes it and, if it completes, leaves it without marker |
| OfedSync.IntentIsImmediate | pkg/state/state_ofed.go:605-642 | a DaemonSet that is not rendered is deleted at once if some node that matches its node selector is not the policy's any more, if its selector lacks a pool label, if the pool it names is live, or if the driver section is gone |
| OfedSync.OtherwiseDeferred | pkg/state/state_ofed.go:605-660 | in every other case a DaemonSet seen stale for the first time is marked and stays |
| OfedSync.RenderedIsNeverDeleted | pkg/state/state_skel.go:380-450 | no rendered object, of whatever kind, is deleted, however the Sync ends |
| OfedSync.RequeueReaps | pkg/state/state_ofed.go:457-461 | some DaemonSet the Sync protected is deleted by every Sync that runs no sooner than the requested delay, whatever happened in between to other objects and to the status and specification of this one |
| OfedSync.DsOwnerInjective | pkg/state/state_skel.go:85-94 | owner label values coincide exactly for the same policy |
| OfedSync.StaleHandlingIsScoped | pkg/state/state_skel.go:405-450 | stale handling for one policy changes no object labelled for another, on any store |
| OfedSync.OtherPolicySyncIsForeign | pkg/state/state_skel.go:322-332 | Syncs of other policies, complete or not, leave a DaemonSet they do not render alone |
| OfedSync.SharedObjectsFollowDaemonSets | pkg/state/state_ofed.go:529-539 | shared objects are kept while some DaemonSet is protected, and nothing undesired survives when none is |
| OfedRuns.ReapedOnlyAfterGrace | pkg/state/state_ofed.go:568-711 | in every run mixing Syncs of any policies and foreign status writes without intent to remove: a deletion is by a Sync of the DaemonSet's policy and preceded by a stale Sync of it at least the grace period earlier, counted from its whole second, with no complete Sync finding the DaemonSet desired since |
| OfedRuns.ReapedExactlyAtDeadline | pkg/state/state_ofed.go:644-654 | in every run in which the policy's Syncs find the DaemonSet stale, among any Syncs of others and foreign status writes: not deleted before floor(t0) + 20 minutes, deleted by every complete Sync from then on |
| OfedRuns.FirstObservation | pkg/state/state_ofed.go:681-691 | the first stale Sync stamps its whole second and protects for the full grace period |
| StateSkels.StateSkel.CreateOrUpdateObjs | pkg/state/state_skel.go:267-320 | applies all objects, or on error exactly a prefix of them; an error exactly if a call failed or an object names another controller |
| StateSkels.ApplyAllAt | pkg/state/state_skel.go:272-318 | with distinct names the outcome for one object depends on that object alone |
| StateSkels.ApplyAllFrame | pkg/state/state_skel.go:272-318 | objects that were not rendered are untouched |
| StateSkels.AppliedCarriesRevision | pkg/state/state_skel.go:282-318 | every rendered object is stored with the desired revision |
| StateSkels.AppliedContent | pkg/state/state_skel.go:276-318 | an object is left alone because its revision is the desired one, or it is stored as rendered, with all its labels and annotations and nothing but the state's labels and the revision added, owned, under a new version |
| StateSkels.ApplyKeepsClusterState | pkg/state/state_skel.go:452-488 | ServiceAccount secrets survive, deletion marks and status counters are not touched |
| StateSkels.SecondPassWritesNothing | pkg/state/state_skel.go:306-310 | a second pass over equal renders is a no-op, whatever happened to stale markers, if and only if no revision is zero |
| StateSkels.StateSkel.DeleteStateRelatedObjects | pkg/state/state_skel.go:416-450 | Delete goes to exactly the labelled objects of supported and served kinds that are neither desired, retained nor terminating; found iff an undesired unretained object exists; an error exactly if a call failed |
| StateSkels.StateSkel.HandleStaleStateObjects | pkg/state/state_skel.go:380-403 | the same with the rendered objects as the desired ones |
| StateSkels.StateSkel.HandleStateObjectsDeletion | pkg/state/state_skel.go:334-347 | the same with nothing desired and nothing retained; NotReady while something is left to remove, else Ignore, and Error on an error |
| Revisions.RevisionRoundTrip | pkg/revision/revision.go:42-59 | a revision read back is the one set, for every 32-bit value |
| Revisions.MarkerKeepsRevision | pkg/state/state_ofed.go:681-706 | stamping or clearing the marker does not change the revision |
| Tolerations.MergeTolerations | pkg/state/state_ofed.go:818-830 | the loop computes the merge |
| Tolerations.CoversToleration | pkg/state/state_ofed.go:832-844 | found iff key, effect and operator coincide with some entry |
| Tolerations.MergeMeansUnion | pkg/state/state_ofed.go:818-844 | with Exists additions the base is a prefix and a taint is tolerated iff the base or an addition tolerates it |
| Tolerations.MergeDropsOtherValues | pkg/state/state_ofed.go:832-844 | the Exists restriction is needed |
| Tolerations.SchedulableMeansUnion | pkg/state/state_ofed.go:741-816 | what the pod template and node discovery tolerate, as unions |
| Tolerations.OperatorTolerates | pkg/state/state_ofed.go:741-758 | exactly the taints the driver's own tolerations cover |
| Tolerations.DaemonSetControllerTolerates | pkg/state/state_ofed.go:764-801 | exactly the taints the DaemonSet controller's tolerations cover |
| NodeInfo.LabelFilter | pkg/nodeinfo/filter.go:40-55 | keeps exactly the nodes that carry all labels, in order and as often as they occur |
| NodeInfo.TaintFilter | pkg/nodeinfo/filter.go:153-161 | keeps exactly the nodes all of whose taints are tolerated, in order and as often as they occur |
| NodeInfo.ToleratesTaints | pkg/nodeinfo/filter.go:163-177 | true iff every taint is tolerated |
| NodeInfo.ToleratesTaint | pkg/nodeinfo/filter.go:179-187 | true iff some toleration tolerates the taint |
| NodeInfo.GetNodePools | pkg/nodeinfo/node_info.go:71-140 | distinct names, exactly those of the nodes with the four labels, each pool with the name and attributes of the first of its nodes |
| NodeInfo.ContainerRuntimeExact | pkg/nodeinfo/node_info.go:142-157 | the known runtime the version string starts with |
| NodeInfo.OfedNodePools | pkg/state/state_ofed.go:463-473 | the same for the nodes with a NIC whose taints are tolerated |
| NodeInfo.LivePools | pkg/state/state_ofed.go:475-482 | the pool names are those of the eligible nodes with the four labels |
| NodeInfo.EligibleExact | pkg/state/state_ofed.go:463-473 | a node is eligible iff it has the NIC label and the policy, the driver or the DaemonSet controller tolerates each of its taints |
| NodeInfo.TemplateTolerationsSuffice | pkg/state/state_ofed.go:808-816 | a NIC node the pod template tolerates is eligible |
| NodeInfo.RetargetedMeansLostNode | pkg/state/state_ofed.go:497-516 | retargeted iff some label set matches the rendered selector but not the policy's |
| NodeInfo.RenderedSelectorRoundTrip | pkg/state/state_ofed.go:484-495 | the selector rendered for a pool of the policy's nodes leads back to the pool's name and is not retargeted |
| NodeInfo.RenderedSelectorMatchesPool | pkg/state/state_ofed.go:484-516 | the selector rendered for a pool matches every NIC node of the policy with the pool's labels |
| DrainProtocol.ListSafety | pkg/drain/drain_requestor.go:284-333 | in every interleaving: no duplicate, never the owner, every list change is the committing requestor's own, and a drain reported done rests on a version where the requestor was registered and the maintenance ready |
| DrainProtocol.SafeFromStart | pkg/drain/drain_requestor.go:284-333 | the same for every run from the state without an object and without calls |
| DrainProtocol.StepChangesList | pkg/drain/drain_requestor.go:393-411 | a step adds or removes exactly the committing requestor or leaves the list alone |
| DrainProtocol.NoLostRegistration | pkg/drain/drain_requestor.go:311-322 | a registered requestor stays registered while the object exists and it does not withdraw |
| DrainProtocol.CreatorNeverReportsDrained | pkg/drain/drain_requestor.go:324-367 | in every interleaving a drain call that found no object never reports the node drained, whether its creation won, lost or was not answered |
| DrainProtocol.WithoutExact | pkg/drain/drain_requestor.go:399-401 | the filtered list has every other requestor once and not this one |
| DrainCompletion.CompletionPoint | pkg/drain/drain_requestor.go:369-430 | if no two completions of a requestor overlap and completions read the current version, drains being free, then when a completion is decided the object is gone, or the requestor's own and terminating, and a deciding delete hit the requestor's own live object |
| DrainCompletion.CompletionWithdraws | pkg/drain/drain_requestor.go:393-411 | under the same conditions a completion that is decided, whatever it answers, leaves the requestor out of the list |
| DrainCompletion.ReleasedStays | pkg/drain/drain_requestor.go:256-281 | from then on the requestor has no live object and is in no list, while it has no drain in flight |
| DrainCompletion.OverlapDeletesForeignObject | controllers/drain_controller.go:407-446 | a run from the initial state with current reads in which the second of two overlapping completions deletes another requestor's live object and reports success |
| DrainCompletion.LaggingReadCompletesEarly | pkg/drain/drain_requestor.go:372-378 | a run from the initial state without overlap in which a completion that reads an old version succeeds while the requestor's own object is live |
| DrainCompletion.CompletionDoesNotExcludeOthers | pkg/drain/drain_requestor.go:376-378 | a run from the initial state that meets both conditions in which another requestor's creation follows the deciding read; the caller is still released |
| DrainRequestors.DrainRequestor.CreateOrUpdateNodeMaintenance | pkg/drain/drain_requestor.go:284-367 | under any interference the call sends exactly the read and the write of the protocol's drain call, the write has the protocol's effect on the history right before it, errors are reported exactly when a reply failed, and the object returned is the version decided on or, when the creation lost the race, the caller's unsent copy |
| DrainRequestors.DrainRequestor.DeleteOrUpdateNodeMaintenance | pkg/drain/drain_requestor.go:369-411 | the same for the protocol's completion call; besides the read it sends a delete for a live object of its own, the list without itself and with everyone else for one it is listed on, otherwise nothing; deleted exactly if it read no object or its own, and a delete leaves the object absent or terminating |
| DrainRequestors.DrainRequestor.DrainNode | pkg/drain/drain_requestor.go:214-251 | no request at all for a single-node reboot or an orchestrator that is not done, otherwise one drain call, reported drained exactly when it decides so |
| DrainRequestors.DrainRequestor.CompleteDrainNode | pkg/drain/drain_requestor.go:256-281 | the protocol's completion call, reported exactly when it decides so and the orchestrator is done |
| DrainRequestors.ReadIsStep | pkg/drain/drain_requestor.go:335-351 | in any state of the protocol, the code's read is a step of the protocol, which decides the call, as the code does, when nothing is to be written |
| DrainRequestors.WriteIsStep | pkg/drain/drain_requestor.go:284-430 | in any state of the protocol, the code's write, with whatever reply, is a step of the protocol |
| DrainRequestors.DrainRestsOn | pkg/drain/drain_requestor.go:235-250 | a drain is decided on a ready version, in shared mode with the requestor on it, no older than the one read |
| DrainRequestors.CompletionRestsOn | pkg/drain/drain_requestor.go:369-430 | a completion is decided on a version without a live object, no older than the one read, and the one read had no object or the requestor's own |
| DrainController.DrainReconcile.Reconcile | controllers/drain_controller.go:94-195 | which drainer call is made when, with the requests it sends and the answer it gives; the current annotation changes only absent to Idle, non-complete to DrainComplete on a drain decided by that call, or Draining or DrainComplete to Idle on a completion decided by that call; nothing changes and nothing is called without the external-drainer annotation; an error exactly if a call failed or the annotations are unexpected |
| DrainController.DrainReconcile.EnsureAnnotations | controllers/drain_controller.go:135-158 | without error all three annotations are there afterwards, the missing ones as Idle, and it reports whether all were there before |
| DrainController.DrainReconcile.HandleNodeIdle | controllers/drain_controller.go:222-262 | makes the requestor's completion call, goes back to Idle only if it is decided, requeues exactly if it is not, and changes nothing otherwise |
| DrainController.DrainReconcile.HandleNodeDrainOrReboot | controllers/drain_controller.go:264-323 | makes the requestor's drain call unless the drain is complete already or the nodes needed for a reboot cannot be listed, with the single-node shortcut exactly for a reboot in a one-node cluster; DrainComplete only if it is decided, requeues exactly if it is not |
| DrainController.DrainCompleteIsEarned | controllers/drain_controller.go:186-191 | over every run DrainComplete means that a Reconcile in which a drain was requested made a drain call that decided so, in force ever since: on a reboot of a single-node cluster, or on a version that was ready with the requestor on it, and current during that Reconcile if its read was |
| DrainController.DrainEndsByCompletion | controllers/drain_controller.go:163-184 | over every run a drain ends only by a Reconcile in which Idle was requested and whose completion call decided so: it read no object or the requestor's own and decided on a version without a live object, current during that Reconcile if its read was |
| PolicyOverlap.ResolveNodesByPolicy | pkg/policyoverlap/overlap.go:40-71 | each policy that passes the filter with the nodes of its own listing; fails iff one of these listings does |
| PolicyOverlap.DetectNodeOverlap | pkg/policyoverlap/overlap.go:73-113 | fails iff a listing does, otherwise exactly the nodes selected by two or more policies, ascending, each with all its policies ascending |
| Sorting.LessExact | pkg/policyoverlap/overlap.go:96-108 | the order of the reports is lexicographic |
| PolicyOverlap.DetectSectionConflict | pkg/policyoverlap/overlap.go:131-184 | exactly the sections defined by both sides |
| Admission.ValidateNicClusterPolicyOverlap | api/v1alpha1/validator/nicpolicy_webhook.go:197-214 | rejected iff the listing succeeded and a section conflicts; a failed listing admits |
| Admission.ValidateNicNodePolicyOverlap | api/v1alpha1/validator/nicpolicy_webhook.go:218-274 | rejected iff, as far as the listings succeeded, the first cluster policy conflicts or a node would be selected twice |
| Admission.PoliciesStayExclusive | api/v1alpha1/validator/nicpolicy_webhook.go:124-194 | over every history of admitted writes in which the first cluster policy decides no node has two policies and no section two kinds |
| Admission.AdmittedIffExclusive | api/v1alpha1/validator/nicpolicy_webhook.go:197-274 | the policies after a write are exclusive if and only if it is admitted and the cluster policies after the first share no section with it; with at most one cluster policy, if and only if it is admitted |
| Admission.SecondClusterPolicyIsIgnored | api/v1alpha1/validator/nicpolicy_webhook.go:230-237 | three admitted writes to an empty cluster end with a section defined by both kinds, because the second cluster policy is not compared |
| UpgradeController.UpgradeReconciler.ReconcileNodePolicyUpgrades | controllers/upgrade_controller.go:161-252 | a manager leaves only if a cleanup was run for it and succeeded, cleanups are run only for managers of inactive policies, managers are created and upgrades applied for active ones only; without error every active policy has a manager and its upgrade state was built and applied, every other survivor had a cleanup that failed, requeue exactly if some policy is active or some cleanup failed, and so whenever the map is not empty; an error exactly if a creation or an upgrade failed |
| UpgradeController.ManagersAreNotForgotten | controllers/upgrade_controller.go:238-249 | over any number of reconciles and restarts a manager disappears only by a restart or by a cleanup that was run for it and succeeded while its policy was inactive |
| UpgradeController.NoManagerNoCleanup | controllers/upgrade_controller.go:184-249 | after a restart dropped a manager no cleanup is run for it as long as its policy stays inactive |
| StateManager.SyncStates | pkg/state/manager.go:87-127 | results in order, Ready iff no state is not ready or in error, requeue the soonest positive request |
| StateManager.ReadyReconcileWakesInTime | controllers/nic_policy_helpers.go:59-68 | a Ready reconcile is repeated no later than any protected DaemonSet's grace ends |
| StateManager.NoDeadlineNoWakeUp | controllers/nic_policy_helpers.go:63-68 | nothing is scheduled iff no state asked |
| StateManager.UnsettledIsRetried | controllers/nicnodepolicy_controller.go:107-123 | a policy with a state that is not ready or in error, or with wait labels to do, is retried after the configured interval |
| Conditions.ComputePolicyConditions | controllers/conditions.go:42-120 | unique types, reported components reflect their results, unreported ones are dropped, unmapped conditions are untouched, Ready summarises |
| Conditions.PresentIffReported | controllers/conditions.go:54-96 | a component condition is present iff its state was reported and not ignored |
| Conditions.ConditionTellsResult | controllers/conditions.go:62-84 | a component's condition is True exactly for a ready state, with the reason and the error's text |
| Conditions.ReadyTellsWorst | controllers/conditions.go:98-117 | the Ready condition's status and reason: an error outweighs a component that is not ready, and True means neither occurs |
| Conditions.TransitionFollowsStatus | controllers/conditions.go:28-30 | a transition time is the existing one if the status is, and else the time of the call |
| Conditions.ReadyAgreesWithStatus | controllers/conditions.go:98-117 | for a manager's results Ready and the overall status agree, except exactly when the status is ready and some state reports a reset |
| Conditions.HandBuiltResultsReadReady | controllers/nicnodepolicy_controller.go:84-90 | results without states remove all component conditions and set Ready to true, whatever their status |
| Conditions.TableIsInjective | api/v1alpha1/nicclusterpolicyconditions.go:65-85 | no two states share a condition type and none uses Ready |
| ProxyEnqueuer.OneRetryInFlight | controllers/nic_policy_helpers.go:232-241 | at most one background retry in every interleaving |
| ProxyEnqueuer.ListedEventIsServed | controllers/nic_policy_helpers.go:218-224 | an event whose own listing succeeds queues exactly the policies listed, whatever happens in between |
| ProxyEnqueuer.EventBeforeListingIsServed | controllers/nic_policy_helpers.go:234-260 | an event handed over before the retry's listing is followed by queueing every policy then listed, unless cancelled |
| ProxyEnqueuer.CoalescedIsServedIffPolling | controllers/nic_policy_helpers.go:236-253 | the retry an event is coalesced with lists afterwards if and only if it was still polling, and then queues all it listed |
| ProxyEnqueuer.EventAfterListingGetsOldList | controllers/nic_policy_helpers.go:246-253 | an event coalesced between listing and queueing is followed by queueing what was listed before it and nothing else |
| ProxyEnqueuer.EventAfterQueueingIsLost | controllers/nic_policy_helpers.go:236-253 | an event coalesced after the retry queued its policies leads to no queueing at all |
| ProxyEnqueuer.LostEvent | controllers/nic_policy_helpers.go:234-260 | a run with no retry at its start and end that drops an event on the way |
| ProxyEnqueuer.StaleListing | controllers/nic_policy_helpers.go:246-253 | a run from the empty state in which a policy that appeared before the event is not queued for it |

## Left out

- Manifest rendering, YAML and JSON, templates and the container image choice: rendering is a parameter.
- The OpenShift proxy and trusted CA handling inside Sync: it only feeds the rendering.
- RFC 3339 text: a timestamp annotation is represented by the instant it denotes, any other text by itself.
- The per-component states other than OFED: copies of the same Sync skeleton.
- The hash behind the revision and DaemonSet names: results hold for any hash; two policies whose rendered names collide are excluded where a result says the DaemonSet is not rendered by the other policy.
- The registry tag provider, release tooling and Python scripts: network clients and tooling.
- The upstream upgrade state machine, the orchestrator and the maintenance operator: they may answer anything the contracts allow; the maintenance operator removes only terminating objects.
- Webhook field checks by regular expression and JSON schema.
- Wait-label handling, network CR controllers, migration and watch predicates.
- The applied-state list in the policy status and the first-appearance message in it: a single-pass upsert.
- Non-default NodeMaintenance prefixes in the protocol results: registration is skipped there; the requestor's contracts cover both modes.
- What happens inside an upgrade cleanup: only its success or failure is modelled.
- Lagging reads and writes of others inside one Sync: in the OFED part every read is current and nobody else writes between a Sync's own calls; a lagging list could overwrite a marker with a later instant and so postpone the deletion.
- Several transition times within one condition update: all conditions set by one call share one clock reading.
- Writers of the current drain annotation other than the controller: the two run results assume there are none.
- Node names appearing twice in one listing, and label changes between admissions.
