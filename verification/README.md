# Claudie, verified core

A Dafny model of the parts of Claudie where several pieces of state must agree, with
proofs over all inputs, all runs or all interleavings. `dafny verify dfyconfig.toml`
checks the whole project.

- **Results of tasks** (`Spec`, `Merging`, `Deltas`, `Tasks`, `TaskLaws`, `Batching`). Workers build a
  result through in-flight updates and clears; the manager folds it into a task that owns a
  Kubernetes cluster, its load balancers and a pending change. The objects are classes, the
  folding loops are methods, and the laws are about the functions they are proved to compute:
  merging is associative, every run keeps the task sound, a change is rewritten once, a
  deletion loses no node, and a batch of updates equals its parts under exact conditions.
- **Node pools** (`PoolValues`, `NodePools`, `Population`). The node list, the 32-bit count of a dynamic
  pool and the key map of a static pool are three records of one membership, each updated on
  its own. `NodePools` holds the operations on mutable pools, aliasing included; `PoolValues`
  says what they compute and when the three records stay in agreement. `Population` generates
  the nodes that a new dynamic pool announces, from which that agreement starts.
- **Reconcile loop** (`Reconcile`, `SharedConfig`). A step protocol between the resource in the API server
  (with its version history and a lagging cache), the manager's config, the reconciler's
  program counter, users and the manager. A reconcile can stop after every step.
  `SharedConfig` lets two resources run side by side.
- **Ping pool** (`PingPool`, `PingNodes`). Feeder, workers, closer and collector over two
  unbuffered channels as a transition system, and the filing of failed addresses by pool.
- **Manifests** (`Manifests`, `ManifestValidation`, `ManifestLaws`, `ResolutionLaws`,
  `ApiServerRoles`). The validation loops,
  each proved to accept exactly what a declarative specification says, and what acceptance
  guarantees for the resolution that follows.
- **Names** (`Naming`). Escaping and name-with-hash splitting as printer and parser pairs.

`Sequences` holds the shared facts about filters and distinct sequences.

## Findings

Each of these is a property that one could expect and that the code does not have in full.
The first name is the theorem with the exact condition; a second one is a failing input.

- Deleting nodes of a static pool drops the key of an endpoint that a remaining node still
  uses: `PoolValues.StepKeepsSync`, `PoolValues.DeletionCanBreakSync`.
- Nodes copied from a pool without a type are not counted: `PoolValues.StepKeepsSync`,
  `PoolValues.CopyCanBreakSync`.
- An accepted dynamic pool with a negative count does not agree with its nodes once they are
  generated, and one whose autoscaler starts above 255 nodes makes that panic: `Population.PoolReady`,
  `Population.NegativeCountAccepted`, `Population.LargeMinimumAccepted`.
- Deleting a static node without a key records an empty key for it: `TaskLaws.PoolConserved`,
  `TaskLaws.DeletionInventsKey`.
- Copying a pool with replaced nodes forgets the SSH port: `PoolValues.ReplacedLosesPort`.
- A config without built clusters counts as deleted, so the operator never marks it and the
  resource waits for the manager: `Reconcile.DeletionReachable`, `Reconcile.DeletionCanWait`.
- Two resources can share a config name, and then deleting one of them has the
  infrastructure of the other destroyed: `Naming.DashedNameCollision`,
  `Naming.ConfigNameShared`; `SharedConfig.NamesMustDiffer`, `SharedConfig.SharingHarms`.
- A refused update can still have rewritten a deletion: `TaskLaws.FailedUpdate`,
  `TaskLaws.RefusedButRewritten`.
- A batch hides an update by a later one of the same load balancer for another cluster:
  `Batching.BatchedLookup`, `Batching.BatchingCanLoseUpdate`.
- A batch can change the order of new load balancers: `Batching.BatchedExactly`,
  `Batching.BatchingCanReorder`.
- A batch can record another setting for a pool that leaves autoscaling:
  `Batching.BatchedTask`, `Batching.BatchingCanChangeScaler`.
- A batch hides an update for another Kubernetes cluster: `Batching.BatchedOutcome`,
  `Batching.BatchingCanHideCluster`.
- The comment at `internal/api/manifest/validate_load_balancer.go:52` promises unique host
  names within a zone; the code remembers only the latest zone of a name. The model follows
  the code: `ManifestLaws.FreshClaimsExactly`, `ManifestLaws.HostNameReused`.
- The error text at `internal/api/manifest/validate_load_balancer.go:144` promises one API server
  load balancer for each cluster; the code checks only the last role with that target port.
  The model follows the code: `ApiServerRoles.ApiServerExactly`, `ApiServerRoles.TwoApiBalancers`.
- Two load balancers may share a static machine: `ManifestLaws.BalancersApart`,
  `ManifestLaws.BalancersMayShareMachine`.
- An accepted static pool can be too large to resolve: `ManifestLaws.ListedPoolsResolve`,
  `ManifestLaws.AcceptedTooLarge`.
- Different names can have the same escaped form: `Naming.CollidesExactly`,
  `Naming.WideNamesCollide`.
- Without workers no failing address is reported: `PingPool.ReturnsFailures`,
  `PingPool.FailureUnreported`.

## Model

| member | source | states |
|---|---|---|
| Spec.IdInjective | proto/pb/spec/utils.go:22-27 | with hashes of the generated length an ID determines name and hash, and conversely |
| Spec.IdCollides | proto/pb/spec/utils.go:22-27 | without that length two clusters of different names can carry the same ID |
| Merging.TakeUpdate | proto/pb/spec/utils_consume.go:229-251 | the inner loop takes the first pending update with the ID out, keeping the order of the rest |
| Merging.MergeInto | proto/pb/spec/utils_consume.go:229-251 | the loop that deletes from the slice it scans computes the recursive merge, order and duplicates included |
| Merging.FindMerge | proto/pb/spec/utils_consume.go:229-251 | looking an ID up after a merge gives the update if there is one, else the old entry |
| Merging.MergeAssociative | proto/pb/spec/utils_consume.go:484-516 | merging is associative for all sequences, with no assumption on IDs, so commits can be grouped at will |
| Merging.CountMerge | proto/pb/spec/utils_consume.go:229-251 | each ID occurs as often as in the longer of the two inputs: nothing is lost, dropped or applied twice |
| Merging.MergeMember | proto/pb/spec/utils_consume.go:229-251 | nothing appears that was in neither input |
| Merging.MergeKeepsDistinct | proto/pb/spec/utils_consume.go:229-251 | merging into distinct IDs keeps them distinct exactly when the updates are distinct |
| Merging.MergeIsOverride | proto/pb/spec/utils_consume.go:229-251 | for distinct IDs the result is the ID-keyed override: old entries keep their positions, unmatched updates follow in order |
| Merging.FilterMerge | proto/pb/spec/utils_consume.go:218-251 | filtering merged updates by target equals merging filtered ones when the updates of an ID agree on their target |
| Deltas.RecordDeletion | proto/pb/spec/utils_consume.go:78-216 | the loops that collect deleted nodes and their keys record the named nodes, in order, and the keys of their endpoints |
| Deltas.LastScaler | proto/pb/spec/utils_consume.go:254-396 | the search returns the autoscaler setting of the last dynamic pool of the name |
| Deltas.ScalerFound | proto/pb/spec/utils_consume.go:260-266 | that setting is the one of the pool at a position when it is dynamic, has the name, and no later pool is so |
| Deltas.AdditionRecorded | proto/pb/spec/utils_consume.go:318-374 | an addition of nodes records whether the pool is new, the pool that is added or extended, and the new nodes by name, in order |
| Deltas.FindPoolFirst | proto/pb/spec/utils_consume.go:80-139 | of several pools of a name the first one is affected by a deletion |
| Deltas.RewriteFinal | proto/pb/spec/utils_consume.go:78-396 | a successful rewrite leaves no message to consume, changes exactly the consumable ones, and keeps topic, handle, pool, names, unreachable infrastructure and details |
| Tasks.TaskResult.StartUpdate | proto/pb/spec/utils_consume.go:518-525 | opens an empty in-flight update that the result does not show yet |
| Tasks.TaskResult.StartClear | proto/pb/spec/utils_consume.go:553-558 | opens an empty in-flight clear |
| Tasks.InFlightUpdate.Kubernetes | proto/pb/spec/utils_consume.go:464-469 | sets the cluster; an absent argument changes nothing |
| Tasks.InFlightUpdate.Loadbalancers | proto/pb/spec/utils_consume.go:471-482 | replaces the load balancers by the present arguments; no argument changes nothing |
| Tasks.InFlightUpdate.Commit | proto/pb/spec/utils_consume.go:484-516 | folds the update into a pending update result by the merge, or installs it, and is then used up |
| Tasks.InFlightClear.Kubernetes | proto/pb/spec/utils_consume.go:539-543 | asks for the cluster to be cleared, keeping the listed load balancers |
| Tasks.InFlightClear.LoadBalancers | proto/pb/spec/utils_consume.go:545-551 | replaces the listed load balancers; no argument changes nothing |
| Tasks.InFlightClear.Commit | proto/pb/spec/utils_consume.go:532-537 | takes the place of whatever the result held |
| Tasks.Task.ConsumeClearResult | proto/pb/spec/utils_consume.go:11-53 | computes the new task and the outcome that `TaskLaws.ClearTakes`, `TaskLaws.RemovalStep` and `TaskLaws.RunSound` describe, for every task kind and every error |
| Tasks.Task.ConsumeUpdateResult | proto/pb/spec/utils_consume.go:56-399 | computes the new task, the emptied result and the outcome that `TaskLaws.UpdateBrings`, `TaskLaws.Refusals`, `TaskLaws.UpdateSettles` and `TaskLaws.RecordedScaler` describe |
| Tasks.Task.ConsumePendingDeletion | proto/pb/spec/utils_consume.go:78-216 | rewrites a deletion against the clusters before the merge, or names the unknown pool or load balancer and changes nothing |
| Tasks.Task.ConsumePendingReplacement | proto/pb/spec/utils_consume.go:254-396 | rewrites the other messages against the clusters after the merge |
| Tasks.Task.ReplaceClusters | proto/pb/spec/utils_consume.go:440-457 | takes over the given clusters in any kind of task, keeps the pending change, and leaves the giver empty |
| Batching.CombineAssociative | proto/pb/spec/utils_consume.go:484-516 | committing in-flight updates is associative |
| Batching.BatchedOutcome | proto/pb/spec/utils_consume.go:218-224 | one by one, updates are accepted exactly when each is for this cluster; a batch exactly when the last cluster it brings is this one |
| Batching.BatchedState | proto/pb/spec/utils_consume.go:218-251 | consuming any number of updates in one batch gives the same outcome, cluster and load-balancer sequence as consuming them one by one, when an ID decides its target |
| Batching.BatchedLookup | proto/pb/spec/utils_consume.go:218-251 | without that condition, for any number of updates, a load balancer is the same either way exactly when no update of it is hidden by a later one for another cluster |
| Batching.BatchedExactly | proto/pb/spec/utils_consume.go:218-396 | any number of updates give the same task either way exactly when none is hidden, new load balancers are mentioned for this cluster in the order in which they are mentioned at all, and the autoscaler setting agrees |
| Batching.BatchedTask | proto/pb/spec/utils_consume.go:254-396 | batch and parts always agree on outcome and cluster, and on the whole task exactly when the load balancers do and a move out of autoscaling sees the same setting first and last |
| Batching.BatchingCanLoseUpdate | proto/pb/spec/utils_consume.go:484-516 | two updates of a load balancer that disagree on its target: present when consumed one by one, absent after the batch |
| Batching.BatchingCanReorder | proto/pb/spec/utils_consume.go:484-516 | two updates that hide nothing and lead to another order in a batch |
| Batching.BatchingCanChangeScaler | proto/pb/spec/utils_consume.go:254-396 | two updates that lead to another recorded autoscaler setting in a batch |
| Batching.BatchingCanHideCluster | proto/pb/spec/utils_consume.go:484-516 | two updates that are refused one by one and accepted in a batch |
| TaskLaws.FailedUpdate | proto/pb/spec/utils_consume.go:78-224 | a refused update leaves clusters and result untouched, and changes the task exactly when a deletion was rewritten before the ID check failed |
| TaskLaws.RefusedButRewritten | proto/pb/spec/utils_consume.go:78-224 | a result for another cluster that is refused after the deletion was rewritten |
| TaskLaws.UpdateSettles | proto/pb/spec/utils_consume.go:56-399 | an accepted update empties the result and leaves a settled message about the same things |
| TaskLaws.UpdateBrings | proto/pb/spec/utils_consume.go:218-251 | an accepted update installs the whole cluster that it brings; looking up a load balancer gives the first update of it for this cluster, or else the old entry; the kind of task stays |
| TaskLaws.Refusals | proto/pb/spec/utils_consume.go:78-224 | which updates are refused for an unknown load balancer, an unknown pool or another cluster, and what the refusal names |
| TaskLaws.ClearTakes | proto/pb/spec/utils_consume.go:11-53 | a clear takes away every listed load balancer and no other, whatever its outcome; it is refused exactly when the cluster is to go and a load balancer is unlisted; the cluster goes exactly when it is asked for and accepted |
| TaskLaws.RecordedScaler | proto/pb/spec/utils_consume.go:254-272 | for a pool that leaves autoscaling, the setting of the last dynamic pool of its name in the new cluster is recorded, and none if there is no such pool |
| TaskLaws.CombineWellBuilt | proto/pb/spec/utils_consume.go:484-516 | committing keeps hashes well formed and load-balancer IDs distinct |
| TaskLaws.SoundUpdate | proto/pb/spec/utils_consume.go:56-399 | one update keeps the cluster's identity, distinct load-balancer IDs and their target |
| TaskLaws.SoundClear | proto/pb/spec/utils_consume.go:11-53 | one clear does so too, and removes the cluster only with the last load balancer |
| TaskLaws.RunSound | proto/pb/spec/utils_consume.go:11-251 | so does every run of updates and clears, accepted or refused |
| TaskLaws.RemovalStep | proto/pb/spec/utils_consume.go:11-53 | a result removes the cluster exactly when it is a clear that asks for it and lists every load balancer left |
| TaskLaws.RemovedOnlyWhenEmpty | proto/pb/spec/utils_consume.go:11-53 | in any run in which the cluster disappears there is such a clear |
| TaskLaws.BalancerSurvives | proto/pb/spec/utils_consume.go:11-251 | over any run a load balancer is lost only by being listed in a clear |
| TaskLaws.DeltaStaysSettled | proto/pb/spec/utils_consume.go:78-396 | a settled message is the same after every later run |
| TaskLaws.PoolConserved | internal/nodepools/nodepools.go:315-339 | recorded and remaining nodes and keys are exactly the original ones, with none in both, exactly when a static pool has keys for the deleted nodes |
| TaskLaws.DeletionInventsKey | proto/pb/spec/utils_consume.go:80-139 | a static node without a key, whose deletion records an empty one |
| TaskLaws.DeletionRecords | proto/pb/spec/utils_consume.go:78-216 | a partial deletion records the named nodes of the pool as it was before the merge, and keeps handle and unreachable infrastructure |
| TaskLaws.K8sDeletionConserves | proto/pb/spec/utils_consume.go:80-139 | through the consumption of a result, recorded and remaining nodes and keys of a pool of the Kubernetes cluster are exactly the original ones under that condition and no other |
| TaskLaws.LbDeletionConserves | proto/pb/spec/utils_consume.go:140-216 | the same for a pool of a load balancer, through the merge |
| TaskLaws.WholeDeletionRecords | proto/pb/spec/utils_consume.go:78-216 | deleting a whole pool records the pool as it was before the merge |
| NodePools.AppendDynamicNodes | internal/nodepools/nodepools.go:108-116 | appends to a dynamic pool with a wrapping count; other pools are left alone |
| NodePools.DeleteNodes | internal/nodepools/nodepools.go:315-339 | deletes the listed nodes in place, lowers the count, drops the keys of their endpoints; absent and untyped pools included |
| NodePools.PartialCopyWithNodeExclusion | internal/nodepools/nodepools.go:120-162 | a new pool of the other nodes, recounted, with their keys |
| NodePools.PartialCopyWithNodeFilter | internal/nodepools/nodepools.go:171-213 | a new pool of the listed nodes, recounted, with their keys |
| NodePools.PartialCopyWithReplacedNodes | internal/nodepools/nodepools.go:223-257 | a new pool with the given nodes and keys and no SSH port |
| NodePools.CopyNodes | internal/nodepools/nodepools.go:266-288 | appends the listed nodes of another or the same pool with counts and keys; pools of different types are left alone |
| NodePools.NodeCount | internal/nodepools/nodepools.go:89-102 | the sum of counts and numbers of keys over the pools |
| NodePools.DeleteNodeByName | internal/nodepools/nodepools.go:60-87 | only the first pool with the node changes, by its first such node, and leaves the list when empty and not kept |
| PoolValues.NodePartition | internal/nodepools/nodepools.go:315-339 | deleted and remaining nodes and endpoints make up the pool, with no node in both |
| PoolValues.DeleteRefinesExclusion | internal/nodepools/nodepools.go:120-339 | in-place deletion equals the excluding copy on a pool in sync exactly when no remaining node shares an endpoint with a deleted one |
| PoolValues.CopiesPartition | internal/nodepools/nodepools.go:120-213 | the filtering and the excluding copy are in sync and split nodes, counts and keys; keys are disjoint exactly when endpoints are |
| PoolValues.ReplacedLosesPort | internal/nodepools/nodepools.go:171-257 | replacing by the listed nodes equals filtering exactly when the pool has no SSH port |
| PoolValues.CopiesKeepSettings | internal/nodepools/nodepools.go:120-257 | copies keep name, type, labels, autoscaler and region; replaced nodes and keys are the given ones, and in sync exactly when the keys are those of the nodes |
| PoolValues.StepKeepsSettings | internal/nodepools/nodepools.go:60-339 | no operation touches anything but nodes, count and keys |
| PoolValues.AppendedLast | internal/nodepools/nodepools.go:108-116 | appended nodes come last, in their order, and only into dynamic pools |
| PoolValues.CopiedKeys | internal/nodepools/nodepools.go:266-288 | an endpoint of a copied node gets the key that its source has for it, and every other endpoint keeps its own |
| PoolValues.DeletesTheNamed | internal/nodepools/nodepools.go:60-87 | with distinct names exactly the node of the given name goes |
| PoolValues.PoolsKept | internal/nodepools/nodepools.go:60-87 | deleting by name takes a pool off the list exactly when it held this one node and need not be kept |
| PoolValues.AppendUndone | internal/nodepools/nodepools.go:108-339 | deleting appended nodes again gives back a pool of any type, count wrap-around included, exactly when their names were new to it |
| PoolValues.CopyUndone | internal/nodepools/nodepools.go:266-339 | deleting copied nodes again gives back the pool exactly when their names were new, no known key was touched, and a source without a type brought no uncounted node |
| PoolValues.MoveConserves | internal/nodepools/nodepools.go:266-339 | copying nodes over and deleting them at their source loses and duplicates none |
| PoolValues.StepKeepsSync | internal/nodepools/nodepools.go:60-339 | append, copy, delete by list and delete by name keep any pool in sync exactly when no deleted endpoint remains in use and nothing uncounted or unkeyed is copied from a pool without a type |
| PoolValues.DeletionCanBreakSync | internal/nodepools/nodepools.go:315-339 | two nodes on one endpoint: deleting one breaks the sync |
| PoolValues.CopyCanBreakSync | internal/nodepools/nodepools.go:266-288 | a node copied from a pool without a type breaks the sync |
| PoolValues.StepKeepsDrift | internal/nodepools/nodepools.go:60-339 | an operation keeps the distance between count and number of nodes of a dynamic pool, right or wrong, exactly under that condition |
| PoolValues.RunKeepsDrift | internal/nodepools/nodepools.go:60-339 | so does every sequence of operations, and the count is the number of nodes plus the distance at the start |
| PoolValues.DistinctIsSafe | internal/nodepools/nodepools.go:60-339 | with one endpoint per node every operation but copying meets that condition |
| PoolValues.StepKeepsWellFormed | internal/nodepools/nodepools.go:60-339 | an operation keeps list, count and keys in agreement with one endpoint per node exactly when it is safe and copies only new endpoints, each once |
| PoolValues.RunKeepsWellFormed | internal/nodepools/nodepools.go:60-339 | they agree after every operation of a sequence exactly when each operation is of that kind when its turn comes |
| PoolValues.PoolCountExact | internal/nodepools/nodepools.go:89-102 | a pool in sync is counted correctly exactly when its length fits the counter (dynamic), its endpoints are distinct (static) or it is empty (untyped) |
| PoolValues.TotalCountExact | internal/nodepools/nodepools.go:89-102 | for pools in sync the node count is never above the number of nodes, and equals it exactly when every pool is of that kind |
| PoolValues.ContainsIffFound | internal/nodepools/nodepools.go:342-352 | the membership test holds exactly when the deletion finds a pool |
| PoolValues.DeleteByNameCount | internal/nodepools/nodepools.go:60-102 | deleting by name takes one node away exactly when it exists, and lowers the node count likewise exactly when its pool has a type and its counter is not at its lowest value |
| Population.RoomLeft | services/manager/internal/service/generate_state.go:178-195 | with fewer than 255 names in use one of the 255 indices is free, so the one-byte index never wraps |
| Population.UniqueNodeName | services/manager/internal/service/generate_state.go:178-195 | the search returns the lowest free name and records it, and gives up exactly when 255 names are in use |
| Population.PopulateDynamicNodes | services/manager/internal/service/generate_state.go:146-173 | generates nodes in place up to the count, which stays, or up to the point where names run out |
| Population.PopulatedExactly | services/manager/internal/service/generate_state.go:146-173 | old nodes stay in front, each new one has the lowest name free at its turn, clashes of names are neither added nor removed; it succeeds exactly when there are names enough, and leaves the pool in sync exactly when it was before or when there are names enough and no more nodes than announced |
| Population.PopulatedAgain | services/manager/internal/service/generate_state.go:146-173 | populating again changes nothing |
| Population.NewNodesTyped | services/manager/internal/service/generate_state.go:154-166 | a generated node has no address, is a master exactly in control pools, and is named after cluster, pool and an index of at most 255 |
| Population.NumberedFromOne | services/manager/internal/service/generate_state.go:159-166 | the nodes of a new pool are numbered from one |
| Population.PopulatePools | services/manager/internal/service/generate_state.go:122-140 | populates the dynamic pools of a cluster, aliased ones included, and leaves the others alone; it succeeds exactly when every one has names enough |
| Population.NamesApart | services/manager/internal/service/generate_state.go:159-161 | generated names determine the pool of a cluster and the index |
| Population.PoolReady | services/manager/internal/service/generate_state.go:146-173 | a pool of an accepted manifest runs out of names exactly when its autoscaler starts above 255; after population it is well formed exactly when the announced number is between 0 and 255, and has that many nodes of different names |
| Population.PoolStaysReady | services/manager/internal/service/generate_state.go:146-173 | such a pool agrees with its count after every operation of a run exactly when every operation counts the nodes it adds |
| Population.NegativeCountAccepted | internal/api/manifest/validate_node_pool.go:118-150 | an accepted pool with a negative count that no population brings in sync |
| Population.LargeMinimumAccepted | internal/api/manifest/validate_node_pool.go:118-150 | an accepted pool whose autoscaler minimum is above 255 |
| Reconcile.InvStep | services/claudie-operator/pkg/controller/controller.go:261-510 | every step of reconciler, users and manager keeps the protocol invariant |
| Reconcile.NeverOrphaned | services/claudie-operator/pkg/controller/controller.go:289-433 | in every run a config implies that the resource exists with its finalizer, and a marked config that it is being deleted |
| Reconcile.ConfigChanges | services/claudie-operator/pkg/controller/controller.go:383-487 | a config is written only by a reconcile that read a live resource, is marked and removed only under deletion, and is never revived |
| Reconcile.ConfigContents | services/claudie-operator/pkg/controller/controller.go:383-487 | only the manager changes state and clusters of a config that stays; a manifest is replaced only by none or by that of the resource as read |
| Reconcile.ResourceChanges | services/claudie-operator/pkg/controller/controller.go:376-393 | the reconciler changes nothing of a resource but its finalizer, which it gives to live ones and takes only under deletion and without a config |
| Reconcile.DeletionReachable | services/claudie-operator/pkg/controller/controller.go:289-426 | a resource under deletion can be let go without progress by the manager exactly when its config is gone, marked, or shows a built cluster |
| Reconcile.DeletionCanWait | services/claudie-operator/pkg/controller/controller.go:347-408 | a run from the start to a resource under deletion that only the manager can help on |
| Reconcile.UpdateReachable | services/claudie-operator/pkg/controller/controller.go:428-510 | the reconciler alone can bring the config of a live resource up to date exactly when it is missing, up to date, or not scheduled |
| Reconcile.StaleReadOrphans | services/claudie-operator/pkg/controller/controller.go:376-433 | a single read older than the previous one suffices to orphan a config, so the monotone cache is needed |
| SharedConfig.SharingHarms | services/claudie-operator/pkg/controller/controller.go:289-426 | two resources with one config: a run after which the config of a live resource is marked for deletion |
| SharedConfig.NamesMustDiffer | services/claudie-operator/pkg/controller/controller.go:289-426 | of two resources, no run marks the config of one that nobody deletes, exactly when their config names differ |
| PingPool.InvStep | internal/clusters/ping4.go:249-304 | every step keeps unsent, held, reported and dropped items equal to the input, classified by answer |
| PingPool.RunSafe | internal/clusters/ping4.go:249-304 | this holds in every interleaving, and nothing is sent on the closed error channel |
| PingPool.NoDeadlock | internal/clusters/ping4.go:264-303 | every reachable state that is not final has an enabled step |
| PingPool.StepDecreases | internal/clusters/ping4.go:264-303 | every step lowers a natural measure |
| PingPool.AlwaysFinishes | internal/clusters/ping4.go:249-304 | every run has at most 4n + workers + 3 steps, and one that cannot go on has finished |
| PingPool.CanFinish | internal/clusters/ping4.go:264-303 | from every reachable state some run leads to the end |
| PingPool.SomethingReturned | internal/clusters/ping4.go:249-304 | so every call has something to return |
| PingPool.ReturnsFailures | internal/clusters/ping4.go:249-304 | the returned list is a permutation of the failing items exactly when there is a worker or nothing fails |
| PingPool.FailureUnreported | internal/clusters/ping4.go:255-257 | no worker, and a failing item that is not returned |
| PingNodes.CollectNodes | internal/clusters/ping4.go:168-213 | the loops map each address to the last pool that has it |
| PingNodes.NodesOfExact | internal/clusters/ping4.go:168-213 | with one home per address the map knows exactly the addresses of the pools, each under its own pool |
| PingNodes.NodesOfLatest | internal/clusters/ping4.go:171-176 | of several pools with an address the last one counts |
| PingNodes.ListAddresses | internal/clusters/ping4.go:168-213 | the pinged list holds exactly the addresses of all clusters, each once when the clusters share none |
| PingNodes.FileUnreachable | internal/clusters/ping4.go:168-213 | failed addresses are filed by pool in order, under the Kubernetes cluster first and else under every load balancer that has them |
| PingNodes.PingedFailing | internal/clusters/ping4.go:249-304 | with a worker, in every interleaving, the addresses returned are exactly the failing ones |
| PingNodes.K8sAttribution | internal/clusters/ping4.go:168-213 | an address of a Kubernetes pool is filed once under its own pool if it failed, and nowhere otherwise |
| PingNodes.LbAttribution | internal/clusters/ping4.go:168-213 | the same for a load balancer, if the Kubernetes cluster does not have the address |
| PingNodes.CollectLbNodes | internal/clusters/ping4.go:179-187 | the loop builds one node map per load-balancer ID, a later one replacing an earlier one |
| PingNodes.LbNodesExact | internal/clusters/ping4.go:179-187 | with distinct IDs each load balancer has its own map and there is no other |
| PingNodes.LbNodesLatest | internal/clusters/ping4.go:178-187 | of several load balancers with an ID the last one counts |
| PingNodes.SomethingPinged | internal/clusters/ping4.go:249-304 | for every list of addresses and every number of workers there is an answer that the pool may give |
| PingNodes.PingNodes | internal/clusters/ping4.go:168-213 | end to end, for every way the workers may answer: with one home per address and distinct IDs, the list of each pool of each cluster holds the failed addresses of that pool, each once, and no other; only IDs of load balancers occur |
| ManifestValidation.ValidateProviders | internal/api/manifest/validate_provider.go:21-149 | accepts exactly valid providers with names distinct across the eleven lists |
| ManifestValidation.IsReferenced | internal/api/manifest/validate_node_pool.go:92-116 | the scan over clusters and load balancers finds exactly the listed pools |
| ManifestValidation.IsControlPlane | internal/api/manifest/validate_node_pool.go:182-191 | the scan over control lists finds exactly the control pools |
| ManifestValidation.ValidateSpot | internal/api/manifest/validate_node_pool.go:194-217 | accepts exactly pools without spot machines, or with a supported provider and in no control plane |
| ManifestValidation.ValidateDynamicPool | internal/api/manifest/validate_node_pool.go:118-150 | accepts exactly the dynamic pools that are in order |
| ManifestValidation.ValidateDynamicPools | internal/api/manifest/validate_node_pool.go:20-53 | accepts exactly when every dynamic pool is in order and the names are distinct |
| ManifestValidation.ValidateStaticPools | internal/api/manifest/validate_node_pool.go:55-89 | accepts exactly when static pools are in order, all endpoints are distinct and names clash with no other pool |
| ManifestValidation.ValidateNodePools | internal/api/manifest/validate_node_pool.go:20-89 | accepts exactly what the section's specification says |
| ManifestValidation.ValidateClusterPools | internal/api/manifest/validate_kubernetes.go:95-137 | accepts exactly when the listed pools are defined, not repeated, and a static pool is not in both lists |
| ManifestValidation.CollectStaticPools | internal/api/manifest/validate_kubernetes.go:140-170 | succeeds exactly when no static pool is listed by clusters of different names, and then maps each to its cluster |
| ManifestValidation.ValidateKubernetes | internal/api/manifest/validate_kubernetes.go:36-61 | accepts exactly what the section's specification says |
| ManifestValidation.ValidateRoles | internal/api/manifest/validate_load_balancer.go:66-98 | accepts exactly roles in order with distinct names, and remembers the last one with the API server's target port |
| ManifestValidation.CheckTargets | internal/api/manifest/validate_load_balancer.go:123-139 | the loops with their found flags accept exactly target pools that the targeted clusters list, in control lists only if asked for |
| ManifestValidation.CheckRoleUse | internal/api/manifest/validate_load_balancer.go:117-167 | accepts a use of a role exactly when it is defined, its targets are in order and the API server role has no alternative names and only control targets |
| ManifestValidation.CheckRoleUses | internal/api/manifest/validate_load_balancer.go:117-168 | accepts a load balancer's roles exactly when each use is in order and no cluster gets a second use of the API server role |
| ManifestValidation.IsKubernetesClusterPresent | internal/api/manifest/utils.go:311-319 | the scan finds exactly the defined clusters |
| ManifestValidation.CheckAlternatives | internal/api/manifest/validate_load_balancer.go:170-184 | refuses alternative names only when the claims of the load balancer clash, and else tracks the latest zone of each name |
| ManifestValidation.CheckClaims | internal/api/manifest/validate_load_balancer.go:170-193 | accepts the names of a load balancer exactly when none was last claimed in the same zone |
| ManifestValidation.ValidateLbStatic | internal/api/manifest/validate_load_balancer.go:252-270 | accepts exactly when no load balancer lists a static pool of a Kubernetes cluster |
| ManifestValidation.ValidateLbClusters | internal/api/manifest/validate_load_balancer.go:100-229 | accepts exactly when all load balancers are in order by themselves and together |
| ManifestValidation.ValidateLoadBalancers | internal/api/manifest/validate_load_balancer.go:47-236 | accepts exactly what the section's specification says |
| ManifestValidation.ValidateManifest | internal/api/manifest/validate.go:13-48 | accepts exactly the manifests whose three sections are in order |
| ManifestLaws.LookupsAgree | internal/api/manifest/utils.go:28-690 | both provider lookups find the same names, and the same type except for a name taken by AWS and Azure and no earlier list |
| ManifestLaws.ValidProvidersAgree | internal/api/manifest/validate_provider.go:21-149 | for validated providers the two lookups always agree |
| ResolutionLaws.ProvidersApart | internal/api/manifest/validate_provider.go:21-149 | valid providers of different types never share a name, for all eleven lists |
| ResolutionLaws.ProviderFound | internal/api/manifest/utils.go:28-690 | both lookups find a name exactly when one of the eleven lists has it, and a valid provider under its own type |
| ManifestLaws.StaticNodes | internal/api/manifest/utils.go:543-574 | the loop builds one node per machine, in order, with its name, endpoint and user |
| ManifestLaws.GetNodeKeys | internal/api/manifest/utils.go:584-590 | the loop maps each endpoint to the key of its last machine |
| ManifestLaws.ResolveOne | internal/api/manifest/utils.go:344-459 | resolves one pool name, dynamic pools first, with each of the failures |
| ManifestLaws.CreateNodepools | internal/api/manifest/utils.go:344-459 | resolves the pools in order, node and key loops included, up to the first failure, which it reports |
| ResolutionLaws.DynamicResolves | internal/api/manifest/utils.go:347-430 | a dynamic pool of an accepted manifest resolves to its name, region, count, autoscaler range, spot flag and the type of its provider, which supports spot machines if asked for |
| ResolutionLaws.KeysOwn | internal/api/manifest/utils.go:584-590 | of several machines with an endpoint the last one gives the key |
| ResolutionLaws.StaticResolves | internal/api/manifest/utils.go:431-590 | every machine of an accepted static pool resolves to a node with its name, endpoint, user and type, and to its own key; the SSH port is the given one or 22 |
| ResolutionLaws.DefinedResolves | internal/api/manifest/utils.go:344-459 | in an accepted manifest every defined pool resolves unless it is static with more than 255 machines |
| ResolutionLaws.RoleResolves | internal/api/manifest/validate_load_balancer.go:66-98 | so do the target pools of every role, whose port is not reserved and is 6443 if its target port is |
| ResolutionLaws.BalancerResolves | internal/api/manifest/validate_load_balancer.go:100-229 | so do the pools of every load balancer, each listed once; its target exists and it has at most 1018 roles |
| ResolutionLaws.DnsSupported | internal/api/manifest/validate_load_balancer.go:195-205 | the DNS provider of an accepted load balancer is of one of the eight supported types |
| ManifestLaws.DynamicPoolRuns | internal/api/manifest/utils.go:403-430 | until nodes are generated, every run of operations that count what they add keeps the count at the number of nodes plus the announced number |
| ManifestLaws.KindsApart | internal/api/manifest/validate_node_pool.go:20-89 | the static-first and the dynamic-first lookup classify a name the same way |
| ManifestLaws.ListedPoolsResolve | internal/api/manifest/utils.go:344-459 | every pool listed in an accepted manifest resolves, to its own kind, unless it is static with more than 255 machines |
| ManifestLaws.AcceptedTooLarge | internal/api/manifest/utils.go:543-545 | an accepted manifest with a listed pool of 256 machines that does not resolve |
| ManifestLaws.ControlNeverSpot | internal/api/manifest/validate_node_pool.go:194-217 | no control pool of an accepted manifest resolves to spot machines |
| ManifestLaws.EndpointHome | internal/api/manifest/validate_node_pool.go:55-76 | an endpoint belongs to one static pool at one position |
| ManifestLaws.MachineUsedOnce | internal/api/manifest/validate_kubernetes.go:36-170 | in an accepted manifest a static machine is at one place of one Kubernetes cluster, and then in no load balancer |
| ManifestLaws.StaticPoolStartsInSync | internal/api/manifest/utils.go:431-590 | static pools built from an accepted manifest have one key for each node |
| ManifestLaws.StaticNamesInjective | internal/api/manifest/utils.go:543-574 | node names of pools of up to 255 machines determine pool and position |
| ManifestLaws.ApiRoleUse | internal/api/manifest/validate_load_balancer.go:66-210 | the API server role is used at most once per cluster and targets its control pools; every used role is defined and targets pools of its cluster |
| ApiServerRoles.EarlierRolesDecide | internal/api/manifest/validate_load_balancer.go:71-167 | in an accepted manifest each cluster has one use over all API server roles exactly when it uses no earlier such role, or one and not the last |
| ApiServerRoles.OneRoleSuffices | internal/api/manifest/validate_load_balancer.go:71-167 | with one such role every accepted manifest has one use per cluster, and it targets control pools only |
| ApiServerRoles.ApiRoleIsLast | internal/api/manifest/validate_load_balancer.go:71-77 | the role that the validation remembers is the last one with target port 6443 |
| ApiServerRoles.ApiServerExactly | internal/api/manifest/validate_load_balancer.go:71-167 | for roles that are fine in themselves, acceptance guarantees both exactly when at most one of them has the API server target port |
| ApiServerRoles.TwoApiBalancers | internal/api/manifest/validate_load_balancer.go:71-167 | an accepted manifest with two API server load balancers for one cluster |
| ManifestLaws.FreshClaimsExactly | internal/api/manifest/validate_load_balancer.go:170-193 | a name and zone may be claimed again exactly when the name was claimed in another zone in between |
| ManifestLaws.HostNameReused | internal/api/manifest/validate_load_balancer.go:179-193 | an accepted manifest that claims a name twice in one zone |
| ManifestLaws.HostNamesUnique | internal/api/manifest/validate_load_balancer.go:170-193 | when each name is claimed in one zone, acceptance means that all claims are distinct |
| ResolutionLaws.ClaimsExactly | internal/api/manifest/validate_load_balancer.go:170-193 | the claims of a manifest are exactly its alternative names and non-empty host names, in their zones |
| ManifestLaws.SharedThrough | internal/api/manifest/validate_load_balancer.go:252-270 | two listed pools hold the same static machine exactly when they are one pool that holds it |
| ManifestLaws.BalancersApart | internal/api/manifest/validate_load_balancer.go:252-270 | in an accepted manifest no static machine is in two load balancers exactly when no static pool with machines is listed by two of them |
| ManifestLaws.BalancersMayShareMachine | internal/api/manifest/validate_load_balancer.go:252-270 | an accepted manifest that gives two load balancers the same static machine |
| Naming.SanitizeStringForResourceName | internal/tmplutils/templates.go:84-101 | the loop computes the escape of every character in order |
| Naming.DecodeSanitized | internal/tmplutils/templates.go:84-101 | a decoder undoes the escaping exactly on strings of code points below 0x100 |
| Naming.SanitizedInjective | internal/tmplutils/templates.go:84-101 | on these strings escaping never collides |
| Naming.CollidesExactly | internal/tmplutils/templates.go:84-101 | a string shares its escaped form with another one exactly when the digits of one of its escapes, with the characters behind it, also begin with those of another escaped character |
| Naming.WideNamesCollide | internal/tmplutils/templates.go:96 | two different names, one of code points below 0x100, with the same escaped form |
| Naming.WideNameAlone | internal/tmplutils/templates.go:96 | a name of a code point above 0xff that collides with no other |
| Naming.SanitizedAlphabet | internal/tmplutils/templates.go:84-101 | the result holds only letters, digits, dashes and underscores |
| Naming.SanitizedUnchanged | internal/tmplutils/templates.go:84-101 | exactly the names of letters, digits and dashes stay as they are |
| Naming.KeysDistinct | internal/extemplates/extofu/terraformer.go:22-30 | two alternative names of a cluster, the empty one included, get the same key only if they are equal |
| Naming.HasTypeExactly | internal/nodepools/nodepools.go:469-492 | a pool is of a non-empty type exactly when its name is the type, a dash and a hash |
| Naming.SplitInvertsAppend | internal/nodepools/nodepools.go:469-504 | splitting at the last dash recovers type and hash of every such name |
| Naming.DashedNameCollision | internal/api/crd/inputmanifest/v1beta1/helpers.go:38-44 | two resources share a config name exactly when they are the same or one namespace continues into the other's name |
| Naming.ConfigNameShared | internal/api/crd/inputmanifest/v1beta1/helpers.go:38-44 | two different resources with one config name |

## Left out

- Tasks.Task.ConsumeUpdateResult: clusters are values, so later changes through a message that the result and the task share, or that a recorded whole-pool deletion shares, are not modelled; calling it on a task whose cluster was cleared is excluded, since the code dereferences it.
- Tasks.InFlightUpdate.Commit: a second commit of the same in-flight update is excluded, since its state is gone by then.
- Batching.BatchedExactly: updates that list a load balancer twice, and task states that hold one twice, are outside its condition; Batching.BatchedState covers them when an ID decides its target.
- NodePools.NodeCount: the sum is unbounded; 64-bit overflow of the total is not modelled.
- NodePools.CopyNodes: nil and empty key maps are not told apart, so writing to a nil map is not modelled.
- Reconcile.NeverOrphaned: rests on serialised reconciles of one resource, versioned writes, a cache that never goes back, calls that take effect before they return or not at all, users who leave the finalizer alone, and a config name that belongs to one resource; SharedConfig.NamesMustDiffer and Reconcile.StaleReadOrphans show two of these to be needed.
- ManifestLaws.ListedPoolsResolve: template conversion and commit lookups while resolving a provider are not modelled and can fail as well.
- ManifestValidation.ValidateManifest: checks on single fields (struct tags, taints, labels, annotations, disks, GPUs) are one flag per record; the length check of future domains is not modelled.
- Population.PopulatePools: one cluster at a time; the status of a new node and the hash that a pool's name gets are not part of the model, nor are the transfer of existing nodes and the fix-up of autoscaled counts before it.
- ManifestLaws.CreateNodepools: provider credentials, labels, annotations, taints and generated keys of the new pools are not part of the model.
- Naming.SanitizeStringForResourceName: strings are sequences of characters; invalid UTF-8 and byte lengths are not modelled.
- PingPool.AlwaysFinishes: a ping is an answer; sockets, timeouts, logging and the joined error are not modelled.
- The reconcile loop and the ping pool are transition systems, not methods, because other actors move between their steps.
- Fetching secrets and templates, events and the contents of the status in the reconcile loop.
- The documented storage disk size of -1, which the validation does not accept, is among the single-field checks.
- Digests in keys are an arbitrary suffix.
- Error texts: outcomes tell the kinds of failure apart, not their wording.
- Scheduling of tasks in the manager, drift detection, autoscaling, load-balancer API endpoint moves.
- The workers: terraform and ansible templates, kubectl, files, git and network calls.
- Lookups, label and taint helpers, credentials, the table of manifest states and health checks, each settled by one branch.
