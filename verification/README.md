# A model of the HOPRd operator

The operator runs HOPRd nodes on Kubernetes. It keeps four kinds of objects in the API server: clusters of nodes
(`ClusterHoprd`), nodes (`Hoprd`), the identities nodes run under (`IdentityHoprd`) and pools of identities
(`IdentityPool`). This project models the protocols by which the operator hands out shared resources, and proves what
they guarantee: which identities nodes hold and how pools count them, which nginx ports a node owns, how a cluster
reaches its number of nodes, what happens to a node over its life, and what the conversion webhook preserves.

Everything is one Dafny project: `dafny verify dfyconfig.toml`.

| files | what they model |
|---|---|
| `Text`, `Ordering`, `Sets` | decimal names, substring tests, splitting, sorting, sizes of sets |
| `PortSearch`, `PortData`, `NginxPorts`, `PortRuns`, `PortViews` | the search for a block of ports in 16-bit arithmetic, the two ConfigMaps, runs of opening and closing, the Service, container, environment and nginx deployment views of a block |
| `IdentityPool`, `IdentityLock`, `IdentityTheorems`, `IdentityOps`, `StartupRepair`, `Restart` | the counters of a pool, the lock protocol with one step per await point, its theorems, the operations statement by statement, the repair at startup, the protocol across a restart of the operator |
| `NodeNumbers`, `ClusterScaling`, `ClusterControl`, `ClusterCounter` | numbering and scaling the nodes of a cluster, the cluster's controller and where its reconciliations lead, counting under interleaving |
| `NodeLifecycle` | reconciliation of one node: release, modification, ports |
| `Json`, `Webhook`, `ConversionTheorems`, `ConversionByKind` | conversion between v1alpha2 and v1alpha3: what it preserves, and what each kind gains and loses |
| `Composition` | identities of clusters, ports of small clusters, one block seen from every side |

Objects that the operator updates in place are classes with mutable fields; each of their methods is proved to have the
effect of a function on the state, and the theorems are about runs of these functions. Concurrency is a step relation:
a run is any sequence of steps, and a step that is not enabled leaves the state alone.

## What the proofs found

The proofs follow the code. Where it does not meet what its comments and documentation promise, the exact condition
under which it does is proved.

- `close_port` removes entries by a substring test. It removes entries of another service exactly when the closed
  namespace is a suffix of the other's and the closed name a prefix of the other's: node 1 of a cluster closes node 10.
- The end check of `open_port` wraps at 65536; it is sound exactly when `port_max + k + 1 < 65536`. Two keys for one
  port (`9000` and `09000`) make the search return used ports exactly when the scan meets the repeat before a gap and
  another used port follows it closely; a ConfigMap for which this happens is given. The search reads the TCP map only,
  so an entry that exists only in the UDP map is overwritten. Kubernetes drops an empty data field: once a close has
  emptied a ConfigMap, every further close fails until a port is opened again.
- A locked identity is given out again when the recorded node name equals the *identity's* name, not the asking node's.
  Identities are held exclusively exactly when no two nodes x and n ask for the identity named x.
- This extends to lives, that is runs with restarts of the operator at any moments between them: without races, holders
  stay right and exclusive in all of them exactly under the same discipline.
- A lock whose node disappears before it receives its finalizer stays until the operator restarts, when the names differ.
  A node that exists but whose lock was interrupted by a restart between the two writes is worse off: its identity stays
  InUse, and when the names differ the node is refused it in every later run without races.
- The startup repair completes exactly when the pool of every orphaned identity is cached, which is so in every state the
  protocol reaches. It publishes corrected pool counters but leaves the listed error in memory, so the next counter event
  publishes it again, and it stays for all race-free runs up to the next restart, from whatever state of a race-free life
  the operator was restarted. Such an error occurs: a restart between the two writes of a lock finds a counter that is
  too low. Its composite keys "namespace-name" collide.
- A node that is created but whose deployment never becomes ready is not counted and leaves its cluster in phase
  Scaling, which no reconciliation leaves; so does a deleted node that has no finalizer and therefore does not notify.
  In a disabled cluster nodes are counted without waiting for their deployment, also when they never receive a finalizer;
  when such a node is deleted the counter stays too high.
  A scale-down succeeds exactly when the nodes with the highest counters exist and notify. A node numbered 0 hides the
  other numbers, so that the next node is always number 1.
- A deletion notification that is under way while its cluster enters phase Deleting takes the cluster out of that phase;
  if the object still exists at its next reconciliation, the controller chooses to delete it once more.
- A release that fails half-way is never resumed.
- A node sends its last configuration to the status endpoint, from which Kubernetes takes only the status: the record
  never changes, and the ports of a node are those of its creation in every run. This holds while nobody else writes the
  annotation, which is that of kubectl (`src/constants.rs:14`), so that `kubectl apply` writes it as well.
  A rejected change is reported as recovered at the next reconciliation although the deployment is the old one, and
  rejected again at every further edit. Only a server that stored the annotation would let the next edit apply it.
- A cluster records its configuration through the ordinary endpoint, so there a rejected change of the fixed fields is
  accepted after two further edits: the first leads back to Ready, the second copies the configuration to the nodes.
- A cluster without a recorded configuration is scaled once, when it is new; no later edit changes its nodes again, not
  even after the automatic recovery to Ready, as long as nothing else writes the annotation.
- A node whose creation stops after its finalizer was added and before its deployment (no free ports) never gets one.
- A cluster accepts a change of its ports allocation and reports Ready, while each of its nodes rejects the copy and
  becomes Failed.
- A host with ':' in it (an IPv6 address) does not survive in the host variable of a deployment.
- Without the UDP ConfigMap `open_port` fails, but the entries it wrote to the TCP map stay.
- The webhook discards conversion errors: it reports success and returns such objects under the new version.
- With an allocation of 0 the Service and the container offer a port that nginx does not open; with 1 the session range
  variable is printed with its ends swapped. From a starting port of 65535 the Service, which counts in 16 bits, offers
  other ports than the container. Bootstrap drops existing entries for `port_max + 1`.

## Model

| member | source | states |
|---|---|---|
| PortSearch.FindNextPort | src/hoprd/hoprd_ingress.rs:188-208 | the loop over sorted used ports returns what the search function `FirstFit` defines, with subtraction wrapping at 65536 |
| PortSearch.ScanStops | src/hoprd/hoprd_ingress.rs:200-207 | the scan stops at the first gap of k ports or repeated port, or behind the last used port, and everything before is packed |
| PortSearch.ScanFindsLowest | src/hoprd/hoprd_ingress.rs:200-207 | on distinct ports the scan finds the lowest free block above the first used port |
| PortSearch.SearchIsExact | src/hoprd/hoprd_ingress.rs:128-138 | the block found is free and not below the minimum, nothing wraps, and the end check passes if and only if a free block inside [min, max) exists |
| PortSearch.SearchIsFirstFit | src/hoprd/hoprd_ingress.rs:188-208 | unless a block fits below the first used port, no free block lies lower than the one found |
| PortSearch.SpaceBelowIsTaken | src/hoprd/hoprd_ingress.rs:194-199 | a block that fits below the first used port ends right below it |
| PortSearch.EmptyAllocation | src/hoprd/hoprd_ingress.rs:188-208 | for no ports the start is the minimum, the first used port above it, or the port behind the last used one |
| PortSearch.RepeatsExact | src/hoprd/hoprd_ingress.rs:173-181 | with repeated parsed ports the block found is free if and only if the scan does not trip on a repeat |
| NginxPorts.RepeatedKeysOverlap | src/hoprd/hoprd_ingress.rs:173-207 | with keys that repeat the first port of the range, followed by the next port, the search trips and returns that next, used port |
| NginxPorts.RepeatedKeysOccur | src/hoprd/hoprd_ingress.rs:173-181 | a ConfigMap with such keys exists for every port |
| PortSearch.EndCheckExact | src/hoprd/hoprd_ingress.rs:133-138 | the 16-bit end check accepts only free blocks inside the range if and only if max + k + 1 < 65536 |
| PortData.ScanOrderIrrelevant | src/hoprd/hoprd_ingress.rs:172-179 | the sorted port list does not depend on the order in which the keys are read |
| PortData.ScanFacts | src/hoprd/hoprd_ingress.rs:172-179 | the sorted list contains exactly the used in-range ports, without repeats when keys are distinct ports |
| PortData.EntriesKeys | src/hoprd/hoprd_ingress.rs:143-147 | the inserted entries have exactly the k decimal keys of the block, each with the value "namespace/name:port" of its own port |
| NginxPorts.NginxConfigMaps.GetAvailablePorts | src/hoprd/hoprd_ingress.rs:169-185 | reads the TCP map, parses, filters, sorts and searches; a missing map is an error |
| NginxPorts.NginxConfigMaps.OpenPort | src/hoprd/hoprd_ingress.rs:125-167 | both maps and the result are those of `Opened`, in every branch, also when the UDP patch fails after the TCP patch |
| NginxPorts.NginxConfigMaps.ClosePort | src/hoprd/hoprd_ingress.rs:212-264 | both maps lose exactly the entries whose value contains the service's name; a missing map, or one whose data field is missing (as it is when a close has emptied it), stops it with what was written before |
| NginxPorts.OpenIsExact | src/hoprd/hoprd_ingress.rs:125-167 | opening succeeds if and only if k consecutive unused ports exist in [port_min, port_max); the block is such, its keys were absent, and a failure changes nothing |
| NginxPorts.AddThenRemove | src/hoprd/hoprd_ingress.rs:143-158 | adding a block and removing the service's entries restores a map if and only if nothing mentioned the service and no key of the block was present |
| NginxPorts.OpenCloseRestores | src/hoprd/hoprd_ingress.rs:212-264 | opening then closing restores the TCP map if and only if nothing mentioned the service, and the UDP map if and only if, in addition, no UDP entry lies at the block that the search finds in the TCP map |
| NginxPorts.MissingMaps | src/hoprd/hoprd_ingress.rs:125-167 | without the TCP map nothing changes; without the UDP map a failed opening leaves exactly the entries of the block in the TCP map, and a failed closing has taken the service's entries out of it |
| NginxPorts.UdpEntryIsLost | src/hoprd/hoprd_ingress.rs:125-167 | for every TCP map with room for a block there is a UDP-only entry that opening overwrites and closing removes |
| NginxPorts.SecondCloseFails | src/hoprd/hoprd_ingress.rs:212-264 | after one service is closed, closing another fails if and only if the first close has emptied a map |
| PortRuns.ClashExact | src/hoprd/hoprd_ingress.rs:225-225 | the substring filter hits another service's entry if and only if namespace is a suffix and name a prefix |
| PortRuns.ClusterClashFree | src/hoprd/hoprd_ingress.rs:215-225 | the nodes 1 to n of a cluster can be closed independently if and only if n is at most 9 |
| PortRuns.OpenKeeps | src/hoprd/hoprd_ingress.rs:125-167 | opening keeps the invariant of runs: base entries and one layer per live service, without overlap, in both maps |
| PortRuns.CloseKeeps | src/hoprd/hoprd_ingress.rs:212-264 | closing keeps the same invariant |
| PortRuns.RunOwnsBlocks | src/hoprd/hoprd_ingress.rs:125-264 | after any allowed run every live service owns exactly its k consecutive ports in both maps, each of which leads to the same port of the service, blocks lie in range and are disjoint, other entries are unchanged |
| PortRuns.CloseSparesExactly | src/hoprd/hoprd_ingress.rs:212-264 | closing a service spares the entries of another live one if and only if their names do not clash |
| PortRuns.RunRestores | src/hoprd/hoprd_ingress.rs:125-264 | when every service has been closed, both maps are what they were at the start |
| PortViews.BuildServicePorts | src/hoprd/hoprd_service.rs:197-244 | the loops build the API, metrics, p2p and session ports in the source's order for one or both protocols |
| PortViews.BuildContainerPorts | src/hoprd/hoprd_deployment.rs:546-581 | the loop builds the container's port list in the source's order |
| PortViews.ViewsAgree | src/hoprd/hoprd_service.rs:197-244 | below 65535, Service and container offer for each protocol the starting port and the ports up to the last one |
| PortViews.ViewsAgreeExactly | src/hoprd/hoprd_deployment.rs:546-581 | Service and container offer the same ports if and only if the starting port is below 65535 or the last port is 0 |
| PortViews.ListsExact | src/hoprd/hoprd_deployment.rs:546-581 | the exact lists by name, port and protocol: API and peer ports and one session port per protocol in both, the metrics port in the Service only |
| PortViews.BalancersOffer | src/hoprd/hoprd_service.rs:82-164 | the two LoadBalancer Services together offer what the ClusterIP Service does |
| PortViews.HostRoundTrip | src/hoprd/hoprd_deployment.rs:132-138 | the printed host variable gives back host and port if and only if the host has no ':' |
| PortViews.SessionRangeIsTail | src/hoprd/hoprd_deployment.rs:234-241 | the session range is the block without its first port, absent for k = 0 and inverted for k = 1 |
| Bootstrap.OpenNginxDeploymentPorts | src/bootstrap_operator.rs:20-55 | the range is accepted exactly when 1024 <= port_min <= port_max < 65535, and the new list is the old one outside the range followed by the range |
| Bootstrap.PreparedCounts | src/bootstrap_operator.rs:34-55 | every port in [port_min, port_max] has exactly one entry per protocol, port_max + 1 has none, others keep theirs |
| Bootstrap.RangeNames | src/bootstrap_operator.rs:41-54 | the new entries are named by protocol and port |
| Bootstrap.PreparedTwice | src/bootstrap_operator.rs:34-55 | entries outside keep their order, and a second run changes nothing |
| IdentityPool.Pool.UpdateStatus | src/identity_pool/identity_pool_resource.rs:256-309 | the counters and the derived phase after each event, in the copy and in the API alike; Deleting writes nothing |
| IdentityPool.EventEffects | src/identity_pool/identity_pool_resource.rs:256-309 | counter events change one counter by one and compare them for the phase; every other event only sets the phase, and Deleting changes nothing |
| IdentityLock.StepKeeps | src/hoprd/hoprd_resource.rs:289-325 | every step of nodes, identities and pools, in every interleaving and with every race, keeps the invariant with the conservation law of the counters |
| IdentityLock.RunKeeps | src/hoprd/hoprd_resource.rs:289-325 | every run keeps the invariant |
| IdentityLock.StepKeepsClean | src/hoprd/hoprd_resource.rs:289-325 | under the naming discipline and without a race, a step keeps holders and InUse identities in agreement and adds no drift |
| IdentityLock.RunKeepsClean | src/hoprd/hoprd_resource.rs:289-325 | so does every run without races |
| IdentityLock.RunKeepsHeld | src/hoprd/hoprd_resource.rs:289-325 | from any state with right holders, with right counters or not, a run without races keeps holders right and changes no drift |
| IdentityLock.LockReadKeepsHeld | src/identity_pool/identity_pool_resource.rs:341-342 | under the discipline the relock branch returns an identity only to its recorded holder |
| IdentityTheorems.CountersConserved | src/identity_pool/identity_pool_resource.rs:256-309 | in every reachable state `locked` and `size` differ from the InUse and counted identities only by writes in progress and recorded drifts; the phase compares them and the API agrees unless the pool's controller wrote last |
| IdentityTheorems.CleanCountersExact | src/hoprd/hoprd_resource.rs:289-316 | without races and under the discipline the counters are exact up to writes in progress |
| IdentityTheorems.QuiescentPoolIsReady | src/identity_pool/identity_pool_resource.rs:256-309 | with no write in progress `locked` is the number of InUse identities, at most `size`, and the phase is Ready |
| IdentityTheorems.DeleteGuardIsSafe | src/identity_pool/identity_pool_resource.rs:214-219 | the guard of a pool's deletion passes only when no identity is counted or in use and no lock or unlock is under way |
| IdentityTheorems.SharedIdentity | src/identity_pool/identity_pool_resource.rs:341-342 | two nodes that ask for the identity named like one of them can both obtain it, in a run without races |
| IdentityTheorems.ExclusionExact | src/identity_pool/identity_pool_resource.rs:329-358 | all runs without races keep identities exclusive if and only if the naming discipline holds |
| IdentityTheorems.InjectiveIsDisciplined | src/hoprd/hoprd_resource.rs:289-300 | requests for distinct identities satisfy the discipline |
| IdentityTheorems.HolderPassesThroughReady | src/identity_hoprd/identity_hoprd_resource.rs:264-307 | in every reachable state one step never replaces the holder of an InUse identity by another |
| IdentityTheorems.OrphanStays | src/hoprd/hoprd_resource.rs:121-122 | a lock whose node disappeared before its finalizer stays, in every race-free continuation, when node and identity names differ |
| IdentityTheorems.OrphanOccurs | src/hoprd/hoprd_resource.rs:121-122 | for every node with a proper request there is a run without races that leaves such a lock |
| IdentityTheorems.RelockRecovers | src/hoprd/hoprd_resource.rs:301-305 | with equal names the node created again obtains the identity without a second count |
| IdentityOps.Store.GetReadyIdentity | src/identity_pool/identity_pool_resource.rs:329-358 | returns the named identity of the pool exactly when it is Ready, or InUse and held by its own name |
| IdentityOps.Store.LockIdentity | src/hoprd/hoprd_resource.rs:289-316 | an uninterrupted call is the run of the three lock steps; it succeeds if and only if the requested pool is in memory and the requested identity is in it and Ready, or InUse under its own name; a Ready one is then InUse for the node and counted in memory and API |
| IdentityOps.Store.UnlockIdentity | src/identity_hoprd/identity_hoprd_resource.rs:295-319 | an uninterrupted call is the run of the three unlock steps; an InUse identity becomes Ready and `locked` one lower; it stops half-way exactly when the pool is not in memory |
| IdentityOps.Store.CreateIdentity | src/identity_hoprd/identity_hoprd_resource.rs:99-148 | an uninterrupted call is the run of the three creation steps; the identity becomes Ready and is counted if and only if its pool was published Ready and in memory |
| IdentityOps.Store.DeleteIdentity | src/identity_hoprd/identity_hoprd_resource.rs:199-251 | an uninterrupted call is the run of the three deletion steps; an InUse identity stays, any other goes and is taken out of its pool's count |
| IdentityOps.LockIsGranted | src/hoprd/hoprd_resource.rs:289-316 | with the lock free, the three lock steps of a waiting node give it its identity if and only if the identity may be given, with the whole effect on identities, counters and API |
| IdentityOps.ReadyIsObtained | src/identity_pool/identity_pool_resource.rs:329-358 | in every reached state with the lock free a waiting node with a proper request for a Ready identity of a registered pool obtains it |
| IdentityOps.ReleaseGivesBack | src/identity_hoprd/identity_hoprd_resource.rs:295-319 | the release of a running node makes its identity Ready and lowers `locked` by one |
| IdentityOps.LifeRestores | src/hoprd/hoprd_resource.rs:113-122 | a node that obtains an identity, runs and is deleted leaves identities and counters as they were, whatever they were |
| IdentityOps.PoolIsRegistered | src/identity_pool/identity_pool_resource.rs:104-186 | a created and registered pool is Ready with zero counters in memory and API, whatever other pools there are |
| IdentityOps.IdentityIsCreated | src/identity_hoprd/identity_hoprd_resource.rs:99-148 | a new identity of a Ready pool in memory becomes Ready and is counted |
| IdentityOps.IdentityIsDeleted | src/identity_hoprd/identity_hoprd_resource.rs:199-251 | a Live identity that is not InUse goes, and its pool's size is one lower |
| IdentityOps.StrandedStays | src/identity_hoprd/identity_hoprd_resource.rs:295-319 | an identity that disappears inside a lock lets the node try again; inside an unlock it strands the node in every later run |
| IdentityOps.StaleCopiesRace | src/identity_hoprd/identity_hoprd_resource.rs:150-251 | what a modification, or a deletion with a stale copy, does to an InUse identity, and the drift it causes |
| IdentityOps.Store.ReplaceCached | src/context_data.rs:169-172 | putting an updated pool back replaces exactly its entry of the in-memory state |
| StartupRepair.Operator.constructor | src/context_data.rs:27-43 | the in-memory state holds the listed pools with their listed status, one for every key |
| StartupRepair.Operator.Unlock | src/identity_hoprd/identity_hoprd_resource.rs:295-319 | completes exactly when the identity's pool is cached; an InUse identity becomes Ready, and `locked` of its pool is decremented in memory and in the API |
| StartupRepair.Operator.SyncIdentities | src/context_data.rs:99-131 | completes exactly when the pool of every identity to be unlocked is cached; then exactly these are unlocked and every pool is decremented once for each of its own |
| StartupRepair.Operator.RepairEach | src/context_data.rs:118-131 | the loop over identities with a holder: it has repaired exactly those it looked at, all of them if and only if every pool it needs is cached |
| StartupRepair.Operator.SyncIdentityPools | src/context_data.rs:45-97 | every published status is recounted, and the cache holds the statuses as listed before |
| StartupRepair.Synchronize | src/context_data.rs:45-131 | both passes complete under the same condition; from a fresh start their effect on identities, published pools and memory is that of `Store` |
| StartupRepair.RepairCompletes | src/context_data.rs:118-126 | a fresh start completes if the pool of every orphaned identity exists |
| StartupRepair.RepairExact | src/context_data.rs:118-126 | after both passes an identity is held by a missing node if and only if it was and the missing node's key is also an existing node's |
| StartupRepair.RepairFreesOrphans | src/context_data.rs:118-126 | without colliding keys no identity is held by a missing node, and holders that exist keep theirs |
| StartupRepair.KeyCollision | src/context_data.rs:155-159 | composite keys collide, but not for namespaces without '-' |
| StartupRepair.RecountIsExact | src/context_data.rs:63-91 | after both passes the published counters of every pool with a status are exact |
| StartupRepair.ErrorStaysInMemory | src/context_data.rs:72-93 | the counters left in memory are off by exactly the error of the listed ones; memory equals what is published if and only if the listed counters were right |
| StartupRepair.RepairPublishes | src/context_data.rs:63-91 | after both passes a pool is published with its true counters and as Ready, unless its listed counters were true and none of its identities was freed: then it keeps its listed phase |
| StartupRepair.RepairIsUndone | src/context_data.rs:93-93 | the next counter event publishes true counters if and only if the listed ones were right |
| StartupRepair.SecondStart | src/context_data.rs:45-131 | a second start changes nothing and leaves memory and API in agreement |
| Restart.RestartCompletes | src/context_data.rs:99-131 | in every state the lock protocol reaches, the repair of a restart completes |
| Restart.RepairIsResumption | src/context_data.rs:118-126 | the repair frees exactly the identities whose holder does not exist, within a namespace |
| Restart.RestartKeepsInvariant | src/context_data.rs:27-131 | in every state a restart keeps the protocol's invariant, with the errors of the counters as drifts |
| Restart.RestartPublishes | src/context_data.rs:63-91 | after a restart a pool is published with the number of its identities and of those InUse, and as Ready unless it was listed right and had no orphan |
| Restart.NewIdentityAfterRestart | src/identity_hoprd/identity_hoprd_resource.rs:99-125 | after a restart a new identity can be initialised if and only if its pool was listed as Ready, was listed wrong or had an orphan |
| Restart.RunningNodeSurvives | src/context_data.rs:99-131 | a running node keeps its identity over a restart, and its later release gives it back |
| Restart.ComparedExactly | src/context_data.rs:72-93 | the phase left in memory compares the pool's counters if and only if one of its identities was freed or its listed phase did |
| Restart.RestartIsClean | src/context_data.rs:27-131 | a restart keeps holders right, and leaves counters exact if and only if the listed counters of every pool were right |
| Restart.RunsAfterRestart | src/context_data.rs:27-131 | in every race-free run after a restart in any sound state, whatever the phases of its pools, no identity is held twice and the counters are off by exactly the listed error |
| Restart.LivesAreSound | src/main.rs:84-86 | in every race-free life from the empty store, with any number of restarts at any moments, the discipline keeps holders right, identities exclusive, the conservation law, and the next repair complete |
| Restart.LivesExclusionExact | src/main.rs:84-86 | all race-free lives keep identities exclusive if and only if the naming discipline holds |
| Restart.InterruptedLockOccurs | src/hoprd/hoprd_resource.rs:301-316 | for every node with a proper request there is a run without races to a state with a wrong listed counter, after whose restart the node exists and its identity is InUse for it without being held |
| Restart.InterruptedLockIsLost | src/hoprd/hoprd_resource.rs:289-325 | with different names such a node does not hold its identity in any later race-free run |
| Restart.RestartFreesOrphan | src/context_data.rs:118-126 | a restart frees the identity of a node that has disappeared and leaves it with one that exists again |
| NodeNumbers.NameRoundTrip | src/cluster/cluster_hoprd.rs:322-327 | reading the number of a node's name gives back the number it was built from, for every cluster name |
| NodeNumbers.GetNextFreeNode | src/cluster/cluster_hoprd.rs:312-345 | parses, sorts and looks for the first index that differs from its value; a name without a number stops it |
| NodeNumbers.NextFreeIsLeast | src/cluster/cluster_hoprd.rs:312-345 | for distinct positive numbers in any order the result is the least unused positive number, at most their count plus one |
| NodeNumbers.NextFreeExact | src/cluster/cluster_hoprd.rs:312-345 | for all distinct numbers: a number outside the 32-bit range stops it, a number 0 makes the result 1, otherwise it is the least unused positive number |
| ClusterScaling.ClusterHoprd.UpdateStatus | src/cluster/cluster_hoprd.rs:277-309 | counter with clamp and derived phase after each event |
| ClusterScaling.ClusterHoprd.NextFreeNode | src/cluster/cluster_hoprd.rs:312-345 | the number of a new node, or the stop, for any existing nodes |
| ClusterScaling.ClusterHoprd.CreateNode | src/cluster/cluster_hoprd.rs:348-391 | the new node asks for the identity with its own number and is counted only when its deployment becomes ready; a taken name or an unreadable number changes nothing |
| ClusterScaling.ClusterHoprd.DestroyNode | src/hoprd/hoprd_resource.rs:386-404 | a deleted node with a finalizer decrements the counter unless its cluster is being deleted; one without disappears silently |
| ClusterScaling.ClusterHoprd.DeleteNode | src/cluster/cluster_hoprd.rs:395-411 | the node whose number is the counter is deleted, if there is one |
| ClusterScaling.ClusterHoprd.RescaleCluster | src/cluster/cluster_hoprd.rs:218-247 | one rescale is one step of the scaling machine, whether or not the created node becomes ready or the deleted one notifies |
| ClusterScaling.ClusterHoprd.DeleteCluster | src/cluster/cluster_hoprd.rs:250-261 | deleting the cluster removes every node and leaves the counter |
| ClusterScaling.ClusterHoprd.ApplyModification | src/cluster/cluster_hoprd.rs:441-479 | every node receives the cluster's configuration and keeps its identity; it stops at the first node that does not become ready again |
| ClusterScaling.ClusterHoprd.CheckNeedsRescale | src/cluster/cluster_hoprd.rs:198-215 | the phase says whether the counter differs from the target |
| ClusterScaling.ClusterHoprd.Create | src/cluster/cluster_hoprd.rs:117-133 | a new cluster is NotScaled exactly when it asks for a node |
| ClusterScaling.ClusterHoprd.Modify | src/cluster/cluster_hoprd.rs:136-170 | a modification reaches the nodes exactly when the phase is not Failed and the recorded fixed fields are unchanged; a rejected one is recorded all the same, an interrupted one leaves status and record alone |
| ClusterScaling.ThreeModifications | src/cluster/cluster_hoprd.rs:136-170 | an edit and two further ones: the nodes get the new configuration exactly when there is a record and the cluster was not Failed or the record was right; an update stops at a slow node |
| ClusterScaling.WaitsForEdit | src/cluster/cluster_controller.rs:43-62 | a cluster that was rejected or has recovered does nothing until its next edit, which it treats as a modification |
| ClusterControl.Reconcile | src/cluster/cluster_controller.rs:65-75 | the chosen operation, performed on the cluster's object, is one step of the controller's function |
| ClusterControl.ChoiceExact | src/cluster/cluster_controller.rs:43-62 | exactly when a cluster is deleted, created, rescaled and modified |
| ClusterControl.ControllerSettles | src/cluster/cluster_controller.rs:43-75 | whatever its generation, the controller carries a NotScaled cluster through its rescales, one in each reconciliation, and leaves it alone when it is settled |
| ClusterControl.NewClusterConverges | src/cluster/cluster_hoprd.rs:117-133 | repeated reconciliation leads a new cluster to Ready with the nodes 1 to replicas, and keeps it there, if and only if every deployment it waits for becomes ready |
| ClusterControl.EditConverges | src/cluster/cluster_hoprd.rs:136-247 | an edited number of replicas is reached if and only if the record has the same fixed fields and every answer used is positive |
| ClusterControl.SlowIsRetried | src/cluster/cluster_hoprd.rs:441-479 | a modification that meets a slow node is tried again and writes nothing |
| ClusterControl.RejectedIsAcceptedLater | src/cluster/cluster_hoprd.rs:136-170 | under the controller a rejected change ends in Failed, the next edit in Ready, and the third reaches the nodes if and only if there was a record |
| ClusterControl.UnrecordedNeverScales | src/cluster/cluster_hoprd.rs:136-170 | without a record no run of edits and reconciliations changes the nodes of a cluster that was Ready or Failed |
| ClusterControl.DeletedExactly | src/cluster/cluster_hoprd.rs:250-261 | a cluster to be deleted loses nodes and finalizer at its next reconciliation unless it was in phase Deleting |
| ClusterScaling.RescaleApproaches | src/cluster/cluster_hoprd.rs:218-247 | a rescale that is not the last brings the counter one closer to the target |
| ClusterScaling.ScaleUp | src/cluster/cluster_hoprd.rs:218-247 | for any answers of the deployments: scaling up ends in Ready if and only if all it waits for become ready, then with the wanted number of nodes, the old ones kept, and 1 to replicas if and only if none was numbered higher |
| ClusterScaling.ScaleDown | src/cluster/cluster_hoprd.rs:395-411 | scaling down ends in Ready if and only if the nodes replicas + 1 to current all exist and notify, which are then exactly those deleted |
| ClusterScaling.ContiguousConverges | src/cluster/cluster_hoprd.rs:218-247 | from nodes 1 to n the run ends in Ready with nodes 1 to replicas if and only if every answer it uses is positive |
| ClusterScaling.FailedDeploymentIsStuck | src/cluster/cluster_controller.rs:43-62 | a node that is never ready stays uncounted, and every later reconciliation is a rescale that changes nothing |
| ClusterCounter.StepLaw | src/cluster/cluster_hoprd.rs:283-303 | every step of creation, notification and reconciliation keeps the invariant and moves the counter by its drift |
| ClusterCounter.Conservation | src/cluster/cluster_hoprd.rs:283-303 | in every run the counter differs from the number of counted nodes by exactly the drifts |
| ClusterCounter.ExactExactlyWhenClean | src/cluster/cluster_hoprd.rs:283-303 | the counter is exact in every state of a run if and only if every step counts only existing nodes, notifies only counted ones and lets no counted node disappear silently |
| ClusterCounter.RescaleIsRun | src/cluster/cluster_hoprd.rs:218-247 | every rescale of the scaling machine is a run of the finer steps of the counter's machine |
| ClusterCounter.SilentNodeStaysCounted | src/hoprd/hoprd_resource.rs:420-452 | the latter occurs: a run ends with counter 1 and no node |
| ClusterCounter.ClampIsIdle | src/cluster/cluster_hoprd.rs:290-294 | while the counter is exact the notification of a counted node clamps nothing |
| ClusterCounter.DeletingFreezes | src/hoprd/hoprd_resource.rs:386-404 | with no notification under way, deleting the cluster leaves counter and phase untouched in every run |
| ClusterCounter.LateNotificationRestartsDeletion | src/hoprd/hoprd_resource.rs:279-282 | a notification under way takes the cluster out of phase Deleting; if the object still exists then, the controller chooses to delete it again |
| ClusterCounter.LateNotificationOccurs | src/hoprd/hoprd_resource.rs:279-282 | a clean run from an empty cluster reaches phase Deleting with such a notification under way |
| ClusterCounter.CleanRunIsConsistent | src/cluster/cluster_hoprd.rs:277-309 | after a clean run with no node left uncounted the counter is the number of nodes |
| NodeLifecycle.Hoprd.UpdateStatus | src/hoprd/hoprd_resource.rs:345-358 | phase and observed generation of the node |
| NodeLifecycle.Hoprd.CreateNode | src/hoprd/hoprd_resource.rs:113-170 | the state after a creation that fails at the identity, at the ports, at the deployment, or succeeds |
| NodeLifecycle.Hoprd.ApplyModification | src/hoprd/hoprd_deployment.rs:123-145 | host and starting port are recovered from the host variable and the last port is recomputed from the spec; a missing deployment or an unreadable variable stops it |
| NodeLifecycle.Hoprd.ModifyNode | src/hoprd/hoprd_resource.rs:173-213 | every branch of a modification, with the annotation sent to the status endpoint |
| NodeLifecycle.Hoprd.UpdateLastConfiguration | src/hoprd/hoprd_resource.rs:360-384 | the last configuration is recorded only by a server that stores metadata sent to the status endpoint |
| NodeLifecycle.Hoprd.DeleteNode | src/hoprd/hoprd_resource.rs:253-286 | Deleting is written before the release, the finalizer is removed after it |
| NodeLifecycle.ReleasedAtMostOnce | src/hoprd/hoprd_controller.rs:47-65 | in every run the release starts at most once, exactly when the node enters Deleting; a created node does not disappear without it |
| NodeLifecycle.AbortedReleaseIsStuck | src/hoprd/hoprd_resource.rs:257-261 | a release that failed on the way is never resumed, whatever happens |
| NodeLifecycle.CreationOutcome | src/hoprd/hoprd_resource.rs:113-170 | finalizer, deployment and phase a creation leaves, by where it stops |
| NodeLifecycle.StoppedCreationIsFinal | src/hoprd/hoprd_controller.rs:47-65 | a node whose creation stopped between finalizer and deployment has no deployment in any later run |
| NodeLifecycle.DeletionCompletes | src/hoprd/hoprd_controller.rs:47-65 | a created node whose deletion is requested disappears at its next reconciliation if and only if the release completes and had not started before |
| NodeLifecycle.CreationFits | src/hoprd/hoprd_deployment.rs:132-136 | a new deployment is rebuilt as it is if and only if its host contains no ':' |
| NodeLifecycle.RedeploysBlock | src/hoprd/hoprd_deployment.rs:132-142 | a modification gives the block of the allocation from the starting port in the host variable |
| NodeLifecycle.PortsNeverChange | src/hoprd/hoprd_resource.rs:379-384 | when the status endpoint takes only the status, no run of a created node changes its deployment or its recorded configuration |
| NodeLifecycle.PortsNeverChangeExactly | src/hoprd/hoprd_resource.rs:187-198 | the ports of an active node are then constant in all runs if and only if they fit the recorded configuration |
| NodeLifecycle.PortsChangeAtMostOnce | src/hoprd/hoprd_resource.rs:360-384 | when the status endpoint takes only the status, no run of a created node changes its deployment twice, also when it did not fit the record |
| NodeLifecycle.PortsForLife | src/hoprd/hoprd_deployment.rs:132-142 | from its creation on, whether its deployment becomes ready or not, a node with a recorded configuration and a host without ':' has in every run the block of its allocation from its starting port, and the host variable of its creation |
| NodeLifecycle.PortsFitExactly | src/hoprd/hoprd_resource.rs:327-343 | for either kind of status endpoint, the deployment agrees with the record all along a run if and only if no step records a changed allocation; it then never changes |
| NodeLifecycle.PortsConstantWithoutFailure | src/hoprd/hoprd_deployment.rs:132-142 | in runs that never enter Failed the deployment stays as created, whatever the status endpoint does |
| NodeLifecycle.ModificationExact | src/hoprd/hoprd_resource.rs:173-251 | an edit is accepted if and only if pool, identity and allocation are the recorded ones and the identity exists; phase and deployment of every outcome, and the retry where the deployment cannot be rebuilt |
| NodeLifecycle.ChangeIsRejected | src/hoprd/hoprd_resource.rs:187-198 | a changed allocation leads to Failed and leaves the deployment; it is recorded only if the status endpoint stores metadata |
| NodeLifecycle.RejectedChange | src/hoprd/hoprd_resource.rs:173-213 | after the automatic recovery the deployment is still the old one; a further edit deploys the rejected allocation if and only if the status endpoint stores metadata, and is rejected again otherwise |
| Webhook.Document.AddObservedGeneration | src/webhook_server.rs:133-146 | status gains the generation and loses the checksum, or the error says why not |
| Webhook.Document.AddStatusChecksum | src/webhook_server.rs:149-163 | status gains the checksum of the spec and loses the generation, or the error says why not |
| Webhook.Document.ClusterHoprdUp | src/webhook_server.rs:188-221 | the in-place changes of a cluster to v1alpha3, also when they stop at an error |
| Webhook.Document.ClusterHoprdDown | src/webhook_server.rs:223-254 | the in-place changes of a cluster to v1alpha2 |
| Webhook.Document.HoprdUp | src/webhook_server.rs:256-285 | the in-place changes of a node to v1alpha3 |
| Webhook.Document.HoprdDown | src/webhook_server.rs:287-313 | the in-place changes of a node to v1alpha2 |
| Webhook.Document.IdentityHoprdUp | src/webhook_server.rs:315-342 | the in-place changes of an identity to v1alpha3 |
| Webhook.Document.IdentityHoprdDown | src/webhook_server.rs:344-369 | the in-place changes of an identity to v1alpha2 |
| Webhook.Document.ConvertUp | src/webhook_server.rs:387-398 | dispatch on the kind; a missing or unknown kind is an error that changes nothing |
| Webhook.Document.ConvertDown | src/webhook_server.rs:400-411 | the same towards v1alpha2 |
| ConversionTheorems.V3RoundTrip | src/webhook_server.rs:188-385 | down and up again changes a v1alpha3 object of any shape only by its placeholders |
| ConversionTheorems.V3RoundTripExact | src/webhook_server.rs:188-385 | it comes back unchanged if and only if it has no v1alpha2 field and misses no v1alpha3 field |
| ConversionTheorems.V2RoundTrip | src/webhook_server.rs:188-385 | up and down again changes a v1alpha2 object only by its placeholders; without a service object the allocation is lost |
| ConversionTheorems.V2RoundTripExact | src/webhook_server.rs:188-385 | it comes back unchanged if and only if it is a complete v1alpha2 object with the right checksum |
| ConversionTheorems.DownUpDown | src/webhook_server.rs:223-385 | down, up and down equals down, except for an allocation without a service and a pool without a spec |
| ConversionByKind.ReplyByKind | src/webhook_server.rs:387-447 | told from the text of the kind and the names of the fields: what a ClusterHoprd, Hoprd, IdentityHoprd and IdentityPool gain and lose in spec and status in either direction; any other text changes nothing but the version |
| ConversionByKind.OtherVersionsAreRefused | src/webhook_server.rs:429-442 | any other version is answered with a failure and no objects |
| ConversionByKind.StopsExactly | src/webhook_server.rs:444-445 | the handler stops exactly on a value that is neither an object nor null; a null becomes an object with nothing but the version |
| ConversionTheorems.Convert | src/webhook_server.rs:414-453 | the handler's loop gives the response `Reply`, including unsupported versions and values it cannot write a version into |
| ConversionTheorems.BatchRoundTrip | src/webhook_server.rs:414-453 | a list keeps length and order through a round trip; it comes back unchanged if and only if all objects are complete |
| ConversionTheorems.FailuresAreNotReported | src/webhook_server.rs:429-447 | an object whose conversion fails is returned under the new version in a response that reports success |
| Composition.NodeNameInjective | src/cluster/cluster_hoprd.rs:350-353 | a node's name tells its cluster and its number |
| Composition.ClustersExclude | src/cluster/cluster_hoprd.rs:348-380 | clusters that share a pool never hold an identity twice if and only if none with the pool's name has a number in common with another; a single cluster is safe |
| Composition.NumbersStaySmall | src/cluster/cluster_hoprd.rs:312-345 | while a cluster has at most m nodes no node has a number above m, in every interleaving |
| Composition.ReachedClusterScalesUp | src/cluster/cluster_hoprd.rs:218-247 | a cluster reached by a clean run scales up to the wanted nodes if and only if the deployments become ready |
| Composition.AllocationIsRejectedByNodes | src/cluster/cluster_hoprd.rs:441-479 | a cluster accepts a change of its allocation and reports Ready (or NotScaled), while the node it is copied to rejects it, becomes Failed and keeps its deployment |
| Composition.SmallClusterIsCompatible | src/hoprd/hoprd_ingress.rs:212-264 | the services of a cluster that never has more than nine nodes meet the condition of the port runs |
| Composition.FirstNodeClosesTenth | src/hoprd/hoprd_ingress.rs:225-225 | closing node 1 removes every entry of node 10 |
| Composition.CreateNodeWithPorts | src/hoprd/hoprd_resource.rs:113-160 | opening ports and creating a node succeed exactly when a block is available; the container of its deployment, and a Service for its block, then offer exactly the ports nginx routes to it |
| Composition.NodeOffersItsPorts | src/hoprd/hoprd_deployment.rs:123-145 | so they do in every later run of the node, whatever is edited, as long as the block is live |
| Composition.OneBlockManyViews | src/hoprd/hoprd_resource.rs:121-160 | after any allowed run nginx routes a port to the same port of a service exactly when its Service and container offer it (both offer one port of an empty block), to no other service, and the deployment opens it exactly once |

## Left out

- IdentityPool.Pool.UpdateStatus: the 32-bit width of the counters and the observed generation of pools are not modelled.
- IdentityLock.StepKeeps: an operation that has started is abandoned only by a restart of the operator (module `Restart`), status patches succeed, and a node's request and an identity's pool are fixed; the deletion of a pool is not a step, only its guard is covered by `DeleteGuardIsSafe`. The preexisting phases Initialized, Failed and Ready are called Init, Broken and Free.
- IdentityOps.Store.GetReadyIdentity: an identity belongs to one fixed pool; the source goes by the owner reference here and by the spec in the startup repair. The guards of the identity controller (create once, delete, modify a newer generation) are the stages of an identity.
- NginxPorts.NginxConfigMaps.OpenPort: reading and patching is one atomic step although the source takes no lock; the same holds for closing.
- PortRuns.RunOwnsBlocks: opening the same live service twice is not part of a run.
- ClusterScaling.ClusterHoprd.UpdateStatus: reading and patching is one atomic step, and the 32-bit width of the counter is not modelled.
- ClusterControl.Reconcile: finalizer and status of a new cluster are written in one step, every reconciliation reads the cluster as the API has it, and a cluster without a status has counted no node.
- ClusterCounter.StepLaw: a notification's check and update are two steps, but each of them is atomic.
- NodeLifecycle.ReleasedAtMostOnce: every reconciliation reads the node as the API has it, and status writes succeed; a stale read could start a second release.
- NodeLifecycle.Hoprd.ApplyModification: a custom host variable in the spec and the deletion of the database are not modelled.
- NodeLifecycle.Hoprd.UpdateLastConfiguration: annotations written by other tools are not modelled.
- NodeLifecycle.Hoprd.DeleteNode: the steps of a release are one choice, completed or not; the identity and port protocols model them.
- Restart.RunsAfterRestart: a restart is modelled for one namespace, in which names and keys agree.
- StartupRepair.Operator.SyncIdentityPools: the two lists are read at one moment, and patches succeed.
- Webhook.Document.AddStatusChecksum: the hash of the spec is an arbitrary function of it; JSON text is not parsed, numbers are kept by their literals.
- Kubernetes client calls, watches, retries, timeouts, events, logging and LoadBalancer polling: treated as reads and writes that succeed or as choices of the environment. `Patch::Merge` is section 2 of RFC 7396: a null removes a key, so writing no holder removes it.
- TLS, the HTTP server, configuration loading and the program's start: plumbing.
- ServiceMonitors, RBAC, cron jobs, volumes, probes, resource templates, labels and environment merging: data without a property of this kind.
- Helm charts and shell scripts.
