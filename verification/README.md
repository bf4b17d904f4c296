# kube-prober: the sharded target registry and its control loop

kube-prober runs as several replicas. Every replica learns of all targets, decides by rendezvous hashing which of them
are its own, and runs one scheduler per owned target; a pool of workers carries out the probes. This project models

- the sharding rule: the streaming FNV-1a hash (FNV specification, draft-eastlake-fnv, section 2 "FNV Basics") and the
  search for the owner among peers and virtual nodes;
- the registry: targets, slice lists, peer list and active set, its five operations and the events they produce;
- the informer handlers that turn cluster notifications into registry operations;
- the event loop that starts and stops schedulers, with the cleaner that defers the deletion of metrics;
- the probe pipeline: schedulers, job queue, workers, semaphore and the golden-signal metrics;

and proves what holds of them for all inputs, all histories and all interleavings. `dafny verify dfyconfig.toml` checks
everything.

## How it is laid out

| module | role |
|---|---|
| Bytes, Decimal, Counting | byte strings, decimal numerals, counting in sequences |
| Fnv, Sharding, HashKey | the hash, the ownership search (loops over a digit buffer, peers and virtual nodes), the hashed key |
| Rendezvous | the selection rule on lists, for any way of bidding |
| Targets, Rendering | targets, events, EndpointSlices and the addresses derived from them |
| RegistryState, Registry | the registry as a value, and as the mutable object whose methods are proved against it |
| RegistryLaws, Declarations, Reconciliation, Rebalancing | laws over states and histories |
| Informer, Annotations | notifications to operations; the peer list; changed annotations |
| EventOrder | what a stream of events amounts to, and how far its order matters |
| MetricsCleaner, EventLoop, Replica | cleaner and loop as objects; registry and loop working together |
| ControlLoop, LoopRuns, Records | registry, queue, loop and cleaner as a transition system; laws over its runs; the records schedulers run with |
| Cluster | several replicas together |
| Dispatcher, Pipeline, PipelineRuns | scheme dispatch under the semaphore; the worker side as a transition system; laws over its runs |

Conventions. Go strings are byte strings. A `uint64` is an integer below 2^64 and every product is reduced modulo 2^64;
exclusive or is defined bit by bit. The laws of the registry hold for any sharding rule; `Sharding.Rule` is the one in
use. Registry methods model the part of an operation that runs under the mutex and return the events it computes.
`Announces` describes those events as the change of the active set, one event per address, in any order, because
UpdatePeers ranges over a Go map. ControlLoop takes operations one after the other: each finishes emitting before the
next begins; `EventOrder.AnyOrderWorksIff` says when this matters. A dropped addition is allowed at any time, which covers
the 100 ms timeout on a full channel.

## What was found on the way

- Agreement between replicas needs a unique best bid. With a tie the owner depends on the order of the peer list, and
  two replicas can own a target at once (`Rendezvous.AgreementIff`, `Cluster.SoleOwnerIff`).
- The NUL delimiter makes the hashed key unambiguous exactly when neither string contains NUL (`HashKey.UnambiguousIff`).
- When two slices list the same dynamic address, dropping it from one unregisters it although the other still lists it;
  `Reconciliation.StepAgreesIff` gives the exact condition, and a resync repairs it (`Reconciliation.ResyncConverges`).
- A dropped addition is never retried, not even by a resync: the registry already counts the target as active
  (`LoopRuns.DroppedAdditionLeavesGap`). Over a whole run, the schedulers settle on exactly the owned targets if and only
  if every gap so opened was closed by a later operation on that target (`LoopRuns.SettledIff`).
- A changed annotation takes effect slice by slice. One resync can lose an address that moves between slices
  (`Annotations.OneResyncMayLose`). One is sure to do, whatever its order, exactly when no dynamic address that is still
  derived has left a slice (`Annotations.OneResyncSufficesIff`); two always suffice (`Informer.ResyncFromStore`).
- A static definition of an address that is already active as a dynamic target replaces the registered record, but the
  event loop ignores the second addition: the running scheduler keeps the old scheme and certificate setting until it is
  stopped (`Records.StaticRecordUnused`, exactly when: `Records.RecordsFollowIff`, `Records.RunningRecordIff`).
- Delete callbacks run after the cleaner's lock is released, so a target that is added again between a scrape and its
  callback loses metrics while it is being probed (`LoopRuns.AlwaysDeletesSafeIff`, `ControlLoop.DeletionCanHitRunningTarget`).
- Events are emitted after the registry's lock is released, so those of concurrent operations mix. Every mixture is right
  exactly when no address is started by one of the operations and stopped by another (`EventOrder.AnyOrderWorksIff`);
  otherwise a scheduler can be left for a target that is no longer registered (`EventOrder.ReversedAddRemoveLeaks`).
- Probe paths are unrestricted annotations. Two of them can give different places the same target key exactly when one is the
  other with up to nine digits in front, or with text and a port in front that read as the rest of an IPv6 address
  (`Rendering.ClashIff`). Rooted and empty paths are safe (`Rendering.RootedPathsAreSafe`).
- A peer list in another order can move targets, exactly on a replica that ties for a best bid
  (`Rebalancing.ReorderIsSilentIff`).
- `Dispatcher.Execute` is documented as a non-blocking attempt to take a token; the code waits until the deadline. The
  model follows the code. A worker can wait exactly when an explicit limit is set below the number of workers
  (`Pipeline.ConfiguredWaitIff`).

## Model

| member | source | states |
|---|---|---|
| Fnv.OneByteDifference | pkg/prober/sharding.go:16-58 | two keys of equal length that differ in exactly one byte never have the same FNV-1a hash |
| Fnv.FoldInjective | pkg/prober/sharding.go:20-23 | absorbing the same bytes never merges two different hash states |
| Fnv.AbsorbInjective | pkg/prober/sharding.go:21-22 | one hash round is a bijection in the state and, separately, in the byte |
| Fnv.TimesPrimeInvertible | pkg/prober/sharding.go:22 | multiplication by the prime modulo 2^64 is undone by multiplication with its inverse |
| Fnv.AbsorbFlipsThenMultiplies | pkg/prober/sharding.go:21-22 | one round first flips the bits of the state that are set in the byte, then multiplies by 1099511628211 modulo 2^64 |
| Fnv.LastBitStep | pkg/prober/sharding.go:20-23 | keys that differ in the lowest bit of the last byte hash exactly one prime apart, modulo 2^64 |
| Fnv.TestVectors | pkg/prober/sharding.go:17-23 | the published FNV-1a hashes of the empty string and of "a" |
| Decimal.RoundTrip | pkg/prober/sharding.go:38-55 | parsing a printed number gives the number back |
| Decimal.DigitCount | pkg/prober/sharding.go:42-48 | a number has at most k digits exactly when it is below 10^k |
| Sharding.BufferFits | pkg/prober/sharding.go:42-48 | the 10-byte digit buffer suffices exactly for indices below 10^10 |
| Sharding.FillDigits | pkg/prober/sharding.go:42-48 | the backwards digit loop leaves the numeral of the index at the end of the buffer, within bounds; a negative index leaves nothing |
| Sharding.HashTargetPodAndVNode | pkg/prober/sharding.go:16-58 | the streaming loops return the FNV-1a hash of target, NUL, pod IP, '#' and the index numeral |
| Sharding.AbsorbAll | pkg/prober/sharding.go:20-33 | the byte loop continues the hash of what came before with the whole string |
| Sharding.AbsorbFrom | pkg/prober/sharding.go:49-52 | the loop over the buffer continues the hash with the digits from the index on |
| Sharding.BestIsMaximum | pkg/prober/sharding.go:70-76 | a pod's bid is the maximum of its virtual nodes' weights |
| Sharding.BidIsGreatestWeight | pkg/prober/sharding.go:66-77 | a pod bids the greatest weight of the indices 0 to 99 |
| Sharding.OwnsIff | pkg/prober/sharding.go:61-92 | a replica owns a target exactly if it has no pod IP, knows no peers, or is the first best bidder |
| Sharding.KeyLayout | pkg/prober/sharding.go:20-55 | the bytes of sample keys: target, NUL, pod IP, '#', numeral |
| Sharding.Challenge | pkg/prober/sharding.go:70-76 | the inner loop replaces the holder exactly when the pod's bid exceeds the bar or the pod is first |
| Sharding.EvalShardingOwner | pkg/prober/sharding.go:61-92 | the nested search decides ownership as the selection rule does, with the two fallbacks that own everything |
| HashKey.KeyRoundTrip | pkg/prober/sharding.go:25-55 | for NUL-free targets a decoder recovers target, pod IP and index from the key |
| HashKey.UnambiguousIff | pkg/prober/sharding.go:25-37 | a key belongs to one triple only, exactly when neither target nor pod IP contains NUL |
| HashKey.OneDigitDifference | pkg/prober/sharding.go:38-55 | indices whose numerals have equal length and differ in one digit hash differently |
| HashKey.LastDigitDifference | pkg/prober/sharding.go:38-55 | indices that differ in the last digit only hash differently |
| Rendezvous.WinnerIsFirstBest | pkg/prober/sharding.go:69-77 | the selected peer is at a position no earlier peer ties and no later peer beats |
| Rendezvous.FirstBestWins | pkg/prober/sharding.go:69-77 | that description determines the selected peer |
| Rendezvous.AgreementIff | pkg/prober/sharding.go:61-92 | all orders and multiplicities of the same peers select the same pod exactly when the best bid is unique |
| Rendezvous.TieFollowsOrder | pkg/prober/sharding.go:73-76 | with a tie, moving another best peer to the front changes the selection |
| Rendezvous.InsertPeer | pkg/prober/sharding.go:69-77 | a new peer at any position leaves the selection alone or takes it |
| Rendezvous.OwnStableIff | pkg/prober/sharding.go:69-77 | whether a pod is selected is independent of the list's order exactly unless it ties for the best bid |
| Rendering.Derive | pkg/prober/registry.go:121-146 | the nested loops build the derived list, and the set of its members |
| Rendering.CollectPorts | pkg/prober/registry.go:124-133 | port 80 for a slice without ports, otherwise the non-nil ports in order |
| Rendering.DerivedExactly | pkg/prober/registry.go:124-146 | an address is derived exactly when it renders an IP of a ready endpoint on a port the slice names, or on port 80 if it names none |
| Rendering.ActivePortsHas | pkg/prober/registry.go:124-133 | the active ports are the non-nil ports of the slice, or port 80 for a slice without ports |
| Rendering.PortlessOn80 | pkg/prober/registry.go:124-126 | a slice without ports derives the renderings of its ready IPs on port 80 |
| Rendering.AddressLayout | pkg/prober/registry.go:141 | the bytes of sample addresses |
| Targets.KeysDiffer | pkg/prober/registry.go:120 | slices of different namespaces or names have different keys, no namespace holding a '/' |
| Rendering.RenderRoundTrip | pkg/prober/registry.go:141 | a decoder inverts the address printer for colon-free schemes, slash-free IPs, non-negative ports and rooted or empty paths |
| Rendering.ClashIff | pkg/prober/registry.go:124-141 | with 32-bit ports and non-empty schemes and IPs, two arbitrary paths can render two different places alike exactly when one is the other preceded by at most nine digits, or by slash-free text, ':' and the numeral of a port |
| Rendering.RootedPathsAreSafe | pkg/prober/registry.go:124-145 | rooted and empty paths never render different places alike |
| Rendering.DigitPathCollides | pkg/prober/registry.go:141 | leading digits of a path run into the port, for every place with a positive port |
| Rendering.ColonPathCollides | pkg/prober/registry.go:141 | a path that goes on like an IPv6 address with a port turns the port before it into a part of the IP |
| Registry.Registry.constructor | pkg/prober/registry.go:25-33 | a new registry is empty and consistent |
| Registry.Registry.ShouldProcessTarget | pkg/prober/registry.go:40-49 | answers the ownership decision under the current peer list |
| Registry.Registry.UpdatePeers | pkg/prober/registry.go:78-110 | leaves the specified state in whatever order targets are visited, and announces exactly the change of the active set |
| Registry.Registry.UpdateFromEndpointSlice | pkg/prober/registry.go:113-199 | leaves the reconciled state and announces exactly the change of the active set |
| Registry.Registry.RemoveEndpointSlice | pkg/prober/registry.go:202-235 | drops the non-static listed targets and announces those that were active |
| Registry.Registry.Add | pkg/prober/registry.go:238-264 | registers a static target unless static already; announces it if owned, once more if it was active as dynamic |
| Registry.Registry.Remove | pkg/prober/registry.go:267-291 | unregisters an address and announces it if it was active |
| RegistryLaws.StepConsistent | pkg/prober/registry.go:78-291 | every operation keeps: active keys are targets, records sit under their address, active equals owned, each dynamic target is listed by the slice it is named after |
| RegistryLaws.RunConsistent | pkg/prober/registry.go:78-291 | the same after every history |
| Declarations.TargetAfter | pkg/prober/registry.go:78-291 | what each operation does to the record of one address, whoever owns it; a new derived target has the slice's key, the given scheme, and certificate checks on |
| Declarations.StaticIff | pkg/prober/registry.go:238-291 | after any history a target is static, on every replica alike, exactly when some addition of it was not followed by its removal |
| Declarations.StaticRecord | pkg/prober/registry.go:238-291 | its record is that of the first addition since the last removal |
| Declarations.SameDefinitionsSameStatics | pkg/prober/registry.go:238-291 | replicas that received the same definitions hold the same static records, whatever else each went through |
| RegistryLaws.StepKeepsStatic | pkg/prober/registry.go:150-291 | removal of its own address is the one operation that touches a static record |
| RegistryLaws.StaticPrecedence | pkg/prober/registry.go:150-291 | no history without that removal deletes, demotes or changes a static target |
| RegistryLaws.RepeatKeepsState | pkg/prober/registry.go:87-291 | repeating any operation at once leaves the state unchanged |
| RegistryLaws.RepeatIsSilent | pkg/prober/registry.go:87-291 | repeating any operation at once emits no event |
| RegistryLaws.EventsUpToOrder | pkg/prober/registry.go:87-104 | the events of an operation are determined up to their order |
| Reconciliation.StepAgreesIff | pkg/prober/registry.go:148-291 | from a state equal to static addresses plus slice lists, an operation leads to such a state exactly when it deletes no address still listed |
| Reconciliation.RunAgreesIff | pkg/prober/registry.go:148-291 | a history agrees at every point exactly when each of its operations is harmless where it occurs |
| Reconciliation.DisjointRunAgrees | pkg/prober/registry.go:148-291 | a history whose slice lists stay pairwise disjoint, and that removes no listed address, agrees at every point |
| Reconciliation.DisjointIsHarmless | pkg/prober/registry.go:148-230 | with pairwise disjoint slice lists only a removal of a listed address can break it |
| Reconciliation.OverlapLosesTarget | pkg/prober/registry.go:212-219 | removing one of two slices that list a dynamic address unregisters it while the other lists it |
| Reconciliation.OverlapFromStart | pkg/prober/registry.go:148-219 | two ordinary updates of slices that derive a common address lead from the start to such a failing removal |
| Reconciliation.RelistRun | pkg/prober/registry.go:148-193 | re-listing known slices in any order, amid any peer updates, deletes nothing and registers their addresses |
| Reconciliation.RelistIsGentle | pkg/prober/registry.go:148-193 | no re-listing of a resync stops a target |
| Reconciliation.ResyncConverges | pkg/prober/registry.go:113-199 | after any history a resync, amid any peer updates, deletes nothing and ends with the static addresses plus all slice lists |
| Rebalancing.JoinEvents | pkg/prober/registry.go:78-110 | any number of peers joins, the list coming in any order, best bids unique: another replica emits removals only, exactly for its targets that newcomers now own |
| Rebalancing.LeaveEvents | pkg/prober/registry.go:78-110 | any number of peers leaves, likewise: a survivor emits additions only, exactly for targets the departed owned that fall to it |
| Rebalancing.InsertEvents | pkg/prober/registry.go:78-110 | the same for one peer inserted anywhere in a list that keeps its order, ties allowed |
| Rebalancing.DeleteEvents | pkg/prober/registry.go:78-110 | the same for one peer taken out of a list that keeps its order, ties allowed |
| Rebalancing.ReorderIsSilentIff | pkg/prober/informer.go:151 | the same peers in another order emit nothing, whatever the order, exactly when the replica ties for the best bid on none of its targets |
| Rebalancing.AloneOwnsAll | pkg/prober/sharding.go:62-64 | without a pod IP, or before it knows any peer, a replica is active on every registered target |
| Rebalancing.OutsiderOwnsNothing | pkg/prober/sharding.go:69-92 | a replica missing from a non-empty peer list is active on none |
| Informer.AggregatePeers | pkg/prober/informer.go:148-166 | the peer list holds exactly the ready addresses of the prober's own slices, whatever the store's order |
| Informer.PeersExactly | pkg/prober/informer.go:151-160 | the pods named are the addresses of ready endpoints of slices labelled as those of the service kube-prober |
| Informer.KnowsPeersIff | pkg/prober/informer.go:148-166 | collecting the peers anew makes the peer list name the store's ready prober pods exactly when there are any, or none was known |
| Informer.OnlyLabelledSlices | pkg/prober/informer.go:83-128 | the operation each handler calls for slices with and without the label probe=true |
| Informer.AnnotationsDecide | pkg/prober/informer.go:39-73 | the addresses of a slice are rendered with the scheme of probe/scheme, http if absent or empty, and the path of probe/path, even an empty one, /healthz if absent |
| Informer.DefaultsDecide | pkg/prober/informer.go:39-56 | without a service name or a cached service they are rendered with http and /healthz |
| Informer.MirrorIff | pkg/prober/informer.go:83-128 | handling a notification keeps the registry's slice lists equal to those of the probed slices in the store, each under the annotations it was last handled with, exactly when it does not hide that a stored slice was probed |
| Informer.HistoryMirrors | pkg/prober/informer.go:83-128 | the same through any history of notifications, annotation changes, peer updates and other operations |
| Informer.ResyncUpdates | pkg/prober/informer.go:93-98 | delivering every probed slice as updated, the peers being collected any number of times in between, puts the current annotations into force and touches no static target |
| Informer.ResyncFromStore | pkg/prober/informer.go:93-98 | once the lists are current, and one resync makes them so, a resync deletes nothing and ends with the static addresses plus all derived ones |
| Informer.ResyncPeers | pkg/prober/informer.go:148-172 | a resync leaves the peer list naming the store's ready prober pods if it did before, or if it collects them once |
| Annotations.OneResyncIff | pkg/prober/informer.go:60-98 | after any history, one resync in a given order restores the set view exactly when every derived dynamic address is listed again after its last drop |
| Annotations.OneResyncSufficesIff | pkg/prober/informer.go:60-98 | every resync, whatever its order, restores the set view exactly when no dynamic address that is still derived has left a slice by a change of annotations |
| Annotations.OneResyncMayLose | pkg/prober/informer.go:60-98 | a reachable state from which one resync unregisters an address that a slice goes on listing |
| MetricsCleaner.MetricsCleaner.MarkForDeletion | pkg/server/metrics_cleaner.go:27-31 | sets the countdown of the address to one, keeping all others |
| MetricsCleaner.MetricsCleaner.AbortDeletion | pkg/server/metrics_cleaner.go:34-38 | forgets the address, keeping all others |
| MetricsCleaner.MetricsCleaner.Collect | pkg/server/metrics_cleaner.go:49-60 | one pass in any order collects each expired address once, removes it and counts the others down |
| MetricsCleaner.CollectedByCountdown | pkg/server/metrics_cleaner.go:49-60 | an entry with n scrapes left is collected by the n-th, not earlier and not again |
| EventLoop.Controller.HandleEvent | main.go:162-197 | an addition aborts deletion and starts a scheduler with the target announced unless there is one; a removal cancels and marks, if there is one |
| EventLoop.Controller.HandleAll | main.go:162-197 | a loop whose scheduler map equals the registry's active set is in that position again after the events of any operation, none pending deletion |
| EventLoop.HandleSeqReplays | main.go:162-197 | the handler adds to and takes from the scheduler map just what the events say |
| Replica.Replica.Perform | main.go:145-198 | after any operation and its events the schedulers are those of the registered targets the replica owns, and of all registered targets without a pod IP or peers |
| ControlLoop.SmallStepsHandle | main.go:162-197 | the loop's small steps, undisturbed, amount to handling the event in one go |
| EventOrder.ReplayAnnounced | pkg/prober/registry.go:78-291 | handling an operation's events turns the old active set into the new one |
| EventOrder.AnyOrderWorksIff | pkg/prober/registry.go:105-109 | the events of any number of operations, merged in every possible way, give the right outcome exactly when no address is started by one and stopped by another |
| EventOrder.SwappedEmissionIff | pkg/prober/registry.go:105-109 | for two operations, one batch overtaking the other as a whole is right under exactly that condition |
| EventOrder.ReversedAddRemoveLeaks | pkg/prober/registry.go:238-291 | a target added and at once removed, its events reversed, keeps a scheduler although it is not registered |
| ControlLoop.StepGood | main.go:162-197 | every small step keeps simulation, scheduler accounting, separation of pending and scheduled addresses, and the balance of marks |
| ControlLoop.NoLeakedScheduler | pkg/prober/registry.go:51-75 | with additions dropped at will, what is under way leads to schedulers of owned targets only, and those missing were dropped |
| ControlLoop.SchedulersMatchOwnership | main.go:162-197 | without drops the outcome is exactly the owned targets, and so is the scheduler map at rest |
| ControlLoop.OneSchedulerPerAddress | main.go:169-195 | an address never has two uncancelled schedulers, and the one it has is the stored one unless it is being stopped |
| ControlLoop.ScrapesAreSafe | pkg/server/metrics_cleaner.go:49-60 | no address is pending deletion and scheduled at once; no mark is overwritten; marks equal collected plus aborted plus pending; collected equals deleted plus awaiting |
| LoopRuns.MissingStep | pkg/prober/registry.go:53-66 | a scheduler goes missing exactly when the only addition of its target is dropped, and returns or becomes undue exactly by an operation that stops the target or makes it static |
| LoopRuns.MissingIff | pkg/prober/registry.go:53-66 | over a whole run, a target lacks its scheduler exactly when such a gap was opened and not closed since |
| LoopRuns.SettledIff | pkg/prober/registry.go:53-66 | the outcome of a run is exactly the owned targets if and only if every gap was closed |
| LoopRuns.DroppedAdditionLeavesGap | pkg/prober/registry.go:53-66 | a reachable configuration at rest in which an owned target has no scheduler |
| LoopRuns.ComesToRest | main.go:162-197 | every run can be continued, without a drop, until all is at rest, the schedulers then being those foreseen before |
| LoopRuns.AdvancesEnd | main.go:162-197 | left alone, emission and loop take a bounded number of steps more, and these leave registry and outcome as they are |
| LoopRuns.ChannelHoldsThousand | pkg/prober/registry.go:31 | an event can be emitted exactly while fewer than 1000 are queued |
| LoopRuns.AlwaysDeletesSafeIff | pkg/server/metrics_cleaner.go:62-65 | over a whole run, callbacks are safe throughout exactly when no step starts a scheduler for a collected, undeleted address |
| ControlLoop.DeletesSafeIff | pkg/server/metrics_cleaner.go:62-65 | callbacks are safe after a step exactly unless it starts a scheduler for a collected, undeleted address |
| ControlLoop.DeletionCanHitRunningTarget | pkg/server/metrics_cleaner.go:62-65 | a reachable configuration where the next callback deletes the metrics of a scheduled target |
| Records.RecordsFollowIff | main.go:162-182 | after an operation's events the schedulers run with the registered records exactly unless it makes an active dynamic target static |
| Records.OutdatedStep | main.go:162-182 | a running record becomes outdated exactly when its target is made static, and stays so until exactly the scheduler is stopped |
| Records.RunningRecordIff | main.go:162-182 | at rest after any run, a scheduler has the registered record exactly unless its target was made static while it was running and it was not stopped since |
| Records.EventRecords | pkg/prober/registry.go:78-291 | an addition carries the record registered after the operation; a removal that registered before it, or from a slice operation the address only |
| Records.StaticRecordUnused | pkg/prober/registry.go:238-258 | a reachable configuration at rest in which the static record is registered and the scheduler runs with the dynamic one |
| Cluster.OwnerIsUnique | pkg/prober/sharding.go:61-92 | replicas that see the same pods in any order single out one owner of a target with a unique best bid |
| Cluster.SoleOwnerIff | pkg/prober/sharding.go:61-92 | one owner under all peer orders exactly when the best bid is unique |
| Cluster.TieMeansTwoOwners | pkg/prober/sharding.go:73-76 | with a tie there are peer orders under which two replicas own the target |
| Cluster.ExactlyOneActive | pkg/prober/registry.go:78-105 | after arbitrary histories with equal target keys and peer sets, a target with a unique best bid is active on exactly one replica |
| Cluster.ExactlyOneProber | main.go:162-197 | after any runs that came to rest no replica but one runs a scheduler for it, and that one does exactly unless on its run the addition was dropped and no operation since has stopped the target or made it static |
| Cluster.ExactlyOneProberWithoutDrops | main.go:162-197 | without drops exactly one replica runs a scheduler for it |
| Cluster.ResyncRestoresExactlyOne | pkg/prober/registry.go:113-199 | replicas with the same slices and statics that diverged otherwise are brought back to exactly one by resyncs of their own, amid peer updates |
| Cluster.FedAlikeKnowTheSame | pkg/prober/informer.go:83-166 | replicas whose informers show the same store and statics and that are up to date know the same slices, statics and pods |
| Cluster.SameDefinitionsFedAlike | pkg/prober/registry.go:238-291 | replicas whose feeds bring the same definitions of static targets see the same static addresses |
| Cluster.ExactlyOneFromInformers | pkg/prober/informer.go:83-166 | replicas fed the same cluster through any histories, after two resyncs of their own amid the peer updates these cause, hold every listed or static target with a unique best bid active on exactly one of them |
| Dispatcher.Dispatcher.constructor | pkg/prober/dispatcher.go:20-30 | no semaphore unless the limit is positive |
| Dispatcher.Dispatcher.Execute | pkg/prober/dispatcher.go:40-72 | the result of the handler of the target's own scheme, else of its address's scheme, unknown_error without either, timeout without a token; the token is given back on every return |
| Dispatcher.OwnSchemeFirst | pkg/prober/dispatcher.go:53-68 | the target's own scheme goes before that of its address, and no handler is found exactly when neither is registered |
| Dispatcher.DefaultSlots | main.go:62-63 | unless configured there are twice as many slots as workers |
| Pipeline.StepGood | pkg/prober/worker.go:17-108 | every atomic action of a scheduler or worker keeps all pipeline balances |
| Pipeline.JobsConserved | pkg/prober/worker.go:68-108 | for any selection of targets, attempts are sent, dropped, refused or open; jobs are received in order; the queue keeps within its size |
| Pipeline.JobsHandledOnce | pkg/prober/worker.go:17-62 | for any selection of targets, each job sent is queued, with one worker, or finished |
| Pipeline.SaturationIsBusyWorkers | pkg/prober/worker.go:17-19 | the gauge is the number of workers inside ProbeTarget and at most the pool size |
| Pipeline.SignalsConserved | pkg/prober/worker.go:21-44 | for any selection of targets, traffic, latencies and errors differ by exactly the probes in between; errors never exceed latencies |
| PipelineRuns.ErrorsAreFailures | pkg/prober/worker.go:27-44 | over any run and for any selection of targets, errors count the probes that returned a category or timed out before a slot, successes those that returned none, up to results still to be reported |
| PipelineRuns.DropsAreFullQueues | pkg/prober/worker.go:75-106 | drops count the attempts that met a full queue, refusals those that saw a cancellation, attempts the starts and ticks |
| PipelineRuns.EnqueueNeverBlocks | pkg/prober/worker.go:75-86 | an attempt can always be sent, dropped or refused at once |
| PipelineRuns.TicksOnAfterDrop | pkg/prober/worker.go:93-106 | after a drop the scheduler waits for its ticker and attempts again |
| PipelineRuns.EndsOnlyByCancellation | pkg/prober/worker.go:88-107 | a scheduler ends only after its cancel function was called |
| PipelineRuns.CancellationEnds | pkg/prober/worker.go:88-107 | a cancelled scheduler can end at its next select, and a refused attempt ends it |
| PipelineRuns.EndedIsFinal | pkg/prober/worker.go:88-107 | an ended scheduler makes no further attempt |
| Pipeline.TokensAreProbes | pkg/prober/dispatcher.go:42-50 | tokens are the probes under way, within capacity, and giving one back never blocks |
| Pipeline.EnoughSlots | main.go:62-63 | with at least as many slots as workers, acquiring never waits |
| Pipeline.CanWaitIff | pkg/prober/dispatcher.go:40-50 | some interleaving makes a worker wait exactly when there are fewer slots than workers |
| Pipeline.ConfiguredWaitIff | main.go:48-63 | the default limit never makes a worker wait; an explicit one does exactly when positive and below the number of workers |

## Left out

- Network probers, `MapToCategory` and `Hint`: thin wrappers over foreign libraries and flat case tables; a probe function is an arbitrary function from targets to categories.
- Kubernetes clients, informer internals, tombstones, the HTTP server, logging and environment parsing: input and output; informers are a source of notifications.
- Wall-clock time: tickers, the 100 ms timeout and probe deadlines are choices that may fall either way.
- Shutdown (main.go lines 200-230) and cancellation of the root context: only the running phase is modelled.
- Balance of the target distribution: a statistical claim about a fixed hash.
- Deletion of metric series: the pipeline counts cumulatively, for any selection of targets, because a queued job can recreate a deleted series.
- The link between the control loop's schedulers and the pipeline's: the two transition systems are separate; a scheduler of the pipeline may be spawned and cancelled at any time.
- Parsing of StaticTarget resources: additions and removals of targets are taken as given; an edit only calls `Add`.
- Registry.Registry.RemoveEndpointSlice: its scheme and path parameters are unused in the source and dropped here.
- Informer.HistoryMirrors: handlers see the caches as they are when they run; delays between a cache and its handlers are not modelled.
- Dispatcher.Dispatcher.Execute: one call at a time, with the outcome of its select as a parameter; the calls of many workers at once are steps of `Pipeline`.
