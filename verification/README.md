# polyplug, modelled and verified

polyplug is a plugin runtime. What it promises is about lifecycles under concurrency: readers
that take no lock and never touch freed memory, registration that is all or nothing, unload
that cannot free code in use, and reloads and unloads that cascade over a dependency graph.
This project models those parts in Dafny and proves the promises, for any number of threads,
bundles, contracts and files.

| part | files |
|---|---|
| Epoch reclamation | `EpochCollector.dfy` (the locked bookkeeping, in place), `EpochProtocol.dfy` (every interleaving of readers and writers) |
| Contract registry | `RegistryStore.dfy` (store sections as functions), `RuntimeStore.dfy` (the store object, proved against them), `RegistryInvariant.dfy`, `ReloadSwap.dfy`, `StoreEffects.dfy`, `ReloadOrder.dfy` (who gets which slot) |
| Reload window | `ReloadRuns.dfy`, `ReloadReaders.dfy` (what readers see over whole runs), `StaleHandles.dfy` (handles over whole runs), `ContractNames.dfy` (one name per contract), `UnserializedReloads.dfy` (why reloads are serialized), `OvertakenReloads.dfy` (an unload inside a reload) |
| Reload cascade | `ReloadTrace.dfy` (derivations and callback traces), `ReloadCascade.dfy` (the runtime's walk) |
| Unload cascade | `DependencyGraph.dfy`, `CascadeUnload.dfy`, `ResidentCycles.dfy` (cycles through residents) |
| Instances against unload | `InstanceCounts.dfy` |
| Internal-plugin transactions | `Transactions.dfy` (the calls), `PluginRuntime.dfy` (the runtime object, proved against them), `ResidentRuns.dfy`, `TransactionRuns.dfy` (any calls in any order), `TransactionDiscipline.dfy` (orderly callers, and single slips), `DestroyRetry.dfy` and `MutualPlugins.dfy` (whether a refused destroy can be followed by one that succeeds), `TransactionSections.dfy` (the calls cut into lock sections), `WholeCalls.dfy` (the sections put together are the calls) |
| Init stacks, singletons | `InitStack.dfy`, `Singleton.dfy` |
| Provider-set validation | `ProviderSet.dfy` |
| Shared | `Basics.dfy`, `ThreadLists.dfy` (a list per thread in one map) |
| Generated output | `OutputWriter.dfy`, `FileWriter.dfy`, `TempCollisions.dfy`, `InternalPaths.dfy` |

Code that updates fields or loops in place is a class or a method, each proved against a
function of its inputs or of its old state; protocols between threads are state machines whose
steps are single lock sections or atomic accesses. `dafny verify dfyconfig.toml` checks the
whole project.

## What turned out not to hold in general

Each of these is stated with a concrete input that breaks it and the condition under which it
holds.

- A bundle that registers one contract twice inside its reload window is not refused, and
  readers then see two live slots for it (`RepeatedRegistrationShows`). Readers see at most one
  slot exactly when no committed version registered the contract twice
  (`ProvidedStaysFindable`).
- Published providers of one contract agree in its name up to the first reload whose arrivals do
  not agree with each other and with the other bundles (`StepAgrees`, `NamesAgreeUntil`): what
  arrives inside a window is checked against published providers only (`TwoNamesInOneWindow`).
- A handle that readers found never comes to mean another bundle or contract, and once stale
  stays stale, until 2^32 steps later (`HandleMeansTheSame`). A handle returned inside a reload
  window that is then aborted has no such protection: its slot is purged without a new
  generation, and the next registration there answers to it (`PurgedHandleRevives`).
- Cascade unload removes dependents first exactly when the closure has no cycle
  (`UnloadBundleCascade`); `UnloadCycle` is a registry of two bundles where it does not.
- The init stack lists a thread's open transactions, and a provider is published by a commit
  only, as long as every closing call closes its thread's innermost transaction, and from the
  first that does not the stack is wrong (`StacksStep`, `StacksExactUntil`). Committing the
  outer of two transactions first publishes the inner one's next provider at once, under the
  outer bundle (`UnnestedCommitPublishesEarly`). A staged provider is published directly
  exactly when the bundle on top of the stack has no transaction there (`AllOrNothing`).
- A commit with no open transaction is refused but still pops the init stack and drops the
  bundle's lifecycle marker (`CommitWithoutBegin`, `SecondCommitLosesMarker`). A close that
  publishes nothing drops the marker rightly exactly when the bundle is not published and has
  no other open transaction (`DroppedMarker`, `MarksStep`); overlapping transactions of one
  bundle id lose the marker of the one that was published (`OverlapLosesMarker`).
- An unload checks the resident's owner in one lock section and takes the resident out in a
  later one. The owner assertion in front of the release callback cannot fail as long as no
  commit publishes a bundle with a resident while another thread's unload of that bundle is
  between the two (`GuardedStep`, `AssertionsHold`); every run in which one does can go on to a
  failing assertion, which aborts with nothing released (`OvertakenRunGoesOn`; concretely
  `OvertakenUnload`).
- A refused destroy leaves the runtime for its owners to retry, but a later destroy can succeed
  if and only if no dependency cycle passes through residents of two owners
  (`DestroyIsRetryable`). Such a cycle can be unloaded by no thread, directly or by cascade
  (`UnloadTwoOwners`), and two threads that register plugins depending on each other reach one
  (`MutualPluginsPinRuntime`).
- An unload does not take the lock that serializes reloads. If it falls between the slot snapshot
  and the swap of its own bundle, the swap fails, or it destroys one registration made since for
  each snapshotted slot (`UnloadInWindow`): the new version's (`ArrivalLost`) or another
  bundle's (`BystanderLost`). It leaves other bundles alone exactly if none of them holds a
  snapshotted slot (`SwapCosts`).
- Provider-set validation is mutual coverage exactly when the declared specs are pairwise
  disjoint, or one of them can never be met (`MutualCoverageExactly`, `OverlapRejects`).
- A completed write run delivers every target exactly when the plan, which the start alone
  determines, sends no write through the path of an earlier target (`DeliversExactly`,
  `CollisionLosesFile`), and leaves other files alone exactly when none of them sits at a
  temporary name it uses (`WriteOutput`, `ForeignFileIsLost`).
- Prefixed outputs of different internal bundles are disjoint exactly when they share no
  absolute path, since joining an absolute path drops the prefix (`OutputsDisjoint`,
  `AbsolutePathIsShared`).
- Prefixing keeps the paths of one bundle distinct exactly when they differ in more than a
  leading dot: `./a` and `a` become one path (`PrefixKeepsDistinct`, `DotMakesDuplicate`).

Where documentation and code disagree the code is followed: `Version::from_str` says it takes
one to three components and takes two or three
(`crates/polyplug_abi/src/types/version.rs:63-90`).

## Model

| member | source | states |
|---|---|---|
| EpochCollector.World.constructor | crates/loom_epoch_model/src/lib.rs:126-146 | a new world publishes its first slot; no guard is active, nothing deferred or freed |
| EpochCollector.World.Pin | crates/loom_epoch_model/src/lib.rs:154-161 | one lock section: a guard id never used before joins the active list, nothing else changes |
| EpochCollector.World.Unpin | crates/loom_epoch_model/src/lib.rs:165-170 | the retain loop removes exactly that guard, and what no active guard protects any more is reclaimed |
| EpochCollector.World.Swap | crates/loom_epoch_model/src/lib.rs:174-175 | the atomic exchange alone, before the lock is taken |
| EpochCollector.World.Defer | crates/loom_epoch_model/src/lib.rs:176-181 | the locked half of publishing: snapshot of the active guards, defer, reclaim |
| EpochCollector.World.Reclaim | crates/loom_epoch_model/src/lib.rs:186-203 | the remove-by-index loop equals filtering the deferred list by "snapshot meets active", in order |
| EpochCollector.KeptMembers | crates/loom_epoch_model/src/lib.rs:186-203 | the filter keeps exactly the deferrals some active guard protects |
| EpochCollector.ReclaimConserves | crates/loom_epoch_model/src/lib.rs:186-203 | as multisets, kept slots and reclaimed slots are the deferred slots: none lost, none reclaimed twice |
| EpochProtocol.PinnedReaderHoldsLiveSlot | crates/loom_epoch_model/src/lib.rs:154-218 | in every run a reader that pinned before loading holds a live slot, because it is published, swapped out but not deferred, or deferred with this guard in its snapshot; and a reader that dereferenced under its guard saw a live slot |
| EpochProtocol.ExactlyOnePhase | crates/loom_epoch_model/src/lib.rs:174-203 | every slot is in exactly one of five phases, alive unless reclaimed, reclaimed at most once; with no guard active nothing waits |
| EpochProtocol.UnpinnedReaderCanObserveReclaim | crates/loom_epoch_model/src/lib.rs:223-231 | from every reachable state in which a reader unpinned before dereferencing, some continuation without it reclaims its slot, and it then sees a reclaimed slot |
| DependencyGraph.ClosureIsLeast | crates/polyplug/src/runtime.rs:1401-1430 | a set that holds the target, is closed under dependents and is reachable from it is exactly the set of its transitive dependents |
| DependencyGraph.DependentsMeans | crates/polyplug/src/runtime_store.rs:1936-1968 | the dependents of a bundle are the other bundles that declared some contract which it, loaded, exports |
| DependencyGraph.RemovedIsClosed | crates/polyplug/src/runtime.rs:1435-1468 | what a dependents-first walk removed, even cut short, leaves no dependent behind |
| DependencyGraph.EachStepUnused | crates/polyplug/src/runtime.rs:1199-1222 | every removal of such a walk would itself have passed the dependency-in-use check |
| DependencyGraph.DependentsFirstOnlyIfAcyclic | crates/polyplug/src/runtime.rs:1385-1392 | a dependents-first order of the closure exists only without a cycle |
| CascadeUnload.Runtime.UnloadRegistered | crates/polyplug/src/runtime.rs:1251-1319 | a resident of another thread, and internal backing with live instances, refuse without effect; otherwise exactly this bundle's rows go, also when its loader then fails |
| CascadeUnload.Runtime.UnloadBundle | crates/polyplug/src/runtime.rs:1188-1225 | refused as in use exactly while another loaded bundle declared a contract it exports; succeeds exactly if it is loaded, unused, owned by the thread, not busy and its loader agrees; every refusal changes nothing |
| CascadeUnload.Runtime.EnsureAffinity | crates/polyplug/src/runtime.rs:1401-1430 | terminates on any graph; success means everything newly visited is loaded, owned by this thread, and closed under dependents; an error names an offending bundle of the closure |
| CascadeUnload.Runtime.CascadeWithVisited | crates/polyplug/src/runtime.rs:1435-1468 | terminates on any graph; success or error, what was removed since the start is reachable from the root, once each, and dependents first if the closure is acyclic |
| CascadeUnload.Runtime.UnloadBundleCascade | crates/polyplug/src/runtime.rs:1392-1398 | succeeds exactly when the whole closure passes, then removes exactly the closure: every bundle that declared a contract of a removed one, and besides the target none that did not; a missing or foreign-thread bundle anywhere in it fails the call with nothing changed; dependents first exactly if acyclic, and then, error or not, each removal was of a bundle nothing loaded depended on |
| CascadeUnload.CascadeIsOrderly | crates/polyplug/src/runtime.rs:1435-1468 | without a cycle, what a cascade removed, even cut short by an error, leaves no dependent behind, and each removal would have passed the dependency-in-use check |
| CascadeUnload.ClosureIsClean | crates/polyplug/src/runtime.rs:1401-1430 | told by exports and declarations alone, the closure takes along every bundle that declared a contract of one in it, and besides its root nothing else |
| CascadeUnload.UnloadProvider | crates/polyplug/src/runtime.rs:1188-1225 | concretely, a provider is held by the loaded bundle that declared its contract, and in a cascade goes after it |
| CascadeUnload.UnloadConsumer | crates/polyplug/src/runtime.rs:1392-1398 | concretely, the consumer goes alone, directly and in a cascade |
| CascadeUnload.UnloadCycle | crates/polyplug/src/runtime.rs:1385-1398 | concretely, a cascade over a cycle succeeds and removes a bundle before its dependent |
| ResidentCycles.UnloadSparesRing | crates/polyplug/src/runtime.rs:1199-1225 | no direct unload, by any thread, takes a bundle out of a cycle through residents of two owners |
| ResidentCycles.CascadeSparesRing | crates/polyplug/src/runtime.rs:1401-1430 | nor does any cascade: its preflight meets the other owner |
| ResidentCycles.CascadeGoesThrough | crates/polyplug/src/runtime.rs:1392-1468 | a closure that one thread may take down and nothing keeps busy goes in one cascade, cyclic or not |
| ResidentCycles.UnloadTwoOwners | crates/polyplug/src/runtime.rs:1188-1225 | concretely, two bundles that depend on each other, with residents of two threads: both kinds of unload of any bundle on any thread fail and change nothing |
| RuntimeStore.Store.Vacate | crates/polyplug/src/runtime_store.rs:374-403 | bumps the generation with wrap-around, clears the slot and its find entry, drops an empty key, ignores an index out of bounds |
| RuntimeStore.Store.InsertPrepared | crates/polyplug/src/runtime_store.rs:1068-1114 | takes the first vacant slot or a new one, keeps its generation, lists it for its bundle and, if published, for its contract |
| RuntimeStore.Store.IsRefused | crates/polyplug/src/runtime_store.rs:1017-1046 | true exactly when a listed live slot of this contract has another name, or, outside a reload window, belongs to this bundle |
| RuntimeStore.Store.RegisterGuestContract | crates/polyplug/src/runtime_store.rs:824-848 | a duplicate or a name collision is refused without effect; otherwise one more slot and a fresh published view; hidden while its bundle reloads |
| RuntimeStore.Store.ClashIn | crates/polyplug/src/runtime_store.rs:901-930 | true exactly when two staged contracts agree in id and differ in name or agree in descriptor |
| RuntimeStore.Store.RegisterPreparedBundle | crates/polyplug/src/runtime_store.rs:854-899 | all staged contracts in one published view with their handles, or neither data nor view changes |
| RuntimeStore.Store.OpenReload | crates/polyplug/src/runtime_store.rs:1579-1584 | the bundle's registrations are pending from now on |
| RuntimeStore.Store.Reconcile | crates/polyplug/src/runtime_store.rs:1671-1757 | one old slot: invalid handle, torn down, or given the first matching new registration under its own generation |
| RuntimeStore.Store.ApplyReloadSwap | crates/polyplug/src/runtime_store.rs:1647-1796 | the whole swap equals the specification; readers get the result only if it succeeded, and keep the old view otherwise |
| RuntimeStore.Store.AbandonReload | crates/polyplug/src/runtime_store.rs:1597-1645 | purges exactly the slots registered since the snapshot and republishes |
| RuntimeStore.Store.Invalidate | crates/polyplug/src/runtime_store.rs:2044-2078 | vacates every slot of the bundle and forgets it; an unknown bundle changes nothing and publishes nothing |
| RuntimeStore.Store.FindGuestContract | crates/polyplug/src/runtime_store.rs:1175-1213 | some handle exactly if a listed slot is live and reaches the version floor; it is the first such slot, with that slot's own generation |
| RegistryStore.FirstLiveMeans | crates/polyplug/src/runtime_store.rs:1200-1212 | the search answers the first listed slot that is live and reaches the floor, with its generation, and nothing only if there is none |
| RegistryStore.StaleUntilWrapped | crates/polyplug/src/runtime_store.rs:374-403 | generations are 32-bit counters: a slot has its old generation again exactly after a multiple of 2^32 teardowns |
| RegistryInvariant.InsertKeeps | crates/polyplug/src/runtime_store.rs:1068-1114 | on a consistent registry an insertion adds one slot to one bundle and changes nothing else, and the registry stays consistent |
| ReloadSwap.SwapReconciles | crates/polyplug/src/runtime_store.rs:1671-1757 | on a consistent registry the swap never fails; the new version's registrations are conserved one by one, and each old slot's fate is decided by counting |
| ReloadOrder.SwapMatchesInOrder | crates/polyplug/src/runtime_store.rs:1671-1757 | the swap serves old slots in order: each is handed the registration of its contract that arrived next after those taken by the old slots ahead of it, or falls vacant |
| ReloadOrder.FreshKeepsSlots | crates/polyplug/src/runtime_store.rs:1758-1780 | what is left over is appended to the find lists, so whatever was found first stays first |
| StoreEffects.SwapTheorem | crates/polyplug/src/runtime_store.rs:1647-1796 | after the swap the bundle holds exactly what arrived, all of it visible; each old slot survives under the same generation or is stale; other bundles are untouched |
| StoreEffects.AbortTheorem | crates/polyplug/src/runtime_store.rs:1597-1645 | a failed reload leaves the previous version and every find list as they were |
| StoreEffects.InvalidateTheorem | crates/polyplug/src/runtime_store.rs:2044-2078 | unloading makes every handle of the bundle stale and touches nothing else |
| StoreEffects.PreparedTheorem | crates/polyplug/src/runtime_store.rs:854-899 | publication is refused exactly for a loaded bundle, a clash among the staged or a collision with a published name, and otherwise each handle, in order, holds its staged registration, hidden only while the bundle reloads |
| StoreEffects.PreparedContent | crates/polyplug/src/runtime_store.rs:854-899 | the bundle's slots are the handles handed out, and as a multiset their content is what was staged; other bundles keep theirs |
| StoreEffects.ArriveTheorem | crates/polyplug/src/runtime_store.rs:1579-1584 | a registration inside the window is refused exactly for a name collision, and is never visible |
| StoreEffects.AddTheorem | crates/polyplug/src/runtime_store.rs:824-848 | a registration outside a window is refused exactly for a duplicate or a name collision, and otherwise adds one visible slot to its bundle and changes nothing else |
| ContractNames.CollidesMeans | crates/polyplug/src/runtime_store.rs:1017-1046 | a registration collides exactly if some published slot has its contract under another name |
| ContractNames.DuplicateMeans | crates/polyplug/src/runtime_store.rs:1017-1046 | and is a duplicate exactly if one of its bundle's own published slots has its contract |
| ContractNames.StagedClashMeans | crates/polyplug/src/runtime_store.rs:901-930 | a staged set passes exactly if any two registrations of one contract have one name and two descriptors |
| ContractNames.StepAgrees | crates/polyplug/src/runtime_store.rs:1017-1046 | a step keeps the published names in agreement if and only if it is not a swap whose arrivals disagree |
| ContractNames.NamesAgreeUntil | crates/polyplug/src/runtime_store.rs:1017-1046 | in every run published providers of one contract have one name, up to the first such swap, which breaks it |
| ContractNames.TwoNamesInOneWindow | crates/polyplug/src/runtime_store.rs:1579-1584 | concretely, a reload that registers one contract under two names shows both |
| ReloadRuns.StepKeepsInv | crates/polyplug/src/reload.rs:199-319 | snapshot, window, arrivals, swap, abort, registrations outside a window, and loads and unloads of other bundles keep the registry consistent and its committed slots equal to the committed versions; an unload of the reloading bundle itself is `OvertakenReloads.UnloadInWindow` |
| ReloadReaders.ReadersSeeCommitted | crates/polyplug/src/reload.rs:82-98 | in every state of every serialized run, what a reader finds of a bundle's contract is exactly what its last committed version registered |
| ReloadReaders.ProvidedStaysFindable | crates/polyplug/src/reload.rs:199-276 | over any stretch of a run a contract provided by every committed version stays findable, each handle found resolving to what a committed version registered for it at or above the floor; it is seen at most once exactly if no version registered it twice |
| ReloadReaders.FoundIsCommitted | crates/polyplug/src/runtime_store.rs:1175-1213 | whatever a find returns, in any state of any run, resolves to an interface that some committed version registered for that contract at or above the floor |
| ReloadReaders.HandlesAcrossSwap | crates/polyplug/src/runtime_store.rs:1671-1757 | a handle of an old slot resolves to an interface the new version registered for that contract, while the new version has one left for it; otherwise it is stale |
| StaleHandles.HandleMeansTheSame | crates/polyplug/src/runtime_store.rs:374-403 | over any stretch of a run shorter than 2^32 steps, a handle of a committed slot resolves, if at all, to what the same bundle has committed for the same contract, and once it does not resolve it is stale ever after |
| StaleHandles.StepAges | crates/polyplug/src/runtime_store.rs:374-403 | every section tears a slot down at most once, and nothing turns a generation back |
| StaleHandles.FoundIsShown | crates/polyplug/src/runtime_store.rs:1175-1213 | what a reader finds is a handle of a committed slot |
| StaleHandles.PurgedHandleRevives | crates/polyplug/src/runtime_store.rs:1597-1645 | concretely, a handle returned inside a window that is aborted resolves to the next registration in its slot |
| ReloadReaders.RepeatedRegistrationShows | crates/polyplug/src/runtime_store.rs:1017-1046 | for any list a new version registers, some run shows readers each contract as often as it occurs there |
| UnserializedReloads.InterleavedReloadsLoseContract | crates/polyplug/src/reload.rs:82-98 | from every reachable state with no reload under way and for every loaded bundle, two interleaved reloads that provide a contract the bundle was just reloaded to both succeed and leave it without any |
| OvertakenReloads.SwapCosts | crates/polyplug/src/runtime_store.rs:1671-1757 | whatever happened since the snapshot, the swap fails exactly if a snapshotted slot is vacant, otherwise costs one registration per snapshotted slot, and spares other bundles exactly if none of them holds one |
| OvertakenReloads.UnloadInWindow | crates/polyplug/src/runtime_store.rs:1647-1757 | from every reachable state inside a reload, an unload of that bundle vacates every snapshotted slot, so a swap that still succeeds destroys as many registrations made since |
| OvertakenReloads.ArrivalLost | crates/polyplug/src/runtime_store.rs:1671-1710 | concretely, the new version's registration reuses the vacant slot and a swap reported as success tears it down |
| OvertakenReloads.BystanderLost | crates/polyplug/src/runtime_store.rs:1671-1710 | concretely, another bundle takes the vacant slot and the swap tears that bundle's registration down |
| ReloadCascade.Reloader.ReloadBundle | crates/polyplug/src/reload.rs:82-98 | succeeds exactly when its own attempt commits, and then its bundle is at the version found on disk; every other bundle whose cached manifest asks for re-initialisation and that declared a contract of the new version is attempted or reloaded in the call, and no other bundle whose manifest does not ask appears in the trace; derivation, trace and catalog are the one legal derivation that the attempts' outcomes allow, well nested, each bundle reported reloaded at most once |
| ReloadCascade.Reloader.Attempt | crates/polyplug/src/reload.rs:102-272 | the first check that fails decides between silence, a failed callback, and preparing then failed; a commit needs every check, init and swap |
| ReloadCascade.VerdictMeans | crates/polyplug/src/reload.rs:130-276 | which failures the host hears of: none for an unreadable manifest, a missing or unable loader or a bad version; a failure alone for an invalid manifest or missing files; a failure after a preparing callback for init and swap |
| ReloadCascade.Reloader.ReloadWithVisited | crates/polyplug/src/reload.rs:102-320 | terminates; each failure branch fires its own callbacks and leaves catalog and visited set alone; visited grows by exactly the swapped bundles |
| ReloadCascade.Reloader.CascadeDependents | crates/polyplug/src/reload.rs:328-385 | terminates; considers exactly the opted-in dependents at that time in name order, skipping exactly those already swapped |
| ReloadTrace.CallIsDetermined | crates/polyplug/src/reload.rs:102-385 | the cascade rules and the outcomes of the attempts leave exactly one derivation |
| ReloadTrace.SwapsAreNew | crates/polyplug/src/reload.rs:367-385 | no bundle already swapped is swapped again |
| ReloadTrace.ReloadedOnce | crates/polyplug/src/reload.rs:201-319 | a call reports reloaded exactly the bundles it swapped, each once |
| ReloadTrace.WellNested | crates/polyplug/src/reload.rs:201-319 | an observer with a stack accepts the callbacks of a call inside any open brackets: closed in order, and no bundle with an open bracket reappears |
| ReloadTrace.OkIsTheLastForm | crates/polyplug/src/reload.rs:130-180 | the callbacks are empty, failed, preparing-failed, or a bracket that ends in reloaded; success is exactly the last form |
| ReloadTrace.CandidatesAsk | crates/polyplug/src/reload.rs:328-360 | the candidates of a cascade are the other bundles whose cached manifest asks and that declared a contract the reloaded one exports |
| ReloadTrace.DependentsAreAttempted | crates/polyplug/src/reload.rs:328-385 | of every bundle reloaded in a call, every bundle that asks is attempted by that reload, or was itself reloaded in the same call |
| ReloadTrace.DeclinerIsLeftAlone | crates/polyplug/src/reload.rs:354-360 | a bundle that does not ask is neither swapped nor mentioned by a call that did not start at it |
| ReloadTrace.OthersKeepTheirVersion | crates/polyplug/src/reload.rs:237-276 | registry and manifest cache change for swapped bundles only |
| InstanceCounts.StepKeepsInv | crates/polyplug/src/runtime.rs:855-897 | every constructor, destroy, unload, reload and release step keeps count and use in agreement |
| InstanceCounts.CountIsConserved | crates/polyplug/src/runtime.rs:855-897 | in every interleaving an internal bundle's count is its running constructors plus live instances plus destroys not yet recorded |
| InstanceCounts.BackingOutlivesUse | crates/polyplug/src/runtime.rs:1251-1319 | no root or resident is released, or taken out for release, while a constructor or instance may run against it |
| InstanceCounts.UnloadRefusedWhileUsed | crates/polyplug/src/runtime.rs:1283-1291 | unload of an internal bundle, with or without a registered interface, is refused exactly while a constructor, instance or unrecorded destroy of it exists |
| InstanceCounts.LateConstructorReturnsNull | crates/polyplug/src/runtime.rs:3338-3365 | after an accepted unload every later constructor call on its interfaces returns null and changes nothing |
| InstanceCounts.StatefulInstanceIsSafe | crates/polyplug/src/runtime.rs:3338-3395 | told by the steps of a run: from the return of an instance until its destroy is recorded unload of its bundle is refused, until the guest's destroy returned its backing is neither released nor about to be, and until a destroy begins one can |
| InstanceCounts.NullConstructionIsCancelled | crates/polyplug/src/runtime.rs:3388-3391 | a construction that returned null can only be cancelled, and no longer counts once it is |
| InstanceCounts.CountIsTallied | crates/polyplug/src/runtime.rs:855-897 | in every run the count of an internal bundle is its constructor calls less cancellations and recorded destroys |
| InstanceCounts.PlainBundleIsUnloaded | crates/polyplug/src/runtime.rs:1283-1299 | a bundle that is not internal is unloaded whatever lives of it |
| InstanceCounts.ReloadForgets | crates/polyplug/src/reload.rs:278-281 | a reload resets its bundle's count and disowns the old interfaces |
| InstanceCounts.LateDestroyIsDropped | crates/polyplug/src/runtime.rs:3430-3434 | a destroy whose bundle is gone ends without a record |
| InstanceCounts.TokensAreConserved | crates/polyplug/src/runtime.rs:1300-1318 | every registered root or resident is at any time in its bundle, waiting for release, or released; it leaves its bundle by an accepted unload alone, and is released by its own release |
| PluginRuntime.Runtime.PopInit | crates/polyplug/src/runtime.rs:1029-1046 | pops the calling thread's stack, keeping no empty one |
| PluginRuntime.Runtime.FindPrepared | crates/polyplug/src/runtime_store.rs:785-805 | the reverse search finds the innermost transaction of that id on that thread |
| PluginRuntime.Runtime.BeginInternalPlugin | crates/polyplug/src/runtime.rs:413-432 | refused without effect for a published bundle; otherwise one transaction, one marker, one stack entry |
| PluginRuntime.Runtime.StageProvider | crates/polyplug/src/runtime.rs:2214-2276 | goes to the transaction of the bundle on top of the thread's stack, or to the registry when it has none |
| PluginRuntime.Runtime.AttachResident | crates/polyplug/src/runtime.rs:518-536 | a wrong owner, missing transaction or second resident is refused without effect; otherwise the transaction owns it |
| PluginRuntime.Runtime.CommitTransaction | crates/polyplug/src/runtime.rs:586-638 | publishes with handles and moves the resident, or drops transaction and resident and publishes nothing |
| PluginRuntime.Runtime.CommitInternalPlugin | crates/polyplug/src/runtime.rs:434-451 | commit, then pop, then on failure the marker goes |
| PluginRuntime.Runtime.CommitIntoHandles | crates/polyplug/src/runtime.rs:475-506 | the buffer is filled with the handles in staging order exactly on success; a wrong capacity aborts before anything is published |
| PluginRuntime.Runtime.AbortInternalPlugin | crates/polyplug/src/runtime.rs:509-514 | nothing without a transaction; otherwise transaction, resident, marker and stack entry go together |
| PluginRuntime.Runtime.UnloadRegistered | crates/polyplug/src/runtime.rs:1300-1318 | takes the resident out, invalidates, drops the marker, then releases |
| PluginRuntime.Runtime.CanDestroyOn | crates/polyplug/src/runtime_store.rs:710-738 | true exactly when every live and staged resident belongs to the thread |
| PluginRuntime.Runtime.DestroyRuntime | crates/polyplug/src/ffi.rs:133-169 | false changes nothing; true releases all that is held and consumes the runtime |
| ResidentRuns.CallKeepsCore | crates/polyplug/src/runtime.rs:413-514 | every call, overlapping and in any order, keeps the registry consistent and each attached resident in one place or released once by its owner |
| ResidentRuns.ResidentsReleasedOnce | crates/polyplug/src/runtime_store.rs:78-108 | in every run, in whatever order transactions overlap and close, no resident is released twice or off its owner's thread; one not released is held in exactly one place; a refused attach or destroy changes nothing; after destruction every attached resident was released exactly once |
| DestroyRetry.MoveKeepsRing | crates/polyplug/src/runtime.rs:1188-1468 | no call, declaration, instance, unload or cascade breaks a cycle through residents of two owners |
| DestroyRetry.DestroyIsRetryable | crates/polyplug/src/ffi.rs:133-169 | in every reachable state a destroy is refused, without effect, exactly while a resident belongs to another thread; some continuation of calls, instance destroys, unloads and cascades leads to one that succeeds if and only if no dependency cycle passes through residents of two owners; success leaves every resident ever attached released once |
| MutualPlugins.MutualPluginsPinRuntime | crates/polyplug/src/runtime_store.rs:854-899 | concretely, two threads register plugins that depend on each other, each with a resident; from then on no thread can ever destroy the runtime |
| TransactionRuns.AllOrNothing | crates/polyplug/src/runtime.rs:556-638 | in every run a call that hands out handles publishes exactly the staged providers, one handle each in order; a stage call changes what is published exactly when the bundle on top of its stack has no transaction there; an accepted unload removes its bundle; nothing else changes what is published |
| TransactionRuns.StacksStep | crates/polyplug/src/runtime.rs:434-514 | from exact stacks, a call keeps them exact if and only if what it pops is what it closes: the innermost transaction, or nothing at all |
| TransactionRuns.StacksExactUntil | crates/polyplug/src/runtime.rs:434-514 | in every run the stacks list the open transactions up to the first call that pops wrong, and that call breaks them |
| TransactionRuns.NestedStagesStay | crates/polyplug/src/runtime.rs:2214-2276 | with exact stacks no stage call publishes |
| TransactionRuns.UnnestedCommitPublishesEarly | crates/polyplug/src/runtime.rs:434-451 | concretely, committing the outer of two transactions first makes the next provider public at once under the outer bundle |
| TransactionRuns.EndRestoresStack | crates/polyplug/src/runtime.rs:434-514 | however a transaction ends, whatever nested in it and whatever other threads do, the init stack and the open ids are what they were before the begin, as long as the thread's own calls pop right |
| TransactionRuns.DroppedMarker | crates/polyplug/src/runtime.rs:509-514 | a close that publishes nothing leaves the markers right exactly when the bundle is unpublished and open nowhere else |
| TransactionRuns.MarksStep | crates/polyplug/src/runtime.rs:413-514 | from right markers, a call keeps them right if and only if, as the state before it tells, it publishes its transaction, or drops no marker that a published bundle or another transaction needs, and it unloads no bundle with an open transaction |
| ResidentRuns.PublishReplies | crates/polyplug/src/runtime.rs:586-638 | a commit publishes exactly if validation accepted it, the bundle is not loaded, and its providers clash neither with each other nor with a published name |
| ResidentRuns.PublishedFields | crates/polyplug/src/runtime.rs:586-638 | each handle of a commit names a live slot of the bundle with contract, name, version, descriptor and interface as staged, and resolves to that interface |
| TransactionRuns.MarksExactUntil | crates/polyplug/src/runtime.rs:413-514 | in every run the markers are the open plus the published internal bundles up to the first unsafe call, and that call breaks them |
| TransactionDiscipline.OrderlyRunsKeepBooks | crates/polyplug/src/runtime.rs:413-514 | for callers that nest and do not overlap ids, stacks equal open transactions, markers equal open plus published internal bundles, and no open bundle is published |
| TransactionDiscipline.AbortDoesNothing | crates/polyplug/src/runtime.rs:509-514 | an abort changes nothing exactly when its thread has no transaction of that bundle |
| TransactionDiscipline.AbortAfterCommit | crates/polyplug/src/runtime.rs:509-514 | in an orderly run aborting a published bundle, on any thread, does nothing |
| TransactionDiscipline.CommitWithoutBegin | crates/polyplug/src/runtime.rs:434-451 | a commit with no transaction is refused, and keeps the stacks right only if the stack was empty, the markers only if the bundle was unmarked |
| TransactionDiscipline.SecondCommitLosesMarker | crates/polyplug/src/runtime.rs:434-451 | concretely, a second commit leaves a published internal bundle without its marker |
| TransactionDiscipline.OverlapLosesMarker | crates/polyplug/src/runtime.rs:413-451 | concretely, of two overlapping transactions the refused one drops the published one's marker |
| TransactionSections.SectionKeepsSound | crates/polyplug/src/runtime.rs:413-638 | every lock section of begin, stage, attach, commit, abort, load and unload, between the sections of other threads, keeps the registry consistent and residents conserved |
| TransactionSections.SectionsPublishWhole | crates/polyplug/src/runtime.rs:586-638 | in every interleaving of sections, what is published changes only in a publishing section, by the whole list, in a locked invalidation, or by a direct registration |
| TransactionSections.CommitPublishesWhatItTook | crates/polyplug/src/runtime.rs:586-638 | whatever other threads do between the take and the publish of a commit, it publishes the transaction as it was taken, or nothing |
| TransactionSections.SectionsReleaseOnce | crates/polyplug/src/runtime_store.rs:78-108 | in every interleaving of sections, also one that ends in an abort, a resident is released at most once, and until then is in one place: staged, live, or in the hand of one thread |
| TransactionSections.GuardedStep | crates/polyplug/src/runtime.rs:1251-1319 | the owner assertions stay certain exactly as long as no publish overtakes an unload between its owner check and its invalidation |
| TransactionSections.AssertionsHold | crates/polyplug/src/runtime_store.rs:86-108 | in every run in which no publish overtakes an unload, no owner assertion fails |
| TransactionSections.OvertakenRunGoesOn | crates/polyplug/src/runtime.rs:1227-1319 | every run in which one does can go on to a failing owner assertion, with nothing released by it |
| TransactionSections.OvertakenUnload | crates/polyplug/src/runtime.rs:1227-1319 | concretely, one thread unloads and re-registers a bundle that another has checked; the other takes its resident out and aborts |
| WholeCalls.BeginIsItsSections | crates/polyplug/src/runtime.rs:413-432 | uninterrupted, the sections of a begin are the call |
| WholeCalls.CommitIsItsSections | crates/polyplug/src/runtime.rs:434-451 | the same for a commit, whether it finds a transaction and whether it publishes |
| WholeCalls.AbortIsItsSections | crates/polyplug/src/runtime.rs:509-514 | the same for an abort |
| WholeCalls.UnloadIsItsSections | crates/polyplug/src/runtime.rs:1251-1319 | the same for an unload |
| InitStack.InitStacks.Push | crates/polyplug/src/runtime.rs:1011-1024 | one more entry on the thread's stack; counter equals all entries, no empty stack |
| InitStack.InitStacks.Pop | crates/polyplug/src/runtime.rs:1029-1046 | an unmatched pop is a no-op; counter equals all entries, no empty stack |
| InitStack.InitStacks.Current | crates/polyplug/src/runtime.rs:1052-1071 | the counter fast path answers the top of the thread's own stack, or 0 |
| InitStack.NestedInitRestores | crates/polyplug/src/runtime.rs:1011-1046 | a push and its pop restore every stack, so the outer id is current again |
| InitStack.CounterIsExact | crates/polyplug/src/runtime.rs:1011-1046 | in every interleaving, whenever the lock is free the counter equals all entries and no empty stack is stored |
| InitStack.CurrentIsOwnTop | crates/polyplug/src/runtime.rs:1052-1071 | in every interleaving, with other threads halfway through a push or pop, both paths answer the top of the caller's stack |
| InitStack.CurrentIsTopAtCall | crates/polyplug/src/runtime.rs:1052-1071 | a call that waits for the lock answers the top its stack had when it began |
| InitStack.CallsReturn | crates/polyplug/src/runtime.rs:1052-1071 | a call that answers is over, one that does not waits, and neither changes stacks or counter |
| InitStack.WaitingCallAnswers | crates/polyplug/src/runtime.rs:1052-1071 | a call that waits for the lock is never stuck: some continuation answers it with the top its stack has now |
| Singleton.StepKeepsInv | crates/polyplug/src/runtime.rs:2664-2705 | look, write-locked look and creation keep at most one instance per contract, cached exactly if created |
| Singleton.CreatedAtMostOnce | crates/polyplug/src/runtime.rs:2664-2705 | in every interleaving at most one non-null instance per contract is created, and null is never cached |
| Singleton.ResultsAgree | crates/polyplug/src/runtime.rs:2664-2705 | all non-null results for a contract are the same instance |
| Singleton.CallsGetTheInstance | crates/polyplug/src/runtime.rs:2664-2705 | a call returns the instance if there is one when it returns, and null only from a creation of its own that answered null |
| Singleton.LookFindsTheInstance | crates/polyplug/src/runtime.rs:2664-2676 | a call that starts when the instance is there returns it at once |
| Singleton.CachedStays | crates/polyplug/src/runtime.rs:2664-2676 | once cached an instance stays for the rest of the run |
| Singleton.FailureLeavesRetry | crates/polyplug/src/runtime.rs:2684-2705 | from every reachable quiet state without an instance, a later call whose creation succeeds returns it, and the next caller gets the same |
| Singleton.RetryAfterNull | crates/polyplug/src/runtime.rs:2684-2705 | right after a creation returned null, the very caller can call again and get an instance |
| ProviderSet.NumberRoundTrip | crates/polyplug/src/runtime.rs:1684-1689 | a written number reads back as itself |
| ProviderSet.WrittenVersionMeans | crates/polyplug/src/runtime.rs:1684-1689 | a provider that writes a bare number agrees with every version of that major, two numbers with that version at patch 0, three numbers with that version alone |
| ProviderSet.WrittenSpecMeans | crates/polyplug/src/runtime.rs:1665-1713 | a spec as written, `name`, `name@1`, `name@1.2` or `name@1.2.3`, covers exactly the providers of that name with any version, that major, that version at patch 0, that version |
| ProviderSet.OwnVersionMeans | crates/polyplug/src/runtime.rs:1676-1698 | a version in a provider's own name agrees with its descriptor exactly as it is written |
| ProviderSet.SoleProvider | crates/polyplug/src/runtime.rs:1661-1741 | one declared major and one staged provider are accepted exactly if name and major are the same |
| ProviderSet.ValidateWritten | crates/polyplug/src/runtime.rs:1661-1741 | concretely, `a@1` accepts `a` at any 1.x.y and rejects it at 2.0.0 |
| ProviderSet.FourNeverAgree | crates/polyplug_abi/src/types/version.rs:63-90 | four numbers agree with no version |
| ProviderSet.NeverAgrees | crates/polyplug/src/runtime.rs:1684-1689 | an empty version and a number of more than 32 bits agree with no version |
| ProviderSet.PlusIsAccepted | crates/polyplug/src/runtime.rs:1684-1689 | a number may be written with a plus sign |
| ProviderSet.FindSpec | crates/polyplug/src/runtime.rs:1700-1713 | the first spec that covers the provider, or none covers it |
| ProviderSet.Validate | crates/polyplug/src/runtime.rs:1661-1741 | accepted exactly when every provider's own version agrees, every provider is declared, and every spec is the first match of some provider |
| ProviderSet.OverlapIsShared | crates/polyplug/src/runtime.rs:1700-1713 | overlap decided on two specs alone is exactly that some provider satisfies both |
| ProviderSet.DisjointMeansMutual | crates/polyplug/src/runtime.rs:1661-1741 | for disjoint specs acceptance is own agreement and mutual coverage |
| ProviderSet.OverlapRejects | crates/polyplug/src/runtime.rs:1714-1741 | for any satisfiable specs two of which overlap, a staged set that mutually covers them is rejected |
| ProviderSet.MutualCoverageExactly | crates/polyplug/src/runtime.rs:1661-1741 | acceptance is mutual coverage for all staged sets exactly when the specs are disjoint or one can never be met |
| ProviderSet.OrderIsIrrelevant | crates/polyplug/src/runtime.rs:1676-1741 | the verdict depends on the set of staged providers only |
| FileWriter.Writer.AtomicWrite | crates/polyplug_codegen/src/generate.rs:519-565 | the file is replaced whole or untouched; the temporary is gone unless its removal failed; other paths are untouched exactly if nothing sat at the temporary name |
| FileWriter.Writer.Collect | crates/polyplug_codegen/src/generate.rs:284-307 | accepts exactly safe paths without repeated targets, and yields the emitted files in order |
| FileWriter.Writer.PreflightTargets | crates/polyplug_codegen/src/generate.rs:480-517 | true exactly when no target is a directory, lies below a file, or lies below another target |
| FileWriter.Writer.WriteOne | crates/polyplug_codegen/src/generate.rs:319-327 | one target written through its directories and temporary, or everything as before but for created directories and the temporary |
| FileWriter.Writer.WriteOutput | crates/polyplug_codegen/src/generate.rs:279-331 | rejected exactly for an unacceptable set, with nothing changed; a summary has every emitted file, formatted, at its root and path, and its counts right; any failure leaves each target wholly old or new; without faults it succeeds |
| OutputWriter.AcceptableMeans | crates/polyplug_codegen/src/generate.rs:480-517 | what a set needs: resolved references, no parent, root or drive component, no target that is a directory or below a file, no target twice or below another |
| OutputWriter.TargetsAreEmitted | crates/polyplug_codegen/src/generate.rs:284-307 | the targets are what the files emit: root and named components as path, formatted content, flags as given |
| OutputWriter.NamesOfSnoc | crates/polyplug_codegen/src/generate.rs:605-620 | a named component adds its name to the path, a dot nothing |
| OutputWriter.TempExample | crates/polyplug_codegen/src/generate.rs:519-527 | concretely, the first temporary that process 42 uses for `src/lib.rs` is `src/.lib.rs.42.0.tmp` |
| FileWriter.RerunWritesForced | crates/polyplug_codegen/src/generate.rs:312-317 | once every target holds its content, the files to write are the forced and the unreadable ones |
| FileWriter.Writer.WriteTwice | crates/polyplug_codegen/src/generate.rs:279-331 | after a summary, and with temporary names that meet no target and no file, an immediate second run of the same set is not rejected, and without faults writes exactly the forced and unreadable files and leaves every target in place |
| TempCollisions.PlanTells | crates/polyplug_codegen/src/generate.rs:519-565 | which writes go through an earlier target's path can be read off the start: target by target, what needs writing there or was overwritten before |
| TempCollisions.DeliversExactly | crates/polyplug_codegen/src/generate.rs:519-565 | a completed run leaves every target with its content exactly when the plan sends no write through an earlier target's path |
| TempCollisions.CollisionLosesFile | crates/polyplug_codegen/src/generate.rs:522-527 | concretely, two acceptable files of which the first is lost |
| TempCollisions.ForeignFileIsLost | crates/polyplug_codegen/src/generate.rs:519-565 | concretely, a foreign file at a temporary name is gone after a completed run |
| InternalPaths.PrefixInternalOutput | crates/polyplug_codegen/src/generate.rs:222-237 | every path is prefixed in place |
| InternalPaths.RejectDuplicates | crates/polyplug_codegen/src/generate.rs:239-249 | accepted exactly when all paths differ, as component lists in which a dot is kept only in front |
| InternalPaths.DirIsOneComponent | crates/polyplug_codegen/src/generate.rs:223-233 | whatever the bundle is called, its directory is a single path component and not a dot name |
| InternalPaths.HexInjective | crates/polyplug_codegen/src/generate.rs:233-233 | fixed-width hex determines every number that fits |
| InternalPaths.HexWrites | crates/polyplug_codegen/src/generate.rs:233-233 | the digits are lower-case hex and write the number |
| InternalPaths.PlainMeans | crates/polyplug_codegen/src/generate.rs:223-232 | the characters kept in a directory name, by code point |
| InternalPaths.ReadableMeans | crates/polyplug_codegen/src/generate.rs:223-232 | those are kept, every other character becomes an underscore |
| InternalPaths.CanonicalExamples | crates/polyplug_codegen/src/generate.rs:222-237 | which component lists a path can have, for instance |
| InternalPaths.PrefixedExample | crates/polyplug_codegen/src/generate.rs:222-237 | concretely, `lib.rs` of bundle `a b` with id 255 goes to `internal/a_b-00000000000000ff/lib.rs` |
| InternalPaths.DirsDiffer | crates/polyplug_codegen/src/generate.rs:222-237 | different 64-bit ids give different directories, whatever the names |
| InternalPaths.OutputsDisjoint | crates/polyplug_codegen/src/generate.rs:222-237 | outputs of different bundles are disjoint exactly when they share no absolute path |
| InternalPaths.TargetsDisjoint | crates/polyplug_codegen/src/generate.rs:605-620 | accepted files of different internal bundles never have the same target below one root |
| InternalPaths.AbsolutePathIsShared | crates/polyplug_codegen/src/generate.rs:222-237 | concretely, an absolute path of two bundles is unchanged by both prefixes |
| InternalPaths.PrefixedSame | crates/polyplug_codegen/src/generate.rs:222-237 | two paths of one bundle meet below its directory exactly when they differ at most in a leading dot |
| InternalPaths.PrefixKeepsDistinct | crates/polyplug_codegen/src/generate.rs:222-249 | prefixing leaves the paths of one bundle distinct exactly when they differ in more than a leading dot |
| InternalPaths.DotMakesDuplicate | crates/polyplug_codegen/src/generate.rs:222-249 | concretely, `./a` and `a` are acceptable and distinct, and one path once prefixed |

## Left out

Assumptions about callers and the environment:

- Epoch protocol: steps are sequentially consistent, and each publication uses a slot that was never published before.
- Reload runs: a bundle is not loaded or unloaded, and registers nothing of its own accord, between its own snapshot and its swap; OvertakenReloads says what an unload there does. A failed reload of a bundle that was never loaded leaves an empty bundle entry behind, as the code does, and a later load of that id is then refused.
- Reload cascade: a manifest on disk keeps its bundle name, names order as their ranks, nothing else loads or unloads meanwhile, and callbacks start no reload. What an attempt meets on disk is a given function of the bundle and the attempt's number. A failing swap is taken to change no registration: on a consistent registry the only failure left is a missing bundle.
- Destroy: continuations hold no reload, which could replace the dependencies of a loader-backed bundle in a cycle, and every live instance can be destroyed.
- Unload cascade: no other thread changes the registry during the call, and callbacks and loader hooks do not re-enter the runtime.
- Transactions: a transaction begins and ends on one thread. Calls take effect one after the other in ResidentRuns, TransactionRuns and TransactionDiscipline, in any order and overlap; only TransactionDiscipline assumes orderly callers. TransactionSections interleaves lock sections instead; there a load is one section, stacks and markers are not followed, and destruction, which needs sole ownership of the runtime, does not occur.
- Instance counts: an interface is an identity issued once, an internal id is never reloaded, and a stateful instance is destroyed once. A destroy call with a null instance runs guest code that no count protects; it is not modelled.
- Singletons: a creation callback does not ask for a singleton itself (the write lock is held across it).
- File system: paths are given with symbolic links resolved and case folded, formatting is a function of path and content, and the file system is a tree.

Stated weaker than one might wish:

- FileWriter.Writer.WriteOutput: what it says about completed and failed writes assumes that no temporary name the call may use is a target or a directory towards one; TempCollisions says what happens to the targets otherwise.
- PluginRuntime.Runtime.UnloadRegistered: whether live instances or dependents refuse the unload is an input flag; DestroyRetry computes it from declared dependencies and live counts, and InstanceCounts.UnloadRefusedWhileUsed and CascadeUnload.Runtime.UnloadBundle decide it on their own.
- PluginRuntime.Runtime.CommitTransaction: the verdict of provider-set, function-count and version validation is a parameter; provider-set validation itself is ProviderSet.Validate.

Not modelled:

- Raw pointers, layouts, the `HostApi` table and string views; interfaces are opaque identities.
- Generated-root ownership in `register_generated_internal_plugin`, beyond the backing tokens of InstanceCounts.
- Bundle descriptors, name index, capability graph, call arenas, error texts and logging.
- Manifest parsing, signature verification, key pinning, dynamic loading and the language loaders.
- Internals of crossbeam-epoch and weak memory orderings.
- `normalized_target_identity`: symbolic links, case folding and the errors of canonicalisation.
- Multi-instance host contracts, benchmarks, build scripts and language shims.
