# Fleet-management operator: a verified model

The operator serves pipeline configurations to collectors. Three reconcilers (for PipelineConfigs,
CollectorGroups and CollectorGroupBindings), a remote-config service with a tenant registry, and
human users all act on one shared object store. The model treats this as what it is, a small
distributed protocol, and proves what holds in every run of it.

## How it is modelled

- **Store** (`Histories.dfy`). Every object name has the history of all versions ever stored under
  it, `None` while it is absent. A read names a lag and returns the version that many steps behind
  (the informer cache). `Update` and `Status().Update` commit only if the version they were computed
  from is still the last one; a write that changes nothing makes no new version. Storing a deleted
  object without its finalizer removes it. Any write may be rejected, or stored with its reply lost.
- **Protocol** (`Protocol.dfy`). A run is a sequence of events; an event carries every choice of the
  environment (lags, faults, the clock). One attempt per binding may be in flight. An attempt starts
  from a read version, makes its planned counter writes one event at a time, and ends with its final
  write, an abort or a crash, with anything at all happening in between. `dirty` counts attempts that
  ended without being *clean*. An attempt is clean if its final write committed and every counter write
  it owes has committed or is owed to a resource that is gone, or if it committed no counter write and
  its final write did not go through. A decrement skipped because of a stale "not found" of a stored
  resource is therefore not clean. A write to an object that is gone is answered with NotFound.
- **Merge patches** (`Protocol.dfy`, module `MergePatch`). `client.MergeFrom(base)` sends only the
  fields that differ from its base, replaces lists whole and has no version precondition (section 2 of
  RFC 7396).
- **Source form** (`Tenants.dfy`, `Controllers.dfy`, `Service.dfy`, `Fanout.dfy`). The reconcilers,
  the registry and the service as classes whose methods edit objects field by field and write them
  back, with the eviction loop on an array. Each is proved to do what the state machine does; one
  binding reconcile is exactly one uninterrupted attempt.
- **Outcomes** (`Outcomes.dfy`, and the attempt results in `Confluence.dfy`). What a single reconcile,
  write or failure brings about, said field by field of the stored objects and over the plain lists.
- **The hash** is an arbitrary function parameter. Only `Coherence.dfy` and `HashMatchesIff` need it to be injective;
  `HashPersists`, `UnsettledAnswerSticks` and `EmptiedContentKeepsOldHash` need it to be non-empty.

PipelineConfigs and CollectorGroups share one `Resource` type, told apart by the kind in their key,
because their counting and deletion logic is the same code twice.

## Premises

- No finalizers but the operator's own, and nobody strips those by hand; users do not write status.
- `Harmless` (delete safety): no decrement is committed for a binding whose stored version is not bound
  to the resource (a stray release), and nothing that is claimed is deleted before it has its finalizer
  (such a deletion removes it at once). The premise is exact: `SafeIffHarmless` shows that, in every run
  whose ended attempts are clean, counters are the number of claims and claimed resources exist at every
  moment if and only if every step is harmless. That finished attempts are clean is *not* enough by
  itself: in `StaleAttemptBreaksDeleteSafety` a second attempt for a deleted binding, working from a cached
  version, has released the claim of another binding, and the bound PipelineConfig is removed; in
  `UnprotectedDeleteDangles` a bound PipelineConfig is deleted before its finalizer. Increments, and
  decrements of what is still bound, may be as stale as they like. Runs all of whose attempts end clean
  make no stray release (`CleanRunsWriteFresh`, `FreshIsOwn`), so that for them only the deletions matter
  (`CleanRunsSafeIff`).
- `WithinDrift` (`BoundedDrift` only): no resource is created under a name to which more is still owed
  than attempts have ended unclean. `BoundedIffCreationsWithin` shows that this is exactly when drift is
  bounded at every moment; `RecreationDrifts` is a run that breaks it. Runs that reuse no name meet it by
  themselves (`NewNamesUnclaimed`). `ExactDrift` has no premise.
- `Honest` (cache coherence): every answer carries the hash of its own content. `CacheCoherence` shows that
  this is exactly when collectors always hold what was resolved for them. Settled answers are honest
  (`SettledAnswer`), and so are those of a PipelineConfig that was settled when its deletion began
  (`DeletedStillMatches`).
- `OnTime` (timely eviction only): each requeue is followed by a later reconcile within the delay asked
  for, and reconciles do not see the clock go back. The TTL is 0 or at least 2 time units: `RequeueFires` states exactly when the
  requeue delay TTL/2 is a requeue at all.

Where comments and code differ, the model follows the code: `derivePhase` can return Pending, but no
stored phase is ever Pending; and `activeBindings`, documented as the number of bindings referencing
a resource, is that number only up to `BoundedDrift`.

## Model

| member | source | states |
|---|---|---|
| `Api.PhaseMeaning` | internal/controller/collectorgroupbinding_controller.go:267-276 | Active exactly if the first RefsValid condition of the list is True, Degraded exactly if it is not, Pending exactly if there is none |
| `Invariants.PlanIsDue` | internal/controller/collectorgroupbinding_controller.go:231-264 | the counter writes of an attempt are exactly the differences between the references bound before and after it, and each counter is moved at most once |
| `Invariants.PlanOrder` | internal/controller/collectorgroupbinding_controller.go:241-262 | claims are taken back before new ones are made, and in both the PipelineConfig comes first |
| `Outcomes.ReconcileHashes` | internal/controller/pipelineconfig_controller.go:95-116 | a fresh healthy reconcile of a PipelineConfig with content, whatever its status said, stores the hash of that content and settles it, and changes nothing else |
| `Outcomes.ReconcileFlagsEmpty` | internal/controller/pipelineconfig_controller.go:84-94 | one without content is flagged ContentValid=False and observed, and keeps the hash it had |
| `Outcomes.ReconcileObserves` | internal/controller/collectorgroup_controller.go:67-74 | a CollectorGroup ends up observed and otherwise as it was |
| `Outcomes.ReconcileFinalizes` | internal/controller/collectorgroup_controller.go:61-65 | a new resource of either kind gets its finalizer, so that a deletion after that only marks it |
| `Outcomes.TwoReconcilesSettle` | internal/controller/pipelineconfig_controller.go:77-116 | two fresh healthy reconciles bring any resource that is not being deleted up to date and protect it |
| `Outcomes.GateDecides` | internal/controller/collectorgroup_controller.go:51-59 | a resource that is being deleted stays as it is while bindings are active, and is gone after a reconcile otherwise |
| `Outcomes.StaleReconcileKeeps` | internal/controller/pipelineconfig_controller.go:113-116 | a reconcile that has read an outdated version, or is refused, changes nothing |
| `Outcomes.ChoiceIsExact` | internal/controller/collectorgroupbinding_controller.go:76-96 | which final write an attempt heads for, and with which hash or reason, whatever its lookups return |
| `Outcomes.FinalMeans` | internal/controller/collectorgroupbinding_controller.go:112-121 | what each final write stores, field by field, with phase and conditions said of the list |
| `Outcomes.RefusedWrite` | internal/controller/collectorgroupbinding_controller.go:241-262 | a refused or conflicting counter write changes nothing; the attempt goes on exactly if it takes back a claim on the way to new ones |
| `Outcomes.MissingWrite` | internal/controller/collectorgroupbinding_controller.go:151-165 | a resource that is not found changes nothing; the attempt goes on exactly if it takes back a claim |
| `Outcomes.StoredWrite` | internal/controller/collectorgroupbinding_controller.go:294-336 | any other counter write moves its counter by one and no other; when its reply is lost the attempt goes on only as after a refusal |
| `Outcomes.CreateStores` | api/v1alpha1/collectorgroupbinding_types.go:11 | a binding is admitted exactly if it names a group or a tenant and not both |
| `Invariants.WellFormedStep` | internal/controller/collectorgroupbinding_controller.go:66-126 | every step keeps: resources are stored under keys of their kind, only finalized bindings are bound, attempts in flight agree with the version they read, and have counted nothing but what their plan says |
| `Ledger.OnlyMovesCount` | internal/controller/pipelineconfig_controller.go:100-116 | no step but a counter write changes a counter; the whole-status writes of the reconcilers never disturb it |
| `Ledger.BoundOnlyByFinish` | internal/controller/collectorgroupbinding_controller.go:112-121 | a binding becomes bound to a resource only by the final write of an attempt that has counted itself there |
| `Ledger.DriftOfFinish` | internal/controller/collectorgroupbinding_controller.go:147-169 | the exact drift of a counter when an attempt finishes: what it committed minus, if its final write commits, what it owed |
| `Ledger.DriftOfMove` | internal/controller/collectorgroupbinding_controller.go:231-264 | a counter step adds no drift while the attempt goes on; one that ends it leaves all that the attempt has committed, this write included |
| `Ledger.DriftOfCrash` | internal/controller/collectorgroupbinding_controller.go:66-126 | a crash leaves exactly what the attempt has committed |
| `Ledger.SwallowedReleaseDrifts` | internal/controller/collectorgroupbinding_controller.go:241-250 | a release that failed and was passed over leaves the counter one too high, exactly, once the final write commits |
| `Ledger.GapStep` | internal/controller/collectorgroupbinding_controller.go:294-336 | every step moves a counter's gap by exactly its drift, which is zero unless the step ends an attempt uncleanly, and then at most one |
| `Ledger.UncleanIffDrifts` | internal/controller/collectorgroupbinding_controller.go:66-126 | an attempt's end counts as unclean exactly if it leaves a drift: anywhere without its final write, on a stored resource with it |
| `Ledger.CreationGap` | api/v1alpha1/pipelineconfig_types.go:24-30 | a created resource is off by what is owed to its name at that moment |
| `Ledger.ExactDrift` | internal/controller/collectorgroupbinding_controller.go:231-264 | after any run at all, the gap of a counter is what its name was owed when it was created and the sum of the drifts that attempts ended since then have left |
| `Ledger.BoundedIffCreationsWithin` | internal/controller/collectorgroupbinding_controller.go:231-264 | over all runs with any stale reads, rejected writes, lost replies and crashes: every counter is off by at most the number of unclean attempts at every moment if and only if no name is created while more is owed to it |
| `Ledger.BoundedDrift` | internal/controller/collectorgroupbinding_controller.go:231-264 | under that condition, activeBindings differs from bound bindings plus committed increments minus committed decrements by at most the number of unclean attempts |
| `Ledger.ExactIffCreationsUnclaimed` | internal/controller/collectorgroupbinding_controller.go:231-264 | without unclean ends, counters are exact at every moment, even while stale attempts are in flight, if and only if no name is created while anything is owed to it |
| `Ledger.NewNamesUnclaimed` | internal/controller/collectorgroupbinding_controller.go:231-264 | runs that reuse no resource name meet both conditions |
| `DeleteSafety.LedgerCountsClaims` | internal/controller/collectorgroupbinding_controller.go:231-264 | the ledger value of a resource never exceeds the number of claims on it, equals it exactly when all that attempts in flight have released is bound, and that number is 0 exactly when no binding has a claim |
| `DeleteSafety.GateIsShut` | internal/controller/pipelineconfig_controller.go:67-75 | a stored resource disappears only through its reconciler's deletion gate while its stored counter is not positive, however stale the counter the gate has read, or by a deletion before it has its finalizer |
| `DeleteSafety.ExactRun` | internal/controller/collectorgroupbinding_controller.go:66-126 | in every run with clean ended attempts and harmless steps, counters equal the ledger and everything a binding has a claim on exists, whatever else is stale and also when names are deleted and created again |
| `DeleteSafety.SafeIffHarmless` | internal/controller/collectorgroupbinding_controller.go:231-264 | the condition is exact: in every run with clean ended attempts, every counter is the number of claims and every claimed resource exists at every moment if and only if no step is a stray release or removes a claimed resource at once |
| `DeleteSafety.RemovalExposes` | internal/controller/pipelineconfig_controller.go:77-81 | deleting a claimed resource before it has its finalizer leaves a claim on nothing |
| `DeleteSafety.StrayReleaseUndercounts` | internal/controller/collectorgroupbinding_controller.go:294-315 | in any state, a decrement for a binding that is not bound there leaves the claims as they are and the counter one below |
| `DeleteSafety.StrayReleaseRemovesHeld` | internal/controller/pipelineconfig_controller.go:67-75 | if that was the last count, a protected deletion and one reconcile remove a resource that a binding has a claim on |
| `DeleteSafety.FreshIsOwn` | internal/controller/collectorgroupbinding_controller.go:66-126 | an attempt whose binding version is still the stored one makes no stray release |
| `DeleteSafety.DoomedStep` | internal/controller/collectorgroupbinding_controller.go:119-121 | an attempt that has counted while its binding has moved on stays in that position until it ends unclean |
| `DeleteSafety.CleanRunsWriteFresh` | internal/controller/collectorgroupbinding_controller.go:98-121 | a run whose attempts all end clean has made only fresh counter writes |
| `DeleteSafety.CleanRunsSafeIff` | internal/controller/collectorgroup_controller.go:51-59 | a run whose attempts all end clean is safe at every moment if and only if it deletes nothing claimed before its finalizer |
| `DeleteSafety.CleanRunsAreSafe` | internal/controller/collectorgroup_controller.go:51-59 | in such a run, at every moment each counter is exact and each bound PipelineConfig and CollectorGroup exists unless the binding's own attempt in flight has released it |
| `Versions.ReconcileGood` | internal/controller/pipelineconfig_controller.go:66-116 | whatever a PipelineConfig reconcile writes keeps the settled-hash property and never drops a hash |
| `Versions.SettledHash` | internal/controller/pipelineconfig_controller.go:84-116 | in every version ever stored, ContentValid true and observedGeneration equal to generation imply contentHash is the hash of that version's content |
| `Versions.HashPersists` | internal/controller/pipelineconfig_controller.go:84-116 | once non-empty, contentHash stays non-empty for as long as the object exists |
| `Versions.HashOrigin` | internal/controller/pipelineconfig_controller.go:84-94 | in every version ever stored, a hash is that of a non-empty content the same object has had in this or an earlier version |
| `Versions.HashMatchesIff` | internal/controller/pipelineconfig_controller.go:84-94 | a stored hash is that of the content stored with it if and only if that content is the one it was hashed from |
| `Versions.MatchPersists` | internal/controller/pipelineconfig_controller.go:84-116 | a hash that matches goes on matching until the content is edited, whatever else happens to the object |
| `Versions.DeletedStillMatches` | internal/controller/pipelineconfig_controller.go:66-76 | an object under deletion is never settled again, but one that was settled keeps the right hash until its content is edited |
| `Versions.FinalGood` | internal/controller/collectorgroupbinding_controller.go:199-227 | each final write of an attempt turns a consistent binding status into a consistent one |
| `Versions.BindingStatusConsistent` | internal/controller/collectorgroupbinding_controller.go:112-121 | in every version ever stored, tenant IDs are unique, the phase is unset, Active exactly if the first RefsValid condition is True, or Degraded exactly if it is not, an up-to-date Active binding is bound to exactly what its spec names, and the spec names a group or a tenant and not both |
| `Confluence.CleanRunsQuiesce` | internal/controller/collectorgroupbinding_controller.go:66-126 | runs whose attempts all end clean lead to quiescent states with exact counters |
| `Confluence.AttemptReconciles` | internal/controller/collectorgroupbinding_controller.go:93-121 | from any quiescent state, an undisturbed attempt leaves a resolvable live binding bound to its spec, Active with RefsValid True, with the PipelineConfig's hash, the time and the generation, and its stale tenants evicted; an unresolvable one Degraded with RefsValid False and the reason, and bound as it was; every counter keeps its gap, and nothing else changes |
| `Confluence.AttemptFinalizes` | internal/controller/collectorgroupbinding_controller.go:86-90 | on a new binding it adds the finalizer and does nothing else |
| `Confluence.AttemptReleases` | internal/controller/collectorgroupbinding_controller.go:147-169 | on a binding that is being deleted it removes the binding and takes it out of the counters of what it was bound to |
| `Confluence.BatchCounts` | internal/controller/collectorgroupbinding_controller.go:93-121 | from any quiescent state, after reconciling any live bindings in any order, each counter is its old gap plus the number of bindings that end up there, unresolvable ones counted at their old references |
| `Confluence.ExactBatchCounts` | internal/controller/collectorgroupbinding_controller.go:93-121 | where there was no drift, each counter is that number |
| `Confluence.OrderDoesNotMatter` | internal/controller/collectorgroupbinding_controller.go:93-121 | two batches over the same bindings, in any order and with any repetitions, leave the same counters |
| `Tenants.EvictInPlace` | internal/controller/collectorgroupbinding_controller.go:130-144 | the loop that appends into the slice it ranges over leaves exactly the entries newer than the cutoff, in order, returns the number removed, and with TTL 0 leaves the list alone |
| `Tenants.NewerCounts` | internal/controller/collectorgroupbinding_controller.go:137-141 | eviction keeps every entry newer than the cutoff with its multiplicity and no other |
| `Tenants.NewerConcat` | internal/controller/collectorgroupbinding_controller.go:137-141 | eviction keeps the order of entries |
| `Tenants.UpsertKeepsUnique` | internal/adapter/kubernetes/collectorregistry.go:169-177 | upserting keeps tenant IDs unique, replaces the tenant's entry where it stands or appends one, and leaves the entries of other tenants where they are |
| `Tenants.IndexByCollector` | internal/adapter/kubernetes/collectorregistry.go:181-185 | the first entry with the collector ID, or -1 exactly when there is none |
| `Eviction.FinishEvictsStored` | internal/controller/collectorgroupbinding_controller.go:104-121 | a committed status write stores the eviction of the list that is stored at that very moment; any other final write leaves the list alone |
| `Eviction.EvictionSafety` | internal/controller/collectorgroupbinding_controller.go:104-121 | in any run, an entry that disappears from a surviving binding was patched away by the registry, or was at or before the cutoff of an attempt that committed on the version it had read |
| `Eviction.RefreshSurvives` | internal/controller/collectorgroupbinding_controller.go:119-121 | a refresh stored after an attempt's read is never undone by that attempt |
| `Eviction.RequeueFires` | internal/controller/collectorgroupbinding_controller.go:122-125 | a requeue is asked for exactly when entries remain and the TTL is at least 2, and its delay is half the TTL, rounded down |
| `Eviction.EvictedInTime` | internal/controller/collectorgroupbinding_controller.go:122-144 | in any unending run in which each requeue is followed by a later reconcile within the delay asked for, an entry last refreshed at s is gone after a reconcile strictly before s+TTL+floor(TTL/2); unless the registry or the removal of the binding takes it away first, that is the first reconcile at or after s+TTL, and all before it keep the entry |
| `RegistryWrites.PatchReproduces` | internal/adapter/kubernetes/collectorregistry.go:66-72 | a merge patch applied to its own base gives back the modified status |
| `RegistryWrites.PatchTouchesTenantsOnly` | internal/adapter/kubernetes/collectorregistry.go:66-72 | applied to any other status, the registry's patch replaces the tenant list and nothing else |
| `RegistryWrites.PatchNonInterference` | internal/adapter/kubernetes/collectorregistry.go:66-79 | a registry call at any point of a run, however stale, preserves counters, attempts, every other binding field and every GetConfig answer, even of a call whose reads it lands between |
| `RegistryWrites.RegistrationKeeps` | internal/adapter/kubernetes/collectorregistry.go:54-81 | exactly which entries a registration computed from an older version leaves, its own included: if that version held it already nothing is written, and it may be absent |
| `RegistryWrites.UnregistrationLeaves` | internal/adapter/kubernetes/collectorregistry.go:102-129 | exactly which list an unregistration computed from an older version leaves |
| `RegistryWrites.OverlapLosesEntry` | internal/adapter/kubernetes/collectorregistry.go:72 | two registrations computed from the same version lose the first one's entry |
| `RegistryWrites.RemoveOne` | internal/adapter/kubernetes/collectorregistry.go:110-116 | removal takes out exactly one entry of the collector and keeps all others in order |
| `RegistryWrites.UnregisterOnce` | internal/adapter/kubernetes/collectorregistry.go:88-134 | with fresh reads, one call removes one entry of the collector from one binding if any binding holds one, and is a no-op otherwise |
| `RegistryWrites.UnregisterDrains` | internal/adapter/kubernetes/collectorregistry.go:88-134 | after as many calls as there are entries none is left, and further calls change nothing |
| `Resolution.ListFindsFirst` | internal/controller/collectorgroupbinding_controller.go:363-387 | a list through a field index is empty exactly when nothing matches, and starts with the first match |
| `Resolution.FindBindingDecides` | internal/adapter/kubernetes/collectorregistry.go:138-166 | the registry finds the first tenant match, else the first group match, and nothing exactly when there is neither |
| `Resolution.RegistryAndResolverAgree` | internal/service/collector_service.go:97-123 | the PipelineConfig of the binding the registry finds decides the answer, even if it is missing or unready; none is found exactly when the default is consulted |
| `Resolution.AnyOrderAgrees` | internal/adapter/kubernetes/collectorregistry.go:138-166 | with unique matches the choice does not depend on the list order |
| `Resolution.GetFindsNamed` | internal/adapter/kubernetes/configresolver.go:75-83 | a Get returns the first config of that namespace and name, and nothing exactly if there is none |
| `Resolution.ResolutionIsFirstMatch` | internal/adapter/kubernetes/configresolver.go:41-97 | resolution refines a scan over everything listed: the config that the first matching binding names gives its own content and hash, and Internal if it is not listed; with no match the first default answers |
| `Resolution.ErrorCodes` | internal/service/collector_service.go:97-137 | NotFound, Unavailable and Internal each if and only if: nothing matches; the config named by the deciding binding, or the first default, has no hash; the config named by the deciding binding is not listed |
| `Resolution.NotModifiedMeansSameHash` | internal/service/collector_service.go:78-93 | NotModified exactly when the request holds the resolved hash, never for an empty one; otherwise the resolved content and hash are served, and an error is passed on with its code |
| `Resolution.StatusDoesNotMatter` | internal/adapter/kubernetes/configresolver.go:61-85 | answers depend on binding specs, never on binding status |
| `Coherence.SettledAnswer` | internal/adapter/kubernetes/configresolver.go:89-97 | an answer from a settled PipelineConfig, read at any past version, carries the hash of its content |
| `Coherence.AnswerOrigin` | internal/adapter/kubernetes/configresolver.go:89-97 | any answer, settled or not, carries the hash of a non-empty content its PipelineConfig has had by then, and the hash of its own content exactly if that is the same |
| `Coherence.CacheCoherence` | internal/service/collector_service.go:72-93 | across any run of edits, rebinds and polls: after every poll that finds a config the collector holds its content and the hash of that content, if and only if every answer carries the hash of its own content |
| `Coherence.SettledCoherence` | internal/service/collector_service.go:72-93 | hence, if every answer comes from a settled PipelineConfig, the collector always holds what was resolved for it |
| `Coherence.UnsettledAnswerSticks` | internal/controller/pipelineconfig_controller.go:84-94 | a poll between an edit and its reconcile can leave the collector with withdrawn content that later settled answers confirm |
| `Coherence.StuckCollector` | internal/controller/pipelineconfig_controller.go:84-94 | the same as a run from the empty store in which each poll sees what is stored |
| `Coherence.EmptiedContentKeepsOldHash` | internal/controller/pipelineconfig_controller.go:84-94 | once content has become empty and was reconciled, it is served under the old content's hash, and holders of the old content are told NotModified |
| `Fanout.EnqueueBindings` | internal/controller/collectorgroupbinding_controller.go:340-357 | the requests are exactly the bindings of the same namespace whose spec names the PipelineConfig |
| `Fanout.FanoutSettlesHashes` | internal/controller/collectorgroupbinding_controller.go:389-397 | once the enqueued live bindings have been reconciled, each resolvable one reports the PipelineConfig's contentHash |
| `Histories.OnlyOutcome` | internal/controller/pipelineconfig_controller.go:113-116 | compare-and-swap is the one write with these outcomes: the history keeps all versions and gains at most one, success means the written object is the latest, a stale or refused write leaves no trace, NotFound means the object is gone |
| `Controllers.ApiServer.UpdateResource` | internal/controller/pipelineconfig_controller.go:113-116 | a caller gets one of those outcomes, and no other object changes |
| `Controllers.PipelineConfigReconciler.Reconcile` | internal/controller/pipelineconfig_controller.go:52-120 | the field-by-field reconcile is one reconcile step of the state machine, asks for a requeue exactly while active bindings block deletion, and fails exactly if its one write is not accepted |
| `Controllers.CollectorGroupReconciler.Reconcile` | internal/controller/collectorgroup_controller.go:36-76 | the same for CollectorGroups |
| `Controllers.WriteErrorMeans` | internal/controller/collectorgroupbinding_controller.go:294-336 | what the counter helpers return: NotFound exactly if the resource is not seen or is gone by the time of the write, no error exactly for a healthy write on the stored version |
| `Controllers.CollectorGroupBindingReconciler.AddActiveBindings` | internal/controller/collectorgroupbinding_controller.go:294-336 | one read and one compare-and-swap of the counter, with the error the caller sees |
| `Controllers.CollectorGroupBindingReconciler.ManageCounters` | internal/controller/collectorgroupbinding_controller.go:231-264 | carries out the rebinding plan: errors while releasing are swallowed, errors while claiming abort |
| `Controllers.CollectorGroupBindingReconciler.HandleDeletion` | internal/controller/collectorgroupbinding_controller.go:147-169 | carries out the release plan, skipping what is gone, and strips the finalizer unless a release failed; fails exactly if a release or the final write does |
| `Controllers.CollectorGroupBindingReconciler.ValidateRefs` | internal/controller/collectorgroupbinding_controller.go:173-207 | resolves both references, or writes the RefsValid=False status with the right reason |
| `Controllers.CollectorGroupBindingReconciler.SetRefsInvalid` | internal/controller/collectorgroupbinding_controller.go:210-227 | stores the condition, phase and generation of an invalid binding if the version is current |
| `Controllers.CollectorGroupBindingReconciler.SyncStatus` | internal/controller/collectorgroupbinding_controller.go:103-125 | evicts, fills in the whole status, writes it back, fails exactly if that write is not accepted, and else requeues by the stored list |
| `Controllers.CollectorGroupBindingReconciler.Reconcile` | internal/controller/collectorgroupbinding_controller.go:66-126 | a whole reconcile leaves the store exactly as an uninterrupted run of its attempt in the state machine does, on every path; it fails exactly if a reference does not resolve, a counter write ends the attempt or the final write is not accepted, and asks for a requeue after every other sync that leaves entries |
| `Controllers.MovesCarryOutPlan` | internal/controller/collectorgroupbinding_controller.go:231-264 | the attempt's counter steps carry out the rest of its plan, write by write |
| `Service.RegisterResultMeans` | internal/adapter/kubernetes/collectorregistry.go:54-82 | what a Register call brings about: where it first meets no conflict, the upsert of the tenant is patched onto the binding found there if the reply is accepted or lost, with an error unless it is accepted and the binding is there; nothing if no binding is found; nothing but an error if it only meets conflicts |
| `Service.FreshRegisterStores` | internal/adapter/kubernetes/collectorregistry.go:66-79 | accepted on what is stored, the tenant's new entry is in the list as the only one of its ID, and all others are still there |
| `Service.ThreeConflictsFail` | internal/adapter/kubernetes/collectorregistry.go:54-82 | three conflicts in a row change nothing, and the call fails |
| `Service.CollectorRegistry.Register` | internal/adapter/kubernetes/collectorregistry.go:45-83 | refuses a collector without a tenant; otherwise the retry loop does exactly that |
| `Service.HolderIsFirst` | internal/adapter/kubernetes/collectorregistry.go:88-101 | the binding an Unregister call acts on is the first listed one of the namespace with an entry of the collector, and there is none exactly if no listed one has |
| `Service.UnregisterResultMeans` | internal/adapter/kubernetes/collectorregistry.go:102-129 | what the call brings about: where it first meets no conflict, the list read then without the collector's entry is patched, with an error unless the reply is accepted and the binding is there; nothing if the entry is gone; nothing but an error if it only meets conflicts |
| `Service.CollectorRegistry.Unregister` | internal/adapter/kubernetes/collectorregistry.go:88-134 | acts on the first listed binding that holds the collector and is a no-op if none does |
| `Service.CollectorRegistry.RemoveFrom` | internal/adapter/kubernetes/collectorregistry.go:102-129 | re-reads and patches until a reply that is not a conflict |
| `Service.CollectorService.GetConfig` | internal/service/collector_service.go:49-94 | the answer is that of the resolution chain, each read of which may see another moment of the cache, and does not depend on whether the refresh of the registration succeeds |
| `Service.RegisterIsOneStep` | internal/adapter/kubernetes/collectorregistry.go:54-82 | a Register call that gets a patch through is exactly that registry step of the state machine, on the binding and from the version found where it stops |
| `Service.UnregisterIsOneStep` | internal/adapter/kubernetes/collectorregistry.go:102-129 | the same for Unregister |
| `Service.FreshUnregister` | internal/adapter/kubernetes/collectorregistry.go:88-134 | with fresh reads and an accepted patch the call is the draining step |
| `Counterexamples.StaleAttemptBreaksDeleteSafety` | internal/controller/collectorgroupbinding_controller.go:147-169 | a run without unclean ends and with protected deletions after which a bound PipelineConfig is gone |
| `Counterexamples.UnprotectedDeleteDangles` | internal/controller/pipelineconfig_controller.go:77-81 | a clean run in which a PipelineConfig deleted before it got its finalizer is gone while bound |
| `Counterexamples.RecreationDrifts` | internal/controller/pipelineconfig_controller.go:77-81 | without unclean ends, a name deleted and created again while bound leaves a counter off by two |
| `Counterexamples.RejectedFinishDrifts` | internal/controller/collectorgroupbinding_controller.go:119-121 | the drift bound is attained: one rejected final write after a counter write leaves the counter off by one |

## Left out

- SHA-256, Connect-RPC, the informer cache and the API server are modelled by their contracts only.
- Errors of cache list calls (registry and resolver) and of the first fetch in a reconcile: they end the call before anything is written; only the lookups of the two references can fail in the model.
- Metrics, logging, error message text, condition messages and transition times, and the decorator that counts resolver calls.
- Manager, server and flag wiring, the no-op registry, Helm charts, RBAC and the pre-delete hook that strips finalizers.
- Foreign finalizers; the model has the operator's own only.
- RegisterCollector and UnregisterCollector of the service: each forwards to the registry call and maps any error to Internal.
- The 30-second delay of a blocked deletion: the resource reconcilers return whether they ask for a requeue.
- Width of `activeBindings`: the counter is an unbounded integer.
- Timestamps are integers of one unit; the store's truncation to seconds is not modelled, and a negative TTL is excluded by type.
- Fanout.FanoutSettlesHashes: covers live finalized bindings; the first reconcile of a new binding only adds the finalizer, and a deleted one is released instead.
- Eviction.EvictedInTime: that reconciles come on time is its premise; queueing, back-off and the clock are not modelled.
