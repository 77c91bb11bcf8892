# Shared quota: a verified model of its core

Shared-quota is a Kubernetes controller and admission webhook. It applies one
resource quota (a `SharedQuota`) across every namespace its label selector
matches. This project models the pure decision logic of that system in Dafny
and proves properties of it. The model has five parts:

- **Pod usage policy** (`PodEvaluator`, from `pkg/quota/evaluator/core/pods.go`):
  - the liveness gate `QuotaV1Pod`;
  - per-container usage (`podComputeUsageHelper`), with its `requests.` aliases;
  - per-pod usage (`PodUsageFunc`): app containers are summed, then compared key by key against each init container;
  - resource matching, the legacy "must specify" validation (`Constraints`), and the scope predicates.

  `Handles` decides that only the admission of a new pod is charged.
- **Per-namespace status list** (`StatusList`, from `pkg/quota/util.go`):
  - Get, Remove and Insert on the ordered breakdown of a shared quota's status;
  - the filter in `ResourceQuotaNamesFor`.
- **Reconcile pass** (`Reconciler`, from `syncQuotaForNamespaces`): a pure function of the stored quota, the listed matching namespaces and a usage function. It returns the new quota and whether a write is needed.
- **Controller events** (`ControllerEvents`): the event filters given to the controller, and the mapper from a namespace change to the quotas it affects.
- **Admission** (`Admission`, `LockOrder`, from `internal/webhook/v1/sharedquota_webhook.go`):
  - the short-circuits and the error mapping of the webhook's `Handle`;
  - the name ordering of `ByName`;
  - `lockAquisition`, with lock and unlock modelled as events.

Supporting modules:

- `Results`: `Option` and `Result`.
- `Seqs`: the subsequence relation, used to say "keeps list order".
- `Resources`: resource lists as `map<string, int>`. A missing key counts as 0. `Add`, `Subtract` and `Max` act key by key over the union of keys.
- `QuotaApi`: the API types.

Some helpers the core calls have bodies that are not part of this model. Several live in this repository's own packages, whose files are not modelled:
- `pkg/apis/core/v1/helper`: resource-name classification (`IsNativeResource`, `IsExtendedResourceName`) and scope-selector conversion. These are parameters.
- `pkg/apis/core/v1/helper/qos`: the QoS class. This is a parameter.
- `pkg/quota`, apart from util.go: `Add`, `Subtract`, `Max` and `Intersection`. These are defined in `Resources` and `PodEvaluator`, assuming they behave like their upstream Kubernetes counterparts.
- `pkg/quota/generic`: `Matches` and `CalculateUsageStats`. These are not modelled.

Others come from outside the repository and are parameters: label matching (k8s.io/apimachinery), client reads (controller-runtime), and the quota evaluator of the admission plugin (k8s.io/apiserver).

## Model

| member | source | states |
|---|---|---|
| PodEvaluator.QuotaV1PodStaysUncharged | pkg/quota/evaluator/core/pods.go:401-418 | A pod that is not charged at some time is not charged at any later time. Charged later implies charged earlier. |
| PodEvaluator.QuotaV1PodClockFree | pkg/quota/evaluator/core/pods.go:401-418 | Without both a deletion timestamp and a grace period the clock plays no part. The pod is then charged exactly when its phase is neither Failed nor Succeeded. |
| PodEvaluator.MaskResourceWithPrefix | pkg/quota/evaluator/core/pods.go:82-84 | The masked name starts with the prefix, and what follows the prefix is the original name. |
| PodEvaluator.RequestsAliasInjective | pkg/quota/evaluator/core/pods.go:82-84 | Distinct names get distinct `requests.` aliases. |
| PodEvaluator.RequestAliasLoopIsOrderFree | pkg/quota/evaluator/core/pods.go:282-293 | Whatever order Go's map iteration visits the request keys in, the loop adds exactly the huge-pages and extended-resource aliases of the keys visited. |
| PodEvaluator.ComputeUsageHelperMatchesLoop | pkg/quota/evaluator/core/pods.go:254-296 | The helper visits every request key once, in any order, after the fixed writes. Its result is always the same map. |
| PodEvaluator.FixedUsageKey | pkg/quota/evaluator/core/pods.go:255-281 | The fixed writes, key by key. `pods` is 1. Each request-derived name is present iff its source request is, with that value. Each limit-derived name is present iff its source limit is, with that value. |
| PodEvaluator.FixedUsageNamesOnly | pkg/quota/evaluator/core/pods.go:255-281 | The fixed writes touch only `pods` and the eleven cpu, memory, ephemeral-storage and GPU names. |
| PodEvaluator.ComputeUsageHelperKey | pkg/quota/evaluator/core/pods.go:254-296 | The container usage, key by key. A key is present iff the fixed writes set it or it is the alias of an eligible request. An alias carries the request's value and overrides a fixed write. |
| PodEvaluator.ComputeUsageHelperChargesPods | pkg/quota/evaluator/core/pods.go:255-256 | Every container usage has `pods` = 1. |
| PodEvaluator.ComputeUsageHelperRequestAliases | pkg/quota/evaluator/core/pods.go:257-281 | A cpu, memory, ephemeral-storage or `nvidia.com/gpu` request appears under its own name and its `requests.` name iff it is requested. Both carry the requested value. |
| PodEvaluator.ComputeUsageHelperLimits | pkg/quota/evaluator/core/pods.go:261-277 | `limits.cpu`, `limits.memory` and `limits.ephemeral-storage` are present iff the matching limit is declared, and carry its value. |
| PodEvaluator.ComputeUsageHelperIgnoresGPULimit | pkg/quota/evaluator/core/pods.go:278-281 | A GPU limit is never charged: `limits.nvidia.com/gpu` never appears. |
| PodEvaluator.ComputeUsageHelperLimitsOnlyThere | pkg/quota/evaluator/core/pods.go:254-296 | Changing the limits changes no name other than the three `limits.` names. |
| PodEvaluator.ComputeUsageHelperHugePages | pkg/quota/evaluator/core/pods.go:283-287 | A `hugepages-*` request appears under its own name and under `requests.hugepages-*`, both with the requested value. |
| PodEvaluator.ComputeUsageHelperExtendedAlias | pkg/quota/evaluator/core/pods.go:288-292 | An extended-resource request appears under `requests.<name>` with the requested value. |
| PodEvaluator.ComputeUsageHelperExtendedOnlyAlias | pkg/quota/evaluator/core/pods.go:254-296 | A name may lie outside the fixed names, not be huge pages and not be `requests.`-prefixed. Such a name never appears under its own name, so an extended resource appears only under its alias. |
| PodEvaluator.ComputeUsageHelperNoObjectCount | pkg/quota/evaluator/core/pods.go:254-296 | The container usage never contains `count/pods`. |
| PodEvaluator.EffectiveQty | pkg/quota/evaluator/core/pods.go:357-367 | For non-negative quantities: after folding the app containers with Add and the init containers with Max, every key is max(sum over app containers, largest init container). The keys are the union. |
| PodEvaluator.EffectiveRequestsQty | pkg/quota/evaluator/core/pods.go:357-367 | For a pod with non-negative quantities, the effective requests follow that rule. |
| PodEvaluator.EffectiveLimitsQty | pkg/quota/evaluator/core/pods.go:357-367 | For a pod with non-negative quantities, the effective limits follow that rule. |
| PodEvaluator.PodUsage | pkg/quota/evaluator/core/pods.go:334-371 | An error iff the object is not a pod. `count/pods` is always 1. A pod that is not charged has exactly `{count/pods: 1}`. A charged pod has `pods` = 1. |
| PodEvaluator.PodUsageKey | pkg/quota/evaluator/core/pods.go:369 | A charged pod's usage equals the container usage of its effective requests and limits on every key except `count/pods`. |
| PodEvaluator.PodUsageRequests | pkg/quota/evaluator/core/pods.go:354-369 | For a charged pod with non-negative quantities, the cpu, memory, ephemeral-storage and GPU usage, under both names, is max(sum over containers, max over init containers) of the request. |
| PodEvaluator.PodUsageLimits | pkg/quota/evaluator/core/pods.go:354-369 | A charged pod's `limits.` usage follows the same rule over the limits. |
| PodEvaluator.Intersection | pkg/quota/evaluator/core/pods.go:164 | The intersection holds exactly the names in both lists, each once. |
| PodEvaluator.MatchingResources | pkg/quota/evaluator/core/pods.go:163-177 | A name is matched iff it is in the input and is a pod resource, has a huge-pages prefix, or is a non-native `requests.` name. |
| PodEvaluator.ComputeUsageHelperRecognised | pkg/quota/evaluator/core/pods.go:163-177 | Every name the container usage can carry is matched by MatchingResources. This holds when extended names are never native under their alias. |
| PodEvaluator.PodUsageRecognised | pkg/quota/evaluator/core/pods.go:334-371 | Every name in a pod's usage is matched by MatchingResources, under the same assumption. |
| PodEvaluator.UsageKeyIsDeclaration | pkg/quota/evaluator/core/pods.go:242-251 | For the six validated names, a name is among a container's usage keys iff the container declares the matching request or limit. |
| PodEvaluator.ContainerMissingIsUndeclared | pkg/quota/evaluator/core/pods.go:242-251 | The names one container adds to the missing set are exactly the required names it does not declare. |
| PodEvaluator.MissingOverIsUndeclared | pkg/quota/evaluator/core/pods.go:134-139 | Walking the containers accumulates exactly the union of their undeclared required names. |
| PodEvaluator.Constraints | pkg/quota/evaluator/core/pods.go:122-144 | An object of another kind gives the not-a-pod error, and only such an object does. A "must specify" error lists a non-empty set of validated names. |
| PodEvaluator.ConstraintsExact | pkg/quota/evaluator/core/pods.go:122-144 | The result is "must specify M" when M is non-empty, and no error otherwise. M is the set of validated required names that some container or init container does not declare. |
| PodEvaluator.ConstraintsPassIff | pkg/quota/evaluator/core/pods.go:122-144 | A pod passes iff every container and init container declares every required name in the validation set. |
| PodEvaluator.ConstraintsIgnoreUnvalidated | pkg/quota/evaluator/core/pods.go:98-105 | Requirements outside the six-name validation set, such as `ephemeral-storage`, never cause an error. |
| PodEvaluator.PriorityClassLabels | pkg/quota/evaluator/core/pods.go:389-392 | The label set has the single key `PriorityClass` iff the pod names a priority class, and then holds that name. Otherwise it is empty. |
| PodEvaluator.PodMatchesSelector | pkg/quota/evaluator/core/pods.go:384-397 | An error iff the selector cannot be converted. Otherwise the result is the converted selector applied to the pod's priority-class labels. |
| PodEvaluator.PodMatchesScope | pkg/quota/evaluator/core/pods.go:310-328 | An error iff the object is not a pod, or the scope is PriorityClass and its selector cannot be converted. |
| PodEvaluator.TerminatingScopes | pkg/quota/evaluator/core/pods.go:377-382 | Terminating holds iff the active deadline is set and non-negative. NotTerminating is its complement. |
| PodEvaluator.BestEffortScopes | pkg/quota/evaluator/core/pods.go:320-323 | NotBestEffort is the complement of BestEffort. |
| PodEvaluator.UnknownScopeMatchesNothing | pkg/quota/evaluator/core/pods.go:315-327 | A scope name the evaluator does not know matches no pod. It is not an error. |
| PodEvaluator.MatchingScopesBy | pkg/quota/evaluator/core/pods.go:180-192 | The loop over any scope test: an error iff the test errs on some selector. Otherwise the result is exactly the accepted selectors, each as often as listed, in order. |
| PodEvaluator.MatchingScopes | pkg/quota/evaluator/core/pods.go:180-192 | An error iff some selector errs. Otherwise the result holds each selector the pod matches as often as it is listed, in input order, and nothing else. |
| PodEvaluator.CoveredBy | pkg/quota/evaluator/core/pods.go:199-205 | A scope is covered iff some matched quota scope has the same scope name. |
| PodEvaluator.UncoveredQuotaScopes | pkg/quota/evaluator/core/pods.go:196-212 | The result holds each limited scope whose name no matched scope shares, as often as it is listed, in input order, and nothing else. |
| PodEvaluator.HandlesOnlyCreate | pkg/quota/evaluator/core/pods.go:151-155 | The pod evaluator takes part in admission only for a Create. Update, Delete and Connect requests are never charged by it. |
| StatusList.Get | pkg/quota/util.go:85-93 | `found` iff some entry is about the namespace. The status is then that of the first such entry; otherwise it is the zero status. |
| StatusList.GetUnique | pkg/quota/util.go:85-93 | With unique namespaces, Get returns the status of the namespace's entry. |
| StatusList.Remove | pkg/quota/util.go:95-105 | The result holds each entry about another namespace as often as it is listed, in the original order, and no entry about the namespace. |
| StatusList.GetAfterRemove | pkg/quota/util.go:95-105 | After removal no entry is about the namespace, and Get finds nothing. |
| StatusList.GetOtherAfterRemove | pkg/quota/util.go:95-105 | Removal leaves Get for every other namespace unchanged. |
| StatusList.RemoveIdempotent | pkg/quota/util.go:95-105 | Removing a namespace twice is removing it once. |
| StatusList.RemoveAbsent | pkg/quota/util.go:95-105 | Removing an absent namespace returns the list unchanged. |
| StatusList.RemoveKeepsUnique | pkg/quota/util.go:95-105 | Removal keeps namespaces unique. |
| StatusList.ReplaceMatching | pkg/quota/util.go:110-119 | Same length. Every entry about the namespace is replaced in place, and every other entry stays at its position. |
| StatusList.Insert | pkg/quota/util.go:107-124 | If present: same length, in-place replacement, other entries unchanged. If absent: the new entry is appended after the unchanged list. |
| StatusList.GetAfterInsert | pkg/quota/util.go:107-124 | After Insert, Get for the namespace returns the inserted status. |
| StatusList.GetOtherAfterInsert | pkg/quota/util.go:107-124 | Insert leaves Get for every other namespace unchanged. |
| StatusList.InsertIdempotent | pkg/quota/util.go:107-124 | Inserting the same entry twice is inserting it once. |
| StatusList.InsertKeepsUnique | pkg/quota/util.go:107-124 | Insert keeps namespaces unique. |
| StatusList.InsertSame | pkg/quota/util.go:107-124 | Inserting the status that every entry about the namespace already carries changes nothing. |
| StatusList.RemoveSum | pkg/quota/util.go:95-105 | With unique namespaces, removal takes exactly the namespace's usage out of the breakdown's sum. |
| StatusList.InsertSum | pkg/quota/util.go:107-124 | With unique namespaces, Insert swaps the namespace's old usage (0 if absent) for the new usage in the sum. |
| StatusList.SelectingQuotas | pkg/quota/util.go:74-79 | The result holds each quota whose non-empty selector matches the labels, as often as it is listed, in list order, and no other quota. |
| StatusList.ResourceQuotaNamesFor | pkg/quota/util.go:61-81 | A failed namespace read is an error. A namespace without labels gives an empty result without listing. Otherwise a failed list is an error, and success gives the names of the selecting quotas. |
| StatusList.ResourceQuotaNamesForSelects | pkg/quota/util.go:74-79 | A name is returned iff it belongs to a listed quota whose non-empty selector matches the labels. |
| StatusList.EmptySelectorNeverSelects | pkg/quota/util.go:61-81 | A quota with an empty selector is never among the selecting quotas of any list. A name that only such quotas carry is never returned, whatever the namespace's labels. |
| Reconciler.RechargeAll | internal/controller/sharedquota_controller.go:222-242 | The fold fails iff some matching namespace's usage calculation fails. It leaves the total's hard limits alone. |
| Reconciler.SyncQuotaForNamespaces | internal/controller/sharedquota_controller.go:204-267 | An error iff the namespace listing or some usage calculation fails. Metadata and spec are kept. `Total.Hard` becomes the spec's hard limits. A write is needed iff the result differs from the stored quota. |
| Reconciler.RechargeConsistent | internal/controller/sharedquota_controller.go:235-241 | Subtract-old, add-new and upsert keep the total equal to the sum of the breakdown, and keep namespaces unique. |
| Reconciler.RechargeAllConsistent | internal/controller/sharedquota_controller.go:222-242 | The whole fold keeps that invariant. |
| Reconciler.PruneConsistent | internal/controller/sharedquota_controller.go:244-252 | Pruning keeps the invariant: each stale entry's usage leaves the total as its entry leaves the breakdown. |
| Resources.SubtractReadingsAgree | internal/controller/sharedquota_controller.go:236-237 | A `Subtract` clamped at zero and the unclamped one give the same list exactly when the subtracted list nowhere exceeds the other. |
| Reconciler.ClampingIsInvisible | internal/controller/sharedquota_controller.go:236-250 | On a consistent status whose namespaces record non-negative usage, no key goes below zero in either subtraction: a recharged namespace's old usage, or a pruned entry's usage. Clamped and unclamped `Subtract` then give the same total. |
| Reconciler.SyncKeepsConsistent | internal/controller/sharedquota_controller.go:222-254 | A pass keeps the invariant: total used equals the pointwise sum of the breakdown, and namespaces are unique. |
| Reconciler.RechargeCharges | internal/controller/sharedquota_controller.go:235-241 | After recharging, every entry about the namespace carries the hard limits and the fresh usage, and the total lists its resources. |
| Reconciler.RechargeAllCharges | internal/controller/sharedquota_controller.go:222-242 | After a successful fold, every listed namespace's usage call succeeded. Each of its entries carries the hard limits and that fresh usage, including when other namespaces are recharged after it. |
| Reconciler.PruneKeepsCharged | internal/controller/sharedquota_controller.go:244-252 | Pruning never touches a namespace that still matches. |
| Reconciler.PruneRemovesStale | internal/controller/sharedquota_controller.go:244-252 | Every entry left after pruning was already there, and either matches or is about a namespace the snapshot never mentioned. |
| Reconciler.SyncChargesMatching | internal/controller/sharedquota_controller.go:222-252 | After a successful pass, Get for each matching namespace returns (spec hard, fresh usage), and no entry is about a non-matching namespace. |
| Reconciler.SyncSettles | internal/controller/sharedquota_controller.go:204-254 | A successful pass leaves the quota settled: all matching namespaces charged, no others present, and the total's hard limits equal to the spec's. |
| Reconciler.RechargeSettled | internal/controller/sharedquota_controller.go:235-241 | Recharging a namespace with the usage it already carries is the identity. This relies on Subtract and Add cancelling. |
| Reconciler.SettledIsFixedPoint | internal/controller/sharedquota_controller.go:256-259 | On a settled quota a pass returns the quota unchanged and needs no write. |
| Reconciler.SyncIdempotent | internal/controller/sharedquota_controller.go:204-259 | A second pass with unchanged inputs gives an identical quota and no write. |
| ControllerEvents.LifecycleFilter | internal/controller/sharedquota_controller.go:110-135 | For pods, services and claims, create and generic events never enqueue and deletes always do. |
| ControllerEvents.ResourceFilter | internal/controller/sharedquota_controller.go:108-137 | The filter in effect: as above for create, generic and delete, and an update passes iff the generation changed. |
| ControllerEvents.IntendedResourceFilter | internal/controller/sharedquota_controller.go:116-132 | The written update handler. A pod update passes iff the pod goes from charged to not charged; a service update iff its quota type changes; a claim update always. Other events are treated as in the filter in effect. |
| ControllerEvents.IntendedPodUpdateReleasesCharge | internal/controller/sharedquota_controller.go:120-123 | A pod update the handler lets through releases the pod's compute charge. The new usage is the bare object count, and it differs from the old usage. |
| ControllerEvents.ResourceFilterMissesRelease | internal/controller/sharedquota_controller.go:108-137 | A pod may stop being charged while its generation stays the same. The filter in effect drops that update; the handler would enqueue it. |
| ControllerEvents.PodFailureIsMissed | internal/controller/sharedquota_controller.go:108-137 | Concrete case: a running pod fails, same generation. It is dropped by the filter in effect and enqueued by the handler. |
| ControllerEvents.QuotaFilter | internal/controller/sharedquota_controller.go:87-95 | Shared-quota events: create, delete and generic pass. An update passes iff the generation changed. |
| ControllerEvents.IntendedQuotaFilter | internal/controller/sharedquota_controller.go:89-93 | The written handler passes a shared-quota update iff its spec changed. |
| ControllerEvents.QuotaFiltersAgree | internal/controller/sharedquota_controller.go:87-95 | When the generation moves exactly on spec changes, the two shared-quota filters agree. |
| ControllerEvents.AnyMatches | internal/controller/sharedquota_controller.go:162-168 | The evaluator loop with its early break finds a match iff some evaluator's MatchingResources is non-empty. |
| ControllerEvents.Mapper | internal/controller/sharedquota_controller.go:145-153 | A failed quota-name lookup enqueues nothing. |
| ControllerEvents.MapNames | internal/controller/sharedquota_controller.go:155-169 | Enqueued names keep list order. Each was fetched successfully and is claimed by some evaluator. |
| ControllerEvents.MapperSound | internal/controller/sharedquota_controller.go:155-169 | Each enqueued name is a listed quota some evaluator claims. If the names are distinct, none is enqueued twice. |
| ControllerEvents.MapperComplete | internal/controller/sharedquota_controller.go:155-169 | When every fetch succeeds, a listed quota is enqueued iff some evaluator claims one of its hard resource names. |
| ControllerEvents.PodQuotaEnqueued | internal/controller/sharedquota_controller.go:161-168 | With the pod evaluator registered, a quota limiting a resource that pods use is enqueued. |
| Admission.Handle | internal/webhook/v1/sharedquota_webhook.go:86-118 | Non-empty sub-resource or empty namespace: Allowed. Decode failure: Errored(400). Forbidden: Denied. Any other evaluation error: Errored(500). No error: Allowed. |
| Admission.HandleFailsClosed | internal/webhook/v1/sharedquota_webhook.go:102-117 | An evaluated request is allowed iff it decoded and the evaluator reported nothing. It is denied iff a quota forbade it. Every error code is 400 or 500. |
| Admission.SkippedIgnoresEvaluator | internal/webhook/v1/sharedquota_webhook.go:86-94 | A skipped request is allowed whatever the decoder and the evaluator would do. |
| LockOrder.LexLessIrreflexive | internal/webhook/v1/sharedquota_webhook.go:124 | No name is less than itself. |
| LockOrder.LexLessAsymmetric | internal/webhook/v1/sharedquota_webhook.go:124 | No two names are each less than the other. |
| LockOrder.LexLessTransitive | internal/webhook/v1/sharedquota_webhook.go:124 | The name order is transitive. |
| LockOrder.LexLessTotal | internal/webhook/v1/sharedquota_webhook.go:124 | Of two distinct names, one is less than the other. |
| LockOrder.InsertByNameSorted | internal/webhook/v1/sharedquota_webhook.go:130 | Inserting into a sorted list keeps it sorted by name. |
| LockOrder.InsertByNamePermutes | internal/webhook/v1/sharedquota_webhook.go:130 | Inserting adds exactly one occurrence of the quota. |
| LockOrder.SortByName | internal/webhook/v1/sharedquota_webhook.go:130 | The result is sorted by name and is a permutation of the input. |
| LockOrder.SortedOrder | internal/webhook/v1/sharedquota_webhook.go:124 | In a sorted list, of two differently named quotas, the smaller name comes first. |
| LockOrder.SharedPairsSameOrder | internal/webhook/v1/sharedquota_webhook.go:129-135 | Two sorted acquisition lists place any two differently named quotas they share in the same relative order. |
| LockOrder.Release | internal/webhook/v1/sharedquota_webhook.go:137-141 | The release function unlocks every held lock once, in exact reverse order of acquisition. |
| LockOrder.LockAcquisition | internal/webhook/v1/sharedquota_webhook.go:126-135 | One lock event per input quota, keyed by UID, in the order of some name-sorted permutation of the input. |
| LockOrder.AcquireThenReleaseBalanced | internal/webhook/v1/sharedquota_webhook.go:126-142 | Acquisition followed by release keeps a stack discipline: each unlock releases the most recently taken lock still held, and nothing is held at the end. |
| LockOrder.LockPerQuota | internal/webhook/v1/sharedquota_webhook.go:131-141 | The locked UIDs are exactly the input quotas' UIDs, and release unlocks lock i at position n-1-i. |

## Left out

- Kubernetes client calls are not modelled: Get, List, `Status().Update`, `listPods`, the event recorder, logging, the manager and the watch wiring, and `Reconcile` itself. Their results are inputs; the reconcile pass reports whether a write would be issued.
- These helpers are parameters: `IsNativeResource` and `IsExtendedResourceName` from the repository's pkg/apis/core/v1/helper; the QoS class (`isBestEffort`) from its helper/qos package; scope-selector conversion from pkg/apis/core/v1/helper, with label matching from k8s.io/apimachinery; label-selector matching in `ResourceQuotaNamesFor`; and the service's quota type, which is a field of the service change. Their bodies are not part of this model.
- Resources.Subtract: `quota.Add`, `Subtract` and `Max` live in the repository's pkg/quota package, whose file for them is not part of this model. They are assumed to behave like their upstream Kubernetes counterparts: key by key over unbounded integers, with a missing key as 0, and `Subtract` not clamped at zero. A clamped `Subtract` is modelled as `Resources.SubtractClamped`. `Resources.SubtractReadingsAgree` shows the two agree exactly when nothing is subtracted below zero. `Reconciler.ClampingIsInvisible` shows this holds for every subtraction of the pass on a consistent status whose namespaces record non-negative usage, so the reconcile results do not depend on this assumption there. `resource.Quantity` is an integer in a fixed base unit.
- PodEvaluator.Intersection: the library sorts its result; only membership and absence of duplicates are modelled. PodEvaluator.MatchingResources states membership, not order or multiplicity.
- Error texts are free strings. The "must specify" error carries the set of missing names; the joined, unordered string is not modelled.
- PodEvaluator.EffectiveQty: the max rule is stated for non-negative quantities, which API validation guarantees. With a negative quantity, an absent key (read as 0) and the library's Max (which keeps the present value) can disagree.
- Time is whole seconds. The overflow of `time.Duration` for huge grace periods is not modelled.
- Admission.Handle: `convertToAdmissionAttributes` and the quota evaluator are parameters. The used + requested ≤ hard check, `NewQuotaEvaluator`, `sync.Once` and the evaluator's worker threads belong to k8s.io/apiserver's quota admission package and are not modelled.
- LockOrder.SortByName: Go's `sort.Sort` is not stable. For equal names the Go order may differ from this insertion sort. Every stated property (sorted, a permutation of the input) holds of any result `sort.Sort` may return.
- Locks are events, not mutexes. `LockFactory` is not modelled, and neither is what happens when two quotas share a UID.
- Reconciler.SyncKeepsConsistent: the sum invariant needs no namespace to appear twice in the stored breakdown. Get returns the first entry while Insert replaces all of them, so with duplicates the total and the sum can drift.
- Reconciler.SyncIdempotent: the usage function is fixed across the two passes, so pods that change in between are outside the statement.
- ControllerEvents.Mapper: the evaluator registry is a list of MatchingResources functions. The hard resource names are given in the order the library enumerates them.
- `GroupResource` returns a constant. `Usage` calls `PodUsageFunc`, which is modelled as `PodUsage`. `Matches` and `UsageStats` delegate to the repository's pkg/quota/generic package (`generic.Matches`, `generic.CalculateUsageStats`), with the pod's `MatchingResources` and scope function as arguments, and are not modelled.
- `api/v1/sharedquota_types.go` has declarations only; they are mirrored as datatypes.

## Findings

| source | as written | input that shows it | evidently intended | confidence | as-written member | corrected member |
|---|---|---|---|---|---|---|
| internal/controller/sharedquota_controller.go:108-137 | Each filter is a generation-changed predicate with a set of handler functions embedded in it. The predicate type defines its own update method, which takes precedence over the embedded one. So the pod/service/claim update handler is never called, and updates pass iff the metadata generation changed. The same holds for the shared-quota spec handler. | A running pod becomes Failed with its generation unchanged. The filter in effect drops the update, so the shared quota keeps charging the pod until some other event or resync. | Pod updates pass on a charged → not-charged transition, service updates on a quota-type change, and every claim update passes, as the handler says. | medium, not executed; the precedence comes from the controller-runtime type, which is part of controller-runtime's `predicate` package, not of this repository | ControllerEvents.ResourceFilter (exhibited by ControllerEvents.PodFailureIsMissed) | ControllerEvents.IntendedResourceFilter (with ControllerEvents.IntendedPodUpdateReleasesCharge) |
