/**
 * The pod usage policy: how much of each tracked resource one pod is charged,
 * which quota resources the pod evaluator recognises, the frozen legacy
 * "must specify" validation, and the pod scope predicates.
 */
module PodEvaluator {
  import opened Results
  import opened Resources
  import opened QuotaApi
  import opened Seqs

  // ---------------------------------------------------------------------------
  // Resource names
  // ---------------------------------------------------------------------------

  /** The object-count resource for pods: counts every pod in storage. */
  const PodObjectCountName: ResourceName := "count/pods"
  /** The compute-class "number of live pods" resource. */
  const ResourcePods: ResourceName := "pods"
  const ResourceCPU: ResourceName := "cpu"
  const ResourceMemory: ResourceName := "memory"
  const ResourceEphemeralStorage: ResourceName := "ephemeral-storage"
  const ResourceGPU: ResourceName := "nvidia.com/gpu"
  const ResourceRequestsCPU: ResourceName := "requests.cpu"
  const ResourceRequestsMemory: ResourceName := "requests.memory"
  const ResourceRequestsEphemeralStorage: ResourceName := "requests.ephemeral-storage"
  const ResourceRequestsGPU: ResourceName := "requests.nvidia.com/gpu"
  const ResourceLimitsCPU: ResourceName := "limits.cpu"
  const ResourceLimitsMemory: ResourceName := "limits.memory"
  const ResourceLimitsEphemeralStorage: ResourceName := "limits.ephemeral-storage"

  const RequestsPrefix: string := "requests."
  const LimitsPrefix: string := "limits."
  const HugePagesPrefix: string := "hugepages-"
  const RequestsHugePagesPrefix: string := "requests.hugepages-"

  /** The resources the pod evaluator tracks by exact name. */
  const PodResources: seq<ResourceName> := [
    PodObjectCountName,
    ResourceCPU, ResourceMemory, ResourceEphemeralStorage, ResourceGPU,
    ResourceRequestsCPU, ResourceRequestsMemory, ResourceRequestsEphemeralStorage, ResourceRequestsGPU,
    ResourceLimitsCPU, ResourceLimitsMemory, ResourceLimitsEphemeralStorage,
    ResourcePods]

  /** Prefixes of quota resource names the pod evaluator tracks (huge pages). */
  const PodResourcePrefixes: seq<string> := [HugePagesPrefix, RequestsHugePagesPrefix]

  /** Prefixes of names a container may request that are charged under two names. */
  const RequestedResourcePrefixes: seq<string> := [HugePagesPrefix]

  /**
   * The frozen legacy set: only these quota names force every container to
   * declare the resource. Deliberately never extended to other resources.
   */
  const ValidationSet: set<ResourceName> := {
    ResourceCPU, ResourceMemory,
    ResourceRequestsCPU, ResourceRequestsMemory,
    ResourceLimitsCPU, ResourceLimitsMemory}

  /** Every name the fixed part of the per-container usage can write. */
  const FixedUsageNames: set<ResourceName> := {
    ResourcePods,
    ResourceCPU, ResourceMemory, ResourceEphemeralStorage, ResourceGPU,
    ResourceRequestsCPU, ResourceRequestsMemory, ResourceRequestsEphemeralStorage, ResourceRequestsGPU,
    ResourceLimitsCPU, ResourceLimitsMemory, ResourceLimitsEphemeralStorage}

  // ---------------------------------------------------------------------------
  // Pods
  // ---------------------------------------------------------------------------

  datatype PodPhase = Pending | Running | Succeeded | Failed | Unknown

  /** A container's declared requests and limits. */
  datatype Container = Container(requests: ResourceList, limits: ResourceList)

  /** The parts of a pod the quota logic reads. Times are whole seconds. */
  datatype Pod = Pod(
    generation: int,
    deletionTimestamp: Option<int>,
    deletionGracePeriodSeconds: Option<int>,
    activeDeadlineSeconds: Option<int>,
    priorityClassName: string,
    phase: PodPhase,
    containers: seq<Container>,
    initContainers: seq<Container>)

  /** What the evaluator is handed: a pod, or an object of another kind. */
  datatype Object = PodObject(pod: Pod) | OtherObject(kind: string)

  /**
   * Helpers of the Kubernetes API libraries that this model does not define:
   * native/extended resource-name classification, the QoS class computation
   * and the conversion of a scope selector into a label selector (which may
   * fail, and otherwise yields the selector's match over a label set).
   */
  datatype Helpers = Helpers(
    isNativeResource: ResourceName -> bool,
    isExtendedResourceName: ResourceName -> bool,
    isBestEffort: Pod -> bool,
    toLabelSelector: ScopeSelector -> Result<map<string, string> -> bool, string>)

  /** All quantities a pod declares are non-negative (API validation guarantees it). */
  predicate WellFormedPod(pod: Pod) {
    && (forall i :: 0 <= i < |pod.containers| ==>
          NonNegative(pod.containers[i].requests) && NonNegative(pod.containers[i].limits))
    && (forall i :: 0 <= i < |pod.initContainers| ==>
          NonNegative(pod.initContainers[i].requests) && NonNegative(pod.initContainers[i].limits))
  }

  // ---------------------------------------------------------------------------
  // Liveness gate
  // ---------------------------------------------------------------------------

  /**
   * A pod is charged compute resources unless it has reached a terminal phase
   * or is stuck terminating: marked for deletion with a grace period that has
   * run out strictly before `now`.
   */
  function QuotaV1Pod(pod: Pod, now: int): bool {
    if pod.phase == Failed || pod.phase == Succeeded then false
    else if pod.deletionTimestamp.Some? && pod.deletionGracePeriodSeconds.Some?
         && now > pod.deletionTimestamp.value + pod.deletionGracePeriodSeconds.value then false
    else true
  }

  /** Once a pod stops being charged it is never charged again as the clock advances. */
  lemma QuotaV1PodStaysUncharged(pod: Pod, t1: int, t2: int)
    requires t1 <= t2
    ensures !QuotaV1Pod(pod, t1) ==> !QuotaV1Pod(pod, t2)
    ensures QuotaV1Pod(pod, t2) ==> QuotaV1Pod(pod, t1)
  {
  }

  /** Without both a deletion timestamp and a grace period the clock plays no part. */
  lemma QuotaV1PodClockFree(pod: Pod, t1: int, t2: int)
    requires pod.deletionTimestamp.None? || pod.deletionGracePeriodSeconds.None?
    ensures QuotaV1Pod(pod, t1) == QuotaV1Pod(pod, t2)
    ensures QuotaV1Pod(pod, t1) <==> pod.phase != Failed && pod.phase != Succeeded
  {
  }

  // ---------------------------------------------------------------------------
  // Per-container compute usage
  // ---------------------------------------------------------------------------

  /** Prefixes a resource name: `hugepages-1Gi` becomes `requests.hugepages-1Gi`. */
  function MaskResourceWithPrefix(resource: ResourceName, prefix: string): (r: ResourceName)
    ensures HasPrefix(r, prefix) && r[|prefix|..] == resource
  {
    PrefixOfConcat(prefix, resource);
    prefix + resource
  }

  /** A non-native name written in the `requests.` form, the only form quota accepts for extended resources. */
  predicate IsExtendedResourceNameForQuota(h: Helpers, name: ResourceName) {
    !h.isNativeResource(name) && HasPrefix(name, RequestsPrefix)
  }

  /** The request-prefixed alias of a resource name. */
  function RequestsAlias(name: ResourceName): ResourceName {
    MaskResourceWithPrefix(name, RequestsPrefix)
  }

  /** A name a container may request that is charged under both its own name and its alias. */
  predicate IsHugePages(name: ResourceName) {
    ContainsPrefix(RequestedResourcePrefixes, name)
  }

  /** Charges a request found under `name` to both `name` and `alias`. */
  function WriteRequest(acc: ResourceList, requests: ResourceList, name: ResourceName, alias: ResourceName): ResourceList {
    if name in requests then acc[name := requests[name]][alias := requests[name]] else acc
  }

  /** Charges a limit found under `name` to `alias` only. */
  function WriteLimit(acc: ResourceList, limits: ResourceList, name: ResourceName, alias: ResourceName): ResourceList {
    if name in limits then acc[alias := limits[name]] else acc
  }

  /** The fixed-name part of the per-container usage, written in the order the source writes it. */
  function FixedUsage(requests: ResourceList, limits: ResourceList): ResourceList {
    var r0 := map[ResourcePods := 1];
    var r1 := WriteRequest(r0, requests, ResourceCPU, ResourceRequestsCPU);
    var r2 := WriteLimit(r1, limits, ResourceCPU, ResourceLimitsCPU);
    var r3 := WriteRequest(r2, requests, ResourceMemory, ResourceRequestsMemory);
    var r4 := WriteLimit(r3, limits, ResourceMemory, ResourceLimitsMemory);
    var r5 := WriteRequest(r4, requests, ResourceEphemeralStorage, ResourceRequestsEphemeralStorage);
    var r6 := WriteLimit(r5, limits, ResourceEphemeralStorage, ResourceLimitsEphemeralStorage);
    WriteRequest(r6, requests, ResourceGPU, ResourceRequestsGPU)
  }

  /**
   * What the source's loop over the requests adds, independent of the order in
   * which it visits them: huge pages under their own name and their alias,
   * extended resources under their alias only. Only the requests named in
   * `visited` are considered.
   */
  function RequestAliasesOver(h: Helpers, requests: ResourceList, visited: set<ResourceName>): ResourceList {
    (map r | r in requests && r in visited && IsHugePages(r) :: requests[r])
    + (map r | r in requests && r in visited && (IsHugePages(r) || h.isExtendedResourceName(r))
             :: RequestsAlias(r) := requests[r])
  }

  /**
   * Per-container compute usage (the source's podComputeUsageHelper): the
   * fixed names first, then the prefixed and extended aliases.
   */
  function ComputeUsageHelper(h: Helpers, requests: ResourceList, limits: ResourceList): ResourceList {
    FixedUsage(requests, limits) + RequestAliasesOver(h, requests, requests.Keys)
  }

  /**
   * The source's loop over the requests map, visiting the keys in the order
   * `order` (Go leaves map iteration order unspecified).
   */
  function RequestAliasLoop(h: Helpers, requests: ResourceList, order: seq<ResourceName>, acc: ResourceList): ResourceList
    requires forall i :: 0 <= i < |order| ==> order[i] in requests
    decreases |order|
  {
    if order == [] then acc
    else RequestAliasLoop(h, requests, order[1..], RequestAliasStep(h, requests, order[0], acc))
  }

  /** One iteration of the source's loop, for the request named `r`. */
  function RequestAliasStep(h: Helpers, requests: ResourceList, r: ResourceName, acc: ResourceList): ResourceList
    requires r in requests
  {
    var acc1 := if IsHugePages(r)
                then acc[r := requests[r]][MaskResourceWithPrefix(r, RequestsPrefix) := requests[r]]
                else acc;
    if h.isExtendedResourceName(r)
    then acc1[MaskResourceWithPrefix(r, RequestsPrefix) := requests[r]]
    else acc1
  }

  lemma HugePagesNotRequestsPrefixed(name: ResourceName)
    ensures IsHugePages(name) ==> !HasPrefix(name, RequestsPrefix)
  {
    if IsHugePages(name) {
      assert HasPrefix(name, RequestedResourcePrefixes[0]);
      PrefixesExclusive(name, HugePagesPrefix, RequestsPrefix);
    }
  }

  lemma RequestsAliasInjective(a: ResourceName, b: ResourceName)
    ensures RequestsAlias(a) == RequestsAlias(b) ==> a == b
  {
    if RequestsAlias(a) == RequestsAlias(b) {
      assert a == RequestsAlias(a)[|RequestsPrefix|..];
    }
  }

  /** A name is the alias of exactly the name that follows `requests.`. */
  lemma RequestsAliasOf(k: ResourceName)
    requires HasPrefix(k, RequestsPrefix)
    ensures RequestsAlias(k[|RequestsPrefix|..]) == k
  {
    assert k == k[..|RequestsPrefix|] + k[|RequestsPrefix|..];
  }

  /** The request a key of the loop's contribution is copied from. */
  function AliasSource(k: ResourceName): ResourceName {
    if HasPrefix(k, RequestsPrefix) then k[|RequestsPrefix|..] else k
  }

  /** Whether the loop writes key `k` when it visits the request `AliasSource(k)`. */
  predicate AliasEligible(h: Helpers, k: ResourceName) {
    if HasPrefix(k, RequestsPrefix)
    then IsHugePages(k[|RequestsPrefix|..]) || h.isExtendedResourceName(k[|RequestsPrefix|..])
    else IsHugePages(k)
  }

  /** Key-by-key description of the loop's contribution. */
  lemma RequestAliasesOverKey(h: Helpers, requests: ResourceList, visited: set<ResourceName>, k: ResourceName)
    ensures var m := RequestAliasesOver(h, requests, visited);
      && (k in m <==> AliasSource(k) in requests && AliasSource(k) in visited && AliasEligible(h, k))
      && (k in m ==> m[k] == Qty(requests, AliasSource(k)))
  {
    HugePagesNotRequestsPrefixed(k);
    if HasPrefix(k, RequestsPrefix) {
      var b := k[|RequestsPrefix|..];
      RequestsAliasOf(k);
      forall r | RequestsAlias(r) == k
        ensures r == b
      {
        RequestsAliasInjective(r, b);
      }
    } else {
      forall r
        ensures RequestsAlias(r) != k
      {
      }
    }
  }

  /** The key-`k` view of one loop iteration. */
  lemma RequestAliasStepKey(h: Helpers, requests: ResourceList, r: ResourceName, acc: ResourceList, k: ResourceName)
    requires r in requests
    ensures var lhs := RequestAliasStep(h, requests, r, acc);
            var rhs := acc + RequestAliasesOver(h, requests, {r});
            (k in lhs <==> k in rhs) && (k in lhs ==> lhs[k] == rhs[k])
  {
    var lhs := RequestAliasStep(h, requests, r, acc);
    var rhs := acc + RequestAliasesOver(h, requests, {r});
    RequestAliasesOverKey(h, requests, {r}, k);
    HugePagesNotRequestsPrefixed(r);
    if k == r {
      assert (k in lhs <==> k in rhs) && (k in lhs ==> lhs[k] == rhs[k]) by {
        RequestAliasStepOwnName(h, requests, r, acc);
      }
    } else if k == RequestsAlias(r) {
      assert (k in lhs <==> k in rhs) && (k in lhs ==> lhs[k] == rhs[k]) by {
        RequestsAliasOf(k);
      }
    } else {
      assert (k in lhs <==> k in rhs) && (k in lhs ==> lhs[k] == rhs[k]) by {
        if HasPrefix(k, RequestsPrefix) {
          RequestsAliasOf(k);
        }
        RequestAliasStepOtherKey(h, requests, r, acc, k);
      }
    }
  }

  /** A step writes the visited name itself only for huge pages. */
  lemma RequestAliasStepOwnName(h: Helpers, requests: ResourceList, r: ResourceName, acc: ResourceList)
    requires r in requests
    ensures var lhs := RequestAliasStep(h, requests, r, acc);
            && (r in lhs <==> r in acc || IsHugePages(r))
            && (r in lhs ==> lhs[r] == if IsHugePages(r) then requests[r] else acc[r])
  {
    PrefixOfConcat(RequestsPrefix, r);
    assert RequestsAlias(r) != r by {
      assert |RequestsAlias(r)| > |r|;
    }
  }

  /** A step leaves untouched every key other than the visited name and its alias. */
  lemma RequestAliasStepOtherKey(h: Helpers, requests: ResourceList, r: ResourceName, acc: ResourceList, k: ResourceName)
    requires r in requests && k != r && k != RequestsAlias(r)
    ensures var lhs := RequestAliasStep(h, requests, r, acc);
            (k in lhs <==> k in acc) && (k in lhs ==> lhs[k] == acc[k])
  {
  }

  /** One iteration adds exactly the aliases of the request it visits. */
  lemma RequestAliasStepAdds(h: Helpers, requests: ResourceList, r: ResourceName, acc: ResourceList)
    requires r in requests
    ensures RequestAliasStep(h, requests, r, acc) == acc + RequestAliasesOver(h, requests, {r})
  {
    var lhs := RequestAliasStep(h, requests, r, acc);
    var rhs := acc + RequestAliasesOver(h, requests, {r});
    forall k
      ensures k in lhs <==> k in rhs
      ensures k in lhs ==> lhs[k] == rhs[k]
    {
      RequestAliasStepKey(h, requests, r, acc, k);
    }
    MapExtensionality(lhs, rhs);
  }

  /** The key-`k` view of combining the aliases over two sets of visited names. */
  lemma RequestAliasesOverUnionKey(h: Helpers, requests: ResourceList, s1: set<ResourceName>, s2: set<ResourceName>, acc: ResourceList, k: ResourceName)
    ensures var lhs := (acc + RequestAliasesOver(h, requests, s1)) + RequestAliasesOver(h, requests, s2);
            var rhs := acc + RequestAliasesOver(h, requests, s1 + s2);
            (k in lhs <==> k in rhs) && (k in lhs ==> lhs[k] == rhs[k])
  {
    RequestAliasesOverKey(h, requests, s1, k);
    RequestAliasesOverKey(h, requests, s2, k);
    RequestAliasesOverKey(h, requests, s1 + s2, k);
  }

  /** Aliases over two sets of visited names combine into the aliases over their union. */
  lemma RequestAliasesOverUnion(h: Helpers, requests: ResourceList, s1: set<ResourceName>, s2: set<ResourceName>, acc: ResourceList)
    ensures (acc + RequestAliasesOver(h, requests, s1)) + RequestAliasesOver(h, requests, s2)
            == acc + RequestAliasesOver(h, requests, s1 + s2)
  {
    var lhs := (acc + RequestAliasesOver(h, requests, s1)) + RequestAliasesOver(h, requests, s2);
    var rhs := acc + RequestAliasesOver(h, requests, s1 + s2);
    forall k
      ensures k in lhs <==> k in rhs
      ensures k in lhs ==> lhs[k] == rhs[k]
    {
      RequestAliasesOverUnionKey(h, requests, s1, s2, acc, k);
    }
    MapExtensionality(lhs, rhs);
  }

  /**
   * The loop gives the same map whatever order it visits the keys in: it adds
   * exactly the order-free aliases of the keys visited.
   */
  lemma {:induction false} RequestAliasLoopIsOrderFree(h: Helpers, requests: ResourceList, order: seq<ResourceName>, acc: ResourceList)
    requires forall i :: 0 <= i < |order| ==> order[i] in requests
    ensures RequestAliasLoop(h, requests, order, acc)
            == acc + RequestAliasesOver(h, requests, set i | 0 <= i < |order| :: order[i])
    decreases |order|
  {
    var visited := set i | 0 <= i < |order| :: order[i];
    if order == [] {
      assert RequestAliasesOver(h, requests, visited) == map[];
    } else {
      var r := order[0];
      var rest := order[1..];
      var restVisited := set i | 0 <= i < |rest| :: rest[i];
      assert visited == {r} + restVisited by {
        forall x | x in visited ensures x in {r} + restVisited {
          var i :| 0 <= i < |order| && order[i] == x;
          if i > 0 { assert rest[i - 1] == x; }
        }
        forall x | x in restVisited ensures x in visited {
          var i :| 0 <= i < |rest| && rest[i] == x;
          assert order[i + 1] == x;
        }
      }
      var acc2 := RequestAliasStep(h, requests, r, acc);
      RequestAliasLoopIsOrderFree(h, requests, rest, acc2);
      RequestAliasStepAdds(h, requests, r, acc);
      RequestAliasesOverUnion(h, requests, {r}, restVisited, acc);
    }
  }

  /** Whatever order Go iterates the requests in, the loop yields ComputeUsageHelper. */
  lemma ComputeUsageHelperMatchesLoop(h: Helpers, requests: ResourceList, limits: ResourceList, order: seq<ResourceName>)
    requires forall i :: 0 <= i < |order| ==> order[i] in requests
    requires forall k :: k in requests ==> k in order
    ensures RequestAliasLoop(h, requests, order, FixedUsage(requests, limits))
            == ComputeUsageHelper(h, requests, limits)
  {
    RequestAliasLoopIsOrderFree(h, requests, order, FixedUsage(requests, limits));
    var visited := set i | 0 <= i < |order| :: order[i];
    assert visited == requests.Keys by {
      forall k | k in requests ensures k in visited {
        var i :| 0 <= i < |order| && order[i] == k;
      }
    }
  }

  /**
   * Where the fixed part takes the value of key `k` from: a request, a limit,
   * or nowhere (only `pods`, or a name the fixed part never writes).
   */
  datatype FixedSource = FromRequest(name: ResourceName) | FromLimit(name: ResourceName) | NoSource

  /** The source's table of fixed names, read key by key. */
  function FixedSourceOf(k: ResourceName): FixedSource {
    if k == ResourceCPU || k == ResourceRequestsCPU then FromRequest(ResourceCPU)
    else if k == ResourceMemory || k == ResourceRequestsMemory then FromRequest(ResourceMemory)
    else if k == ResourceEphemeralStorage || k == ResourceRequestsEphemeralStorage then FromRequest(ResourceEphemeralStorage)
    else if k == ResourceGPU || k == ResourceRequestsGPU then FromRequest(ResourceGPU)
    else if k == ResourceLimitsCPU then FromLimit(ResourceCPU)
    else if k == ResourceLimitsMemory then FromLimit(ResourceMemory)
    else if k == ResourceLimitsEphemeralStorage then FromLimit(ResourceEphemeralStorage)
    else NoSource
  }

  lemma WriteRequestKey(acc: ResourceList, requests: ResourceList, name: ResourceName, alias: ResourceName, k: ResourceName)
    ensures var w := WriteRequest(acc, requests, name, alias);
      && (k in w <==> k in acc || (name in requests && (k == name || k == alias)))
      && (k in w ==> w[k] == if name in requests && (k == name || k == alias) then requests[name] else acc[k])
  {
  }

  lemma WriteLimitKey(acc: ResourceList, limits: ResourceList, name: ResourceName, alias: ResourceName, k: ResourceName)
    ensures var w := WriteLimit(acc, limits, name, alias);
      && (k in w <==> k in acc || (name in limits && k == alias))
      && (k in w ==> w[k] == if name in limits && k == alias then limits[name] else acc[k])
  {
  }

  /** Key-by-key description of the fixed part. */
  lemma FixedUsageKey(requests: ResourceList, limits: ResourceList, k: ResourceName)
    ensures var f := FixedUsage(requests, limits);
      && (k in f <==> k == ResourcePods
                      || (FixedSourceOf(k).FromRequest? && FixedSourceOf(k).name in requests)
                      || (FixedSourceOf(k).FromLimit? && FixedSourceOf(k).name in limits))
      && (k == ResourcePods ==> f[k] == 1)
      && (k in f && FixedSourceOf(k).FromRequest? ==> f[k] == requests[FixedSourceOf(k).name])
      && (k in f && FixedSourceOf(k).FromLimit? ==> f[k] == limits[FixedSourceOf(k).name])
  {
    var r0 := map[ResourcePods := 1];
    var r1 := WriteRequest(r0, requests, ResourceCPU, ResourceRequestsCPU);
    var r2 := WriteLimit(r1, limits, ResourceCPU, ResourceLimitsCPU);
    var r3 := WriteRequest(r2, requests, ResourceMemory, ResourceRequestsMemory);
    var r4 := WriteLimit(r3, limits, ResourceMemory, ResourceLimitsMemory);
    var r5 := WriteRequest(r4, requests, ResourceEphemeralStorage, ResourceRequestsEphemeralStorage);
    var r6 := WriteLimit(r5, limits, ResourceEphemeralStorage, ResourceLimitsEphemeralStorage);
    WriteRequestKey(r0, requests, ResourceCPU, ResourceRequestsCPU, k);
    WriteLimitKey(r1, limits, ResourceCPU, ResourceLimitsCPU, k);
    WriteRequestKey(r2, requests, ResourceMemory, ResourceRequestsMemory, k);
    WriteLimitKey(r3, limits, ResourceMemory, ResourceLimitsMemory, k);
    WriteRequestKey(r4, requests, ResourceEphemeralStorage, ResourceRequestsEphemeralStorage, k);
    WriteLimitKey(r5, limits, ResourceEphemeralStorage, ResourceLimitsEphemeralStorage, k);
    WriteRequestKey(r6, requests, ResourceGPU, ResourceRequestsGPU, k);
  }

  /** The fixed part only ever writes names of the fixed set. */
  lemma FixedUsageNamesOnly(requests: ResourceList, limits: ResourceList)
    ensures FixedUsage(requests, limits).Keys <= FixedUsageNames
  {
  }

  /** A core request name and its alias both take their value from the request under that name. */
  lemma CoreRequestSource(n: ResourceName)
    requires IsCoreRequestName(n)
    ensures FixedSourceOf(n) == FromRequest(n)
    ensures FixedSourceOf(RequestsAlias(n)) == FromRequest(n)
  {
    if n == ResourceCPU {
      CoreRequestSourceCPU();
    } else if n == ResourceMemory {
      CoreRequestSourceMemory();
    } else if n == ResourceEphemeralStorage {
      CoreRequestSourceEphemeralStorage();
    } else {
      CoreRequestSourceGPU();
    }
  }

  lemma CoreRequestSourceCPU()
    ensures FixedSourceOf(ResourceCPU) == FromRequest(ResourceCPU)
    ensures FixedSourceOf(RequestsAlias(ResourceCPU)) == FromRequest(ResourceCPU)
    ensures RequestsAlias(ResourceCPU) == ResourceRequestsCPU
  {
    assert RequestsAlias(ResourceCPU) == ResourceRequestsCPU;
  }

  lemma CoreRequestSourceMemory()
    ensures FixedSourceOf(ResourceMemory) == FromRequest(ResourceMemory)
    ensures FixedSourceOf(RequestsAlias(ResourceMemory)) == FromRequest(ResourceMemory)
    ensures RequestsAlias(ResourceMemory) == ResourceRequestsMemory
  {
    assert RequestsAlias(ResourceMemory) == ResourceRequestsMemory;
  }

  lemma CoreRequestSourceEphemeralStorage()
    ensures FixedSourceOf(ResourceEphemeralStorage) == FromRequest(ResourceEphemeralStorage)
    ensures FixedSourceOf(RequestsAlias(ResourceEphemeralStorage)) == FromRequest(ResourceEphemeralStorage)
    ensures RequestsAlias(ResourceEphemeralStorage) == ResourceRequestsEphemeralStorage
  {
    RequestsAliasEphemeralStorage();
    FixedSourcesEphemeralStorage();
  }

  lemma RequestsAliasEphemeralStorage()
    ensures RequestsAlias(ResourceEphemeralStorage) == ResourceRequestsEphemeralStorage
  {
    assert RequestsAlias(ResourceEphemeralStorage) == ResourceRequestsEphemeralStorage;
  }

  lemma FixedSourcesEphemeralStorage()
    ensures FixedSourceOf(ResourceEphemeralStorage) == FromRequest(ResourceEphemeralStorage)
    ensures FixedSourceOf(ResourceRequestsEphemeralStorage) == FromRequest(ResourceEphemeralStorage)
  {
  }

  lemma CoreRequestSourceGPU()
    ensures FixedSourceOf(ResourceGPU) == FromRequest(ResourceGPU)
    ensures FixedSourceOf(RequestsAlias(ResourceGPU)) == FromRequest(ResourceGPU)
    ensures RequestsAlias(ResourceGPU) == ResourceRequestsGPU
  {
    RequestsAliasGPU();
    FixedSourcesGPU();
  }

  lemma RequestsAliasGPU()
    ensures RequestsAlias(ResourceGPU) == ResourceRequestsGPU
  {
    assert RequestsAlias(ResourceGPU) == ResourceRequestsGPU;
  }

  lemma FixedSourcesGPU()
    ensures FixedSourceOf(ResourceGPU) == FromRequest(ResourceGPU)
    ensures FixedSourceOf(ResourceRequestsGPU) == FromRequest(ResourceGPU)
  {
  }

  /** The fixed part writes a core request under its name and its alias. */
  lemma FixedUsageRequest(requests: ResourceList, limits: ResourceList, n: ResourceName)
    requires IsCoreRequestName(n)
    ensures var f := FixedUsage(requests, limits);
      && (n in f <==> n in requests)
      && (RequestsAlias(n) in f <==> n in requests)
      && (n in requests ==> f[n] == requests[n] && f[RequestsAlias(n)] == requests[n])
  {
    CoreRequestSource(n);
    FixedUsageKey(requests, limits, n);
    FixedUsageKey(requests, limits, RequestsAlias(n));
  }

  /** Key-by-key description of the per-container usage. */
  lemma ComputeUsageHelperKey(h: Helpers, requests: ResourceList, limits: ResourceList, k: ResourceName)
    ensures var u := ComputeUsageHelper(h, requests, limits);
      && (k in u <==> k in FixedUsage(requests, limits)
                      || (AliasSource(k) in requests && AliasEligible(h, k)))
      && (k in u && AliasSource(k) in requests && AliasEligible(h, k) ==> u[k] == requests[AliasSource(k)])
      && (k in u && !(AliasSource(k) in requests && AliasEligible(h, k)) ==> u[k] == FixedUsage(requests, limits)[k])
  {
    RequestAliasesOverKey(h, requests, requests.Keys, k);
  }

  /** Every pod is charged exactly one `pods` per container usage, whatever it requests. */
  lemma ComputeUsageHelperChargesPods(h: Helpers, requests: ResourceList, limits: ResourceList)
    ensures var u := ComputeUsageHelper(h, requests, limits);
            ResourcePods in u && u[ResourcePods] == 1
  {
    ComputeUsageHelperKey(h, requests, limits, ResourcePods);
    FixedUsageKey(requests, limits, ResourcePods);
    assert !HasPrefix(ResourcePods, RequestsPrefix);
    assert !HasPrefix(ResourcePods, HugePagesPrefix);
    assert !IsHugePages(ResourcePods);
  }

  /** A name the fixed part charges a request to, under its own name and its `requests.` alias. */
  predicate IsCoreRequestName(n: ResourceName) {
    n == ResourceCPU || n == ResourceMemory || n == ResourceEphemeralStorage || n == ResourceGPU
  }

  /** The loop over the requests never writes a core request name itself. */
  lemma CoreRequestNameNotAliased(h: Helpers, n: ResourceName)
    requires IsCoreRequestName(n)
    ensures AliasSource(n) == n && !AliasEligible(h, n)
    ensures AliasSource(RequestsAlias(n)) == n
  {
    FirstCharRulesOutPrefix(n, RequestsPrefix);
    FirstCharRulesOutPrefix(n, HugePagesPrefix);
    assert !IsHugePages(n);
  }

  /**
   * A cpu, memory, ephemeral-storage or GPU request is charged under its own
   * name and under its `requests.` alias, with the requested value; without a
   * request neither name appears.
   */
  lemma ComputeUsageHelperRequestAliases(h: Helpers, requests: ResourceList, limits: ResourceList, n: ResourceName)
    requires IsCoreRequestName(n)
    ensures var u := ComputeUsageHelper(h, requests, limits);
      && (n in u <==> n in requests)
      && (RequestsAlias(n) in u <==> n in requests)
      && (n in requests ==> u[n] == requests[n] && u[RequestsAlias(n)] == requests[n])
  {
    FixedUsageRequest(requests, limits, n);
    CoreRequestNameNotAliased(h, n);
    ComputeUsageHelperKey(h, requests, limits, n);
    ComputeUsageHelperKey(h, requests, limits, RequestsAlias(n));
  }

  /** A name the fixed part charges a limit to, under its `limits.` alias only. */
  predicate IsCoreLimitName(n: ResourceName) {
    n == ResourceCPU || n == ResourceMemory || n == ResourceEphemeralStorage
  }

  /** The limit-prefixed alias of a resource name. */
  function LimitsAlias(name: ResourceName): ResourceName {
    MaskResourceWithPrefix(name, LimitsPrefix)
  }

  /** The names the fixed part charges limits to. */
  const LimitNames: set<ResourceName> := {ResourceLimitsCPU, ResourceLimitsMemory, ResourceLimitsEphemeralStorage}

  lemma CoreLimitSourceCPU()
    ensures LimitsAlias(ResourceCPU) == ResourceLimitsCPU
    ensures FixedSourceOf(ResourceLimitsCPU) == FromLimit(ResourceCPU)
  {
  }

  lemma CoreLimitSourceMemory()
    ensures LimitsAlias(ResourceMemory) == ResourceLimitsMemory
    ensures FixedSourceOf(ResourceLimitsMemory) == FromLimit(ResourceMemory)
  {
  }

  lemma CoreLimitSourceEphemeralStorage()
    ensures LimitsAlias(ResourceEphemeralStorage) == ResourceLimitsEphemeralStorage
    ensures FixedSourceOf(ResourceLimitsEphemeralStorage) == FromLimit(ResourceEphemeralStorage)
  {
  }

  /** A `limits.` name is never written by the loop over the requests. */
  lemma LimitNameNotAliased(h: Helpers, k: ResourceName)
    requires |k| > 0 && k[0] == 'l'
    ensures AliasSource(k) == k && !AliasEligible(h, k)
  {
    FirstCharRulesOutPrefix(k, RequestsPrefix);
    FirstCharRulesOutPrefix(k, HugePagesPrefix);
    assert !IsHugePages(k);
  }

  /**
   * A cpu, memory or ephemeral-storage limit is charged under its `limits.`
   * name, with the declared value; without such a limit that name is absent.
   */
  lemma ComputeUsageHelperLimits(h: Helpers, requests: ResourceList, limits: ResourceList, n: ResourceName)
    requires IsCoreLimitName(n)
    ensures var u := ComputeUsageHelper(h, requests, limits);
      && (LimitsAlias(n) in u <==> n in limits)
      && (n in limits ==> u[LimitsAlias(n)] == limits[n])
  {
    if n == ResourceCPU {
      CoreLimitSourceCPU();
    } else if n == ResourceMemory {
      CoreLimitSourceMemory();
    } else {
      CoreLimitSourceEphemeralStorage();
    }
    var k := LimitsAlias(n);
    LimitNameNotAliased(h, k);
    ComputeUsageHelperKey(h, requests, limits, k);
    FixedUsageKey(requests, limits, k);
  }

  lemma GPULimitHasNoSource()
    ensures LimitsAlias(ResourceGPU) == "limits.nvidia.com/gpu"
    ensures FixedSourceOf("limits.nvidia.com/gpu") == NoSource
  {
  }

  /** A GPU limit is not charged at all: only the GPU request counts. */
  lemma ComputeUsageHelperIgnoresGPULimit(h: Helpers, requests: ResourceList, limits: ResourceList)
    ensures LimitsAlias(ResourceGPU) !in ComputeUsageHelper(h, requests, limits)
  {
    GPULimitHasNoSource();
    var k := LimitsAlias(ResourceGPU);
    LimitNameNotAliased(h, k);
    ComputeUsageHelperKey(h, requests, limits, k);
    FixedUsageKey(requests, limits, k);
  }

  /**
   * Limits are read only for the three `limits.` names: every other name is
   * charged the same whatever the container's limits are.
   */
  lemma ComputeUsageHelperLimitsOnlyThere(h: Helpers, requests: ResourceList, limits1: ResourceList, limits2: ResourceList, k: ResourceName)
    requires k !in LimitNames
    ensures var u1 := ComputeUsageHelper(h, requests, limits1);
            var u2 := ComputeUsageHelper(h, requests, limits2);
            (k in u1 <==> k in u2) && (k in u1 ==> u1[k] == u2[k])
  {
    LimitSourceOnlyLimitNames(k);
    FixedUsageIgnoresLimits(requests, limits1, limits2, k);
    ComputeUsageHelperKey(h, requests, limits1, k);
    ComputeUsageHelperKey(h, requests, limits2, k);
  }

  /** Only the three `limits.` names take their value from a limit. */
  lemma LimitSourceOnlyLimitNames(k: ResourceName)
    ensures FixedSourceOf(k).FromLimit? ==> k in LimitNames
  {
  }

  /** A name whose value does not come from a limit is written the same whatever the limits. */
  lemma FixedUsageIgnoresLimits(requests: ResourceList, limits1: ResourceList, limits2: ResourceList, k: ResourceName)
    requires !FixedSourceOf(k).FromLimit?
    ensures var f1 := FixedUsage(requests, limits1);
            var f2 := FixedUsage(requests, limits2);
            (k in f1 <==> k in f2) && (k in f1 ==> f1[k] == f2[k])
  {
    FixedUsageKey(requests, limits1, k);
    FixedUsageKey(requests, limits2, k);
  }

  /** A huge-pages request is charged under its own name and under its `requests.` alias. */
  lemma ComputeUsageHelperHugePages(h: Helpers, requests: ResourceList, limits: ResourceList, x: ResourceName)
    requires IsHugePages(x) && x in requests
    ensures var u := ComputeUsageHelper(h, requests, limits);
      && x in u && u[x] == requests[x]
      && RequestsAlias(x) in u && u[RequestsAlias(x)] == requests[x]
  {
    HugePagesNotRequestsPrefixed(x);
    ComputeUsageHelperKey(h, requests, limits, x);
    ComputeUsageHelperKey(h, requests, limits, RequestsAlias(x));
  }

  /** An extended resource request is charged under its `requests.` alias. */
  lemma ComputeUsageHelperExtendedAlias(h: Helpers, requests: ResourceList, limits: ResourceList, x: ResourceName)
    requires h.isExtendedResourceName(x) && x in requests
    ensures var u := ComputeUsageHelper(h, requests, limits);
            RequestsAlias(x) in u && u[RequestsAlias(x)] == requests[x]
  {
    ComputeUsageHelperKey(h, requests, limits, RequestsAlias(x));
  }

  /**
   * Apart from the GPU, which the fixed part names explicitly, an extended
   * resource is not charged under its own name: only its alias counts.
   */
  lemma ComputeUsageHelperExtendedOnlyAlias(h: Helpers, requests: ResourceList, limits: ResourceList, x: ResourceName)
    requires x !in FixedUsageNames && !IsHugePages(x) && !HasPrefix(x, RequestsPrefix)
    ensures x !in ComputeUsageHelper(h, requests, limits)
  {
    FixedUsageNamesOnly(requests, limits);
    ComputeUsageHelperKey(h, requests, limits, x);
  }

  /** The per-container usage never names the object-count resource. */
  lemma ComputeUsageHelperNoObjectCount(h: Helpers, requests: ResourceList, limits: ResourceList)
    ensures PodObjectCountName !in ComputeUsageHelper(h, requests, limits)
  {
    FirstCharRulesOutPrefix(PodObjectCountName, RequestsPrefix);
    FirstCharRulesOutPrefix(PodObjectCountName, HugePagesPrefix);
    assert !IsHugePages(PodObjectCountName);
    ComputeUsageHelperExtendedOnlyAlias(h, requests, limits, PodObjectCountName);
  }

  // ---------------------------------------------------------------------------
  // Per-pod usage
  // ---------------------------------------------------------------------------

  function RequestsOf(cs: seq<Container>): (r: seq<ResourceList>)
    ensures |r| == |cs| && forall i :: 0 <= i < |cs| ==> r[i] == cs[i].requests
  {
    seq(|cs|, i requires 0 <= i < |cs| => cs[i].requests)
  }

  function LimitsOf(cs: seq<Container>): (r: seq<ResourceList>)
    ensures |r| == |cs| && forall i :: 0 <= i < |cs| ==> r[i] == cs[i].limits
  {
    seq(|cs|, i requires 0 <= i < |cs| => cs[i].limits)
  }

  /**
   * The requests a pod is charged for: the app containers run together, so
   * their requests are summed; init containers run one at a time before
   * them, so the sum is raised to each init container's request.
   */
  function EffectiveRequests(pod: Pod): ResourceList {
    MaxAll(AddAll(map[], RequestsOf(pod.containers)), RequestsOf(pod.initContainers))
  }

  /** The limits a pod is charged for, combined as for the requests. */
  function EffectiveLimits(pod: Pod): ResourceList {
    MaxAll(AddAll(map[], LimitsOf(pod.containers)), LimitsOf(pod.initContainers))
  }

  /** Combining app containers by sum and init containers by maximum, per resource. */
  lemma EffectiveQty(apps: seq<ResourceList>, inits: seq<ResourceList>, k: ResourceName)
    requires AllNonNegative(apps) && AllNonNegative(inits)
    ensures Qty(MaxAll(AddAll(map[], apps), inits), k) == MaxInt(SumOf(apps, k), MaxOf(inits, k))
    ensures MaxAll(AddAll(map[], apps), inits).Keys == KeysOf(apps) + KeysOf(inits)
  {
    AddAllNonNegative(map[], apps);
    AddAllQty(map[], apps, k);
    MaxAllQty(AddAll(map[], apps), inits, k);
    AddAllKeys(map[], apps);
    MaxAllKeys(AddAll(map[], apps), inits);
  }

  /**
   * For each resource, a pod's effective request is the larger of the sum over
   * its app containers and the largest single init-container request; a
   * resource is named iff some container names it.
   */
  lemma EffectiveRequestsQty(pod: Pod, k: ResourceName)
    requires WellFormedPod(pod)
    ensures Qty(EffectiveRequests(pod), k)
            == MaxInt(SumOf(RequestsOf(pod.containers), k), MaxOf(RequestsOf(pod.initContainers), k))
    ensures EffectiveRequests(pod).Keys == KeysOf(RequestsOf(pod.containers)) + KeysOf(RequestsOf(pod.initContainers))
  {
    EffectiveQty(RequestsOf(pod.containers), RequestsOf(pod.initContainers), k);
  }

  /** The same rule for limits. */
  lemma EffectiveLimitsQty(pod: Pod, k: ResourceName)
    requires WellFormedPod(pod)
    ensures Qty(EffectiveLimits(pod), k)
            == MaxInt(SumOf(LimitsOf(pod.containers), k), MaxOf(LimitsOf(pod.initContainers), k))
    ensures EffectiveLimits(pod).Keys == KeysOf(LimitsOf(pod.containers)) + KeysOf(LimitsOf(pod.initContainers))
  {
    EffectiveQty(LimitsOf(pod.containers), LimitsOf(pod.initContainers), k);
  }

  /** The object-count usage every pod carries, charged or not. */
  const ObjectCountUsage: ResourceList := map[PodObjectCountName := 1]

  /**
   * The quota usage of an object (the source's PodUsageFunc). Anything but a
   * pod is an error. Every pod counts once under `count/pods`; a pod that is
   * still charged also carries the compute usage of its effective requests
   * and limits, `now` standing for the clock.
   */
  function PodUsage(h: Helpers, obj: Object, now: int): (r: Result<ResourceList, string>)
    ensures r.Err? <==> obj.OtherObject?
    ensures r.Ok? ==> PodObjectCountName in r.value && r.value[PodObjectCountName] == 1
    ensures r.Ok? && !QuotaV1Pod(obj.pod, now) ==> r.value == ObjectCountUsage
    ensures r.Ok? && QuotaV1Pod(obj.pod, now) ==> ResourcePods in r.value && r.value[ResourcePods] == 1
  {
    match obj
    case OtherObject(kind) => Err("expect *v1.Pod, got " + kind)
    case PodObject(pod) =>
      if !QuotaV1Pod(pod, now) then Ok(ObjectCountUsage)
      else
        var u := ComputeUsageHelper(h, EffectiveRequests(pod), EffectiveLimits(pod));
        ComputeUsageHelperNoObjectCount(h, EffectiveRequests(pod), EffectiveLimits(pod));
        ComputeUsageHelperChargesPods(h, EffectiveRequests(pod), EffectiveLimits(pod));
        assert Qty(ObjectCountUsage, ResourcePods) == 0;
        Ok(Add(ObjectCountUsage, u))
  }

  /** A charged pod's usage is its compute usage plus the object count, key by key. */
  lemma PodUsageKey(h: Helpers, pod: Pod, now: int, k: ResourceName)
    requires QuotaV1Pod(pod, now) && k != PodObjectCountName
    ensures var r := PodUsage(h, PodObject(pod), now).value;
            var u := ComputeUsageHelper(h, EffectiveRequests(pod), EffectiveLimits(pod));
            (k in r <==> k in u) && Qty(r, k) == Qty(u, k)
  {
  }

  /**
   * A charged pod is charged, under both the raw name and the `requests.` name
   * of cpu, memory, ephemeral storage and GPU, the larger of its app
   * containers' total request and its largest init-container request.
   */
  lemma PodUsageRequests(h: Helpers, pod: Pod, now: int, n: ResourceName)
    requires WellFormedPod(pod) && QuotaV1Pod(pod, now) && IsCoreRequestName(n)
    ensures var r := PodUsage(h, PodObject(pod), now).value;
            var expected := MaxInt(SumOf(RequestsOf(pod.containers), n), MaxOf(RequestsOf(pod.initContainers), n));
            Qty(r, n) == expected && Qty(r, RequestsAlias(n)) == expected
  {
    var requests := EffectiveRequests(pod);
    EffectiveRequestsQty(pod, n);
    ComputeUsageHelperRequestAliases(h, requests, EffectiveLimits(pod), n);
    CoreRequestNotObjectCount(n);
    PodUsageKey(h, pod, now, n);
    PodUsageKey(h, pod, now, RequestsAlias(n));
  }

  /** A charged pod's cpu, memory and ephemeral-storage limits combine by the same rule. */
  lemma PodUsageLimits(h: Helpers, pod: Pod, now: int, n: ResourceName)
    requires WellFormedPod(pod) && QuotaV1Pod(pod, now) && IsCoreLimitName(n)
    ensures var r := PodUsage(h, PodObject(pod), now).value;
            Qty(r, LimitsAlias(n))
            == MaxInt(SumOf(LimitsOf(pod.containers), n), MaxOf(LimitsOf(pod.initContainers), n))
  {
    EffectiveLimitsQty(pod, n);
    ComputeUsageHelperLimits(h, EffectiveRequests(pod), EffectiveLimits(pod), n);
    FirstCharRulesOutPrefix(LimitsAlias(n), PodObjectCountName);
    PodUsageKey(h, pod, now, LimitsAlias(n));
  }

  lemma CoreRequestNotObjectCount(n: ResourceName)
    requires IsCoreRequestName(n)
    ensures n != PodObjectCountName && RequestsAlias(n) != PodObjectCountName
  {
    FirstCharRulesOutPrefix(RequestsAlias(n), PodObjectCountName);
  }

  // ---------------------------------------------------------------------------
  // Matching resources
  // ---------------------------------------------------------------------------

  /**
   * The filter step of `quota.Intersection` (pkg/quota): the names of `a`
   * that `b` also holds, each once. The library then sorts its result; that
   * sort is not modelled, and the callers here use only membership.
   */
  function Intersection(a: seq<ResourceName>, b: seq<ResourceName>): (r: seq<ResourceName>)
    ensures forall x :: x in r <==> x in a && x in b
    ensures NoDuplicates(r)
  {
    IntersectionFrom(a, b, [])
  }

  /** The library loop, `acc` holding the names kept so far. */
  function IntersectionFrom(a: seq<ResourceName>, b: seq<ResourceName>, acc: seq<ResourceName>): (r: seq<ResourceName>)
    requires NoDuplicates(acc)
    ensures forall x :: x in r <==> x in acc || (x in a && x in b)
    ensures NoDuplicates(r)
    decreases |a|
  {
    if a == [] then acc
    else if a[0] in acc || a[0] !in b then IntersectionFrom(a[1..], b, acc)
    else IntersectionFrom(a[1..], b, acc + [a[0]])
  }

  /** A quota resource name the pod evaluator tracks. */
  predicate Recognised(h: Helpers, name: ResourceName) {
    name in PodResources || ContainsPrefix(PodResourcePrefixes, name) || IsExtendedResourceNameForQuota(h, name)
  }

  /** The names of `input` with a huge-pages prefix or of an extended resource, in input order. */
  function PrefixedAndExtended(h: Helpers, input: seq<ResourceName>): (r: seq<ResourceName>)
    ensures forall x :: x in r <==> x in input && (ContainsPrefix(PodResourcePrefixes, x) || IsExtendedResourceNameForQuota(h, x))
  {
    if input == [] then []
    else
      (if ContainsPrefix(PodResourcePrefixes, input[0]) then [input[0]] else [])
      + (if IsExtendedResourceNameForQuota(h, input[0]) then [input[0]] else [])
      + PrefixedAndExtended(h, input[1..])
  }

  /**
   * The quota resources of `input` the pod evaluator tracks: the fixed pod
   * resources, then every huge-pages or extended resource name.
   */
  function MatchingResources(h: Helpers, input: seq<ResourceName>): (r: seq<ResourceName>)
    ensures forall x :: x in r <==> x in input && Recognised(h, x)
  {
    Intersection(input, PodResources) + PrefixedAndExtended(h, input)
  }

  /**
   * The library's extended-resource test, as the Kubernetes helpers define it:
   * an extended resource name is not itself native, and its `requests.` form
   * is not native either.
   */
  ghost predicate ExtendedNamesForQuota(h: Helpers) {
    forall n :: h.isExtendedResourceName(n) ==> !h.isNativeResource(RequestsAlias(n))
  }

  lemma HugePagesAliasPrefixed(k: ResourceName)
    requires HasPrefix(k, RequestsPrefix) && HasPrefix(k[|RequestsPrefix|..], HugePagesPrefix)
    ensures HasPrefix(k, RequestsHugePagesPrefix)
  {
    assert k[..|RequestsHugePagesPrefix|] == k[..|RequestsPrefix|] + k[|RequestsPrefix|..][..|HugePagesPrefix|];
  }

  /**
   * Every name the per-container usage charges is one the evaluator tracks in
   * a quota, so no charge escapes every quota by its name alone.
   */
  lemma ComputeUsageHelperRecognised(h: Helpers, requests: ResourceList, limits: ResourceList, k: ResourceName)
    requires ExtendedNamesForQuota(h)
    requires k in ComputeUsageHelper(h, requests, limits)
    ensures Recognised(h, k)
  {
    ComputeUsageHelperKey(h, requests, limits, k);
    if k in FixedUsage(requests, limits) {
      FixedUsageNamesOnly(requests, limits);
      assert k in PodResources;
    } else if HasPrefix(k, RequestsPrefix) {
      var x := k[|RequestsPrefix|..];
      if IsHugePages(x) {
        assert HasPrefix(x, RequestedResourcePrefixes[0]);
        HugePagesAliasPrefixed(k);
        assert HasPrefix(k, PodResourcePrefixes[1]);
      } else {
        RequestsAliasOf(k);
        assert h.isExtendedResourceName(x);
      }
    } else {
      assert HasPrefix(k, RequestedResourcePrefixes[0]);
      assert HasPrefix(k, PodResourcePrefixes[0]);
    }
  }

  /** Every name a pod's usage carries is tracked by the evaluator. */
  lemma PodUsageRecognised(h: Helpers, pod: Pod, now: int, k: ResourceName)
    requires ExtendedNamesForQuota(h)
    requires k in PodUsage(h, PodObject(pod), now).value
    ensures Recognised(h, k)
  {
    if k == PodObjectCountName {
      assert k in PodResources;
    } else {
      PodUsageKey(h, pod, now, k);
      ComputeUsageHelperRecognised(h, EffectiveRequests(pod), EffectiveLimits(pod), k);
    }
  }

  // ---------------------------------------------------------------------------
  // The legacy "must specify" validation
  // ---------------------------------------------------------------------------

  /** Why Constraints rejects an object. */
  datatype ConstraintsError = NotAPod(kind: string) | MustSpecify(missing: set<ResourceName>)

  /**
   * The required names one container fails to carry among its usage keys
   * (the source's enforcePodContainerConstraints).
   */
  function ContainerMissing(h: Helpers, c: Container, requiredSet: set<ResourceName>): (r: set<ResourceName>)
    ensures r == requiredSet - ComputeUsageHelper(h, c.requests, c.limits).Keys
  {
    var containerSet := ComputeUsageHelper(h, c.requests, c.limits).Keys;
    if containerSet == requiredSet then {} else requiredSet - containerSet
  }

  /** Collects the missing names of each container in turn into `missing`. */
  function MissingOver(h: Helpers, cs: seq<Container>, requiredSet: set<ResourceName>, missing: set<ResourceName>): set<ResourceName>
    decreases |cs|
  {
    if cs == [] then missing
    else MissingOver(h, cs[1..], requiredSet, missing + ContainerMissing(h, cs[0], requiredSet))
  }

  /**
   * Checks that every container and init container of a pod declares each
   * required name of the legacy validation set; `None` means the pod passes.
   */
  function Constraints(h: Helpers, required: seq<ResourceName>, obj: Object): (r: Option<ConstraintsError>)
    ensures r.Some? && r.value.NotAPod? <==> obj.OtherObject?
    ensures r.Some? && r.value.MustSpecify? ==> r.value.missing != {} && r.value.missing <= ValidationSet
  {
    match obj
    case OtherObject(kind) => Some(NotAPod(kind))
    case PodObject(pod) =>
      var requiredSet := Elements(required) * ValidationSet;
      var missing := MissingOver(h, pod.initContainers, requiredSet, MissingOver(h, pod.containers, requiredSet, {}));
      MissingOverBounded(h, pod.containers, requiredSet, {});
      MissingOverBounded(h, pod.initContainers, requiredSet, MissingOver(h, pod.containers, requiredSet, {}));
      if missing == {} then None else Some(MustSpecify(missing))
  }

  lemma {:induction false} MissingOverBounded(h: Helpers, cs: seq<Container>, requiredSet: set<ResourceName>, missing: set<ResourceName>)
    ensures MissingOver(h, cs, requiredSet, missing) <= missing + requiredSet
    decreases |cs|
  {
    if cs != [] {
      MissingOverBounded(h, cs[1..], requiredSet, missing + ContainerMissing(h, cs[0], requiredSet));
    }
  }

  /**
   * Reference reading of the validation set: what a container must declare
   * for each of its six names.
   */
  predicate Declares(c: Container, n: ResourceName) {
    if n == ResourceLimitsCPU then ResourceCPU in c.limits
    else if n == ResourceLimitsMemory then ResourceMemory in c.limits
    else if n == ResourceCPU || n == ResourceRequestsCPU then ResourceCPU in c.requests
    else if n == ResourceMemory || n == ResourceRequestsMemory then ResourceMemory in c.requests
    else false
  }

  /** For the six validated names, carrying the name among the usage keys is declaring it. */
  lemma UsageKeyIsDeclaration(h: Helpers, c: Container, n: ResourceName)
    requires n in ValidationSet
    ensures n in ComputeUsageHelper(h, c.requests, c.limits) <==> Declares(c, n)
  {
    if n == ResourceLimitsCPU || n == ResourceLimitsMemory {
      LimitKeyIsDeclaration(h, c, n);
    } else if n == ResourceCPU || n == ResourceRequestsCPU {
      CPUKeyIsDeclaration(h, c, n);
    } else {
      MemoryKeyIsDeclaration(h, c, n);
    }
  }

  lemma LimitKeyIsDeclaration(h: Helpers, c: Container, n: ResourceName)
    requires n == ResourceLimitsCPU || n == ResourceLimitsMemory
    ensures n in ComputeUsageHelper(h, c.requests, c.limits) <==> Declares(c, n)
  {
    if n == ResourceLimitsCPU {
      CoreLimitSourceCPU();
      ComputeUsageHelperLimits(h, c.requests, c.limits, ResourceCPU);
    } else {
      CoreLimitSourceMemory();
      ComputeUsageHelperLimits(h, c.requests, c.limits, ResourceMemory);
    }
  }

  lemma CPUKeyIsDeclaration(h: Helpers, c: Container, n: ResourceName)
    requires n == ResourceCPU || n == ResourceRequestsCPU
    ensures n in ComputeUsageHelper(h, c.requests, c.limits) <==> Declares(c, n)
  {
    CoreRequestSourceCPU();
    ComputeUsageHelperRequestAliases(h, c.requests, c.limits, ResourceCPU);
  }

  lemma MemoryKeyIsDeclaration(h: Helpers, c: Container, n: ResourceName)
    requires n == ResourceMemory || n == ResourceRequestsMemory
    ensures n in ComputeUsageHelper(h, c.requests, c.limits) <==> Declares(c, n)
  {
    CoreRequestSourceMemory();
    ComputeUsageHelperRequestAliases(h, c.requests, c.limits, ResourceMemory);
  }

  /** The names of `requiredSet` some container of `cs` does not declare. */
  ghost function Undeclared(cs: seq<Container>, requiredSet: set<ResourceName>): set<ResourceName> {
    set n | n in requiredSet && exists i :: 0 <= i < |cs| && !Declares(cs[i], n)
  }

  /** The names of `requiredSet` one container does not declare. */
  ghost function UndeclaredBy(c: Container, requiredSet: set<ResourceName>): set<ResourceName> {
    set n | n in requiredSet && !Declares(c, n)
  }

  /** One container misses exactly the required names it does not declare. */
  lemma ContainerMissingIsUndeclared(h: Helpers, c: Container, requiredSet: set<ResourceName>)
    requires requiredSet <= ValidationSet
    ensures ContainerMissing(h, c, requiredSet) == UndeclaredBy(c, requiredSet)
  {
    var step := ContainerMissing(h, c, requiredSet);
    forall n | n in requiredSet
      ensures n in step <==> n in UndeclaredBy(c, requiredSet)
    {
      UsageKeyIsDeclaration(h, c, n);
    }
  }

  /** The first container's undeclared names and the rest's make up the whole's. */
  lemma UndeclaredCons(cs: seq<Container>, requiredSet: set<ResourceName>)
    requires cs != []
    ensures Undeclared(cs, requiredSet) == UndeclaredBy(cs[0], requiredSet) + Undeclared(cs[1..], requiredSet)
  {
    forall n | n in Undeclared(cs, requiredSet)
      ensures n in UndeclaredBy(cs[0], requiredSet) + Undeclared(cs[1..], requiredSet)
    {
      var i :| 0 <= i < |cs| && !Declares(cs[i], n);
      if i > 0 {
        assert cs[1..][i - 1] == cs[i];
      }
    }
    forall n | n in Undeclared(cs[1..], requiredSet)
      ensures n in Undeclared(cs, requiredSet)
    {
      var i :| 0 <= i < |cs[1..]| && !Declares(cs[1..][i], n);
      assert cs[i + 1] == cs[1..][i];
    }
  }

  /** Undeclared names of a concatenation are those of either part. */
  lemma UndeclaredAppend(a: seq<Container>, b: seq<Container>, requiredSet: set<ResourceName>)
    ensures Undeclared(a + b, requiredSet) == Undeclared(a, requiredSet) + Undeclared(b, requiredSet)
  {
    var all := a + b;
    forall n | n in Undeclared(all, requiredSet)
      ensures n in Undeclared(a, requiredSet) + Undeclared(b, requiredSet)
    {
      var i :| 0 <= i < |all| && !Declares(all[i], n);
      if i >= |a| {
        assert b[i - |a|] == all[i];
      } else {
        assert a[i] == all[i];
      }
    }
    forall n | n in Undeclared(a, requiredSet)
      ensures n in Undeclared(all, requiredSet)
    {
      var i :| 0 <= i < |a| && !Declares(a[i], n);
      assert all[i] == a[i];
    }
    forall n | n in Undeclared(b, requiredSet)
      ensures n in Undeclared(all, requiredSet)
    {
      var i :| 0 <= i < |b| && !Declares(b[i], n);
      assert all[|a| + i] == b[i];
    }
  }

  /** The collected missing names are exactly the undeclared ones. */
  lemma {:induction false} MissingOverIsUndeclared(h: Helpers, cs: seq<Container>, requiredSet: set<ResourceName>, missing: set<ResourceName>)
    requires requiredSet <= ValidationSet
    ensures MissingOver(h, cs, requiredSet, missing) == missing + Undeclared(cs, requiredSet)
    decreases |cs|
  {
    if cs != [] {
      ContainerMissingIsUndeclared(h, cs[0], requiredSet);
      MissingOverIsUndeclared(h, cs[1..], requiredSet, missing + ContainerMissing(h, cs[0], requiredSet));
      UndeclaredCons(cs, requiredSet);
    }
  }

  /**
   * A pod fails the validation exactly when some container or init container
   * fails to declare a required name of the validation set, and the error
   * lists exactly those names.
   */
  lemma ConstraintsExact(h: Helpers, required: seq<ResourceName>, pod: Pod)
    ensures var requiredSet := Elements(required) * ValidationSet;
            var missing := Undeclared(pod.containers + pod.initContainers, requiredSet);
            Constraints(h, required, PodObject(pod))
            == if missing == {} then None else Some(MustSpecify(missing))
  {
    var requiredSet := Elements(required) * ValidationSet;
    var m1 := MissingOver(h, pod.containers, requiredSet, {});
    var m := MissingOver(h, pod.initContainers, requiredSet, m1);
    MissingOverIsUndeclared(h, pod.containers, requiredSet, {});
    MissingOverIsUndeclared(h, pod.initContainers, requiredSet, m1);
    UndeclaredAppend(pod.containers, pod.initContainers, requiredSet);
    assert m == Undeclared(pod.containers + pod.initContainers, requiredSet);
  }

  /** A pod passes iff every container and init container declares every required validated name. */
  lemma ConstraintsPassIff(h: Helpers, required: seq<ResourceName>, pod: Pod)
    ensures Constraints(h, required, PodObject(pod)).None?
            <==> (forall c, n | c in pod.containers + pod.initContainers && n in required && n in ValidationSet :: Declares(c, n))
  {
    ConstraintsExact(h, required, pod);
    var all := pod.containers + pod.initContainers;
    var requiredSet := Elements(required) * ValidationSet;
    if Undeclared(all, requiredSet) == {} {
      forall c, n | c in all && n in required && n in ValidationSet
        ensures Declares(c, n)
      {
        var i :| 0 <= i < |all| && all[i] == c;
        var j :| 0 <= j < |required| && required[j] == n;
        assert n in requiredSet && n !in Undeclared(all, requiredSet);
      }
    } else {
      var n :| n in Undeclared(all, requiredSet);
      var i :| 0 <= i < |all| && !Declares(all[i], n);
      assert all[i] in all && n in required;
    }
  }

  /**
   * Quota on a resource outside the validation set (ephemeral storage, GPUs,
   * huge pages) never forces containers to declare it.
   */
  lemma ConstraintsIgnoreUnvalidated(h: Helpers, required: seq<ResourceName>, pod: Pod)
    requires forall i :: 0 <= i < |required| ==> required[i] !in ValidationSet
    ensures Constraints(h, required, PodObject(pod)) == None
  {
    ConstraintsExact(h, required, pod);
    assert Elements(required) * ValidationSet == {};
  }

  // ---------------------------------------------------------------------------
  // Scopes
  // ---------------------------------------------------------------------------

  const ScopeTerminating: string := "Terminating"
  const ScopeNotTerminating: string := "NotTerminating"
  const ScopeBestEffort: string := "BestEffort"
  const ScopeNotBestEffort: string := "NotBestEffort"
  const ScopePriorityClass: string := "PriorityClass"

  /** A pod with a non-negative active deadline is bounded in time. */
  predicate IsTerminating(pod: Pod) {
    pod.activeDeadlineSeconds.Some? && pod.activeDeadlineSeconds.value >= 0
  }

  /** The label set a priority-class selector is matched against: empty when the pod names no class. */
  function PriorityClassLabels(pod: Pod): (r: map<string, string>)
    ensures r.Keys <= {ScopePriorityClass}
    ensures ScopePriorityClass in r <==> pod.priorityClassName != ""
    ensures ScopePriorityClass in r ==> r[ScopePriorityClass] == pod.priorityClassName
  {
    if |pod.priorityClassName| != 0 then map[ScopePriorityClass := pod.priorityClassName] else map[]
  }

  /** Whether a pod matches a priority-class scope selector; fails when the selector does not convert. */
  function PodMatchesSelector(h: Helpers, pod: Pod, selector: ScopeSelector): (r: Result<bool, string>)
    ensures r.Err? <==> h.toLabelSelector(selector).Err?
    ensures r.Ok? ==> r.value == h.toLabelSelector(selector).value(PriorityClassLabels(pod))
  {
    match h.toLabelSelector(selector)
    case Err(e) => Err("failed to parse and convert selector: " + e)
    case Ok(matches) => Ok(matches(PriorityClassLabels(pod)))
  }

  /**
   * Whether an object falls in a quota scope. Only pods can be matched; a
   * scope name the evaluator does not know matches nothing.
   */
  function PodMatchesScope(h: Helpers, selector: ScopeSelector, obj: Object): (r: Result<bool, string>)
    ensures r.Err? <==> obj.OtherObject?
                        || (selector.scopeName == ScopePriorityClass && h.toLabelSelector(selector).Err?)
  {
    match obj
    case OtherObject(kind) => Err("expect *v1.Pod, got " + kind)
    case PodObject(pod) =>
      if selector.scopeName == ScopeTerminating then Ok(IsTerminating(pod))
      else if selector.scopeName == ScopeNotTerminating then Ok(!IsTerminating(pod))
      else if selector.scopeName == ScopeBestEffort then Ok(h.isBestEffort(pod))
      else if selector.scopeName == ScopeNotBestEffort then Ok(!h.isBestEffort(pod))
      else if selector.scopeName == ScopePriorityClass then PodMatchesSelector(h, pod, selector)
      else Ok(false)
  }

  /**
   * Terminating holds exactly for pods with a non-negative active deadline,
   * and NotTerminating is its complement.
   */
  lemma TerminatingScopes(h: Helpers, pod: Pod, s1: ScopeSelector, s2: ScopeSelector)
    requires s1.scopeName == ScopeTerminating && s2.scopeName == ScopeNotTerminating
    ensures var r1 := PodMatchesScope(h, s1, PodObject(pod));
            var r2 := PodMatchesScope(h, s2, PodObject(pod));
            && r1.Ok? && r2.Ok? && r1.value == !r2.value
            && (r1.value <==> pod.activeDeadlineSeconds.Some? && pod.activeDeadlineSeconds.value >= 0)
  {
  }

  /** BestEffort follows the QoS class and NotBestEffort is its complement. */
  lemma BestEffortScopes(h: Helpers, pod: Pod, s1: ScopeSelector, s2: ScopeSelector)
    requires s1.scopeName == ScopeBestEffort && s2.scopeName == ScopeNotBestEffort
    ensures var r1 := PodMatchesScope(h, s1, PodObject(pod));
            var r2 := PodMatchesScope(h, s2, PodObject(pod));
            && r1.Ok? && r2.Ok? && r1.value == !r2.value && r1.value == h.isBestEffort(pod)
  {
  }

  /** A scope name the evaluator does not know matches no pod, without error. */
  lemma UnknownScopeMatchesNothing(h: Helpers, pod: Pod, s: ScopeSelector)
    requires s.scopeName !in {ScopeTerminating, ScopeNotTerminating, ScopeBestEffort, ScopeNotBestEffort, ScopePriorityClass}
    ensures PodMatchesScope(h, s, PodObject(pod)) == Ok(false)
  {
  }

  /** The selectors an arbitrary scope test accepts, each as often as listed, in list order. */
  function AcceptedBy(test: ScopeSelector -> Result<bool, string>, selectors: seq<ScopeSelector>): (r: seq<ScopeSelector>)
    ensures forall s :: s in r <==> s in selectors && test(s) == Ok(true)
    ensures Subsequence(r, selectors)
    ensures forall s :: multiset(r)[s] == if test(s) == Ok(true) then multiset(selectors)[s] else 0
    decreases |selectors|
  {
    if selectors == [] then []
    else
      var rest := AcceptedBy(test, selectors[1..]);
      assert [selectors[0]] + selectors[1..] == selectors;
      assert multiset(selectors) == multiset{selectors[0]} + multiset(selectors[1..]);
      SubsequenceSkip(rest, selectors[1..], selectors[0]);
      if test(selectors[0]) == Ok(true) then
        SubsequenceCons(rest, selectors[1..], selectors[0]);
        [selectors[0]] + rest
      else rest
  }

  /**
   * The loop of MatchingScopes over an arbitrary scope test: the first
   * selector the test cannot evaluate aborts the whole call, otherwise the
   * result is what the test accepts.
   */
  function MatchingScopesBy(test: ScopeSelector -> Result<bool, string>, selectors: seq<ScopeSelector>): (r: Result<seq<ScopeSelector>, string>)
    ensures r.Err? <==> exists i :: 0 <= i < |selectors| && test(selectors[i]).Err?
    ensures r.Ok? ==> r.value == AcceptedBy(test, selectors)
    decreases |selectors|
  {
    if selectors == [] then Ok([])
    else
      var first := test(selectors[0]);
      var rest := MatchingScopesBy(test, selectors[1..]);
      assert forall i :: 1 <= i < |selectors| ==> selectors[i] == selectors[1..][i - 1];
      if first.Err? then Err("error on matching scope " + selectors[0].scopeName + ": " + first.error)
      else if rest.Err? then
        assert exists i :: 1 <= i < |selectors| && test(selectors[i]).Err? by {
          var j :| 0 <= j < |selectors[1..]| && test(selectors[1..][j]).Err?;
          assert selectors[j + 1] == selectors[1..][j];
        }
        rest
      else if first.value then Ok([selectors[0]] + rest.value)
      else rest
  }

  /**
   * The selectors an object matches, each as often as it is listed and in
   * list order; the first selector that cannot be evaluated aborts the call.
   */
  function MatchingScopes(h: Helpers, obj: Object, selectors: seq<ScopeSelector>): (r: Result<seq<ScopeSelector>, string>)
    ensures r.Err? <==> exists i :: 0 <= i < |selectors| && PodMatchesScope(h, selectors[i], obj).Err?
    ensures r.Ok? ==> forall s :: s in r.value <==> s in selectors && PodMatchesScope(h, s, obj) == Ok(true)
    ensures r.Ok? ==> Subsequence(r.value, selectors)
    ensures r.Ok? ==> forall s :: multiset(r.value)[s] == if PodMatchesScope(h, s, obj) == Ok(true) then multiset(selectors)[s] else 0
  {
    MatchingScopesBy(s => PodMatchesScope(h, s, obj), selectors)
  }

  /** Whether some matched quota selector has the same scope name (the source's inner loop). */
  function CoveredBy(matched: seq<ScopeSelector>, selector: ScopeSelector): (r: bool)
    ensures r <==> exists j :: 0 <= j < |matched| && matched[j].scopeName == selector.scopeName
    decreases |matched|
  {
    if matched == [] then false
    else if matched[0].scopeName == selector.scopeName then true
    else
      var r := CoveredBy(matched[1..], selector);
      assert forall j :: 1 <= j < |matched| ==> matched[j] == matched[1..][j - 1];
      r
  }

  /**
   * The limited scopes no matched quota scope covers by name, in order. The
   * source never reports an error here.
   */
  function UncoveredQuotaScopes(limited: seq<ScopeSelector>, matched: seq<ScopeSelector>): (r: seq<ScopeSelector>)
    ensures forall s :: s in r <==> s in limited && forall m :: m in matched ==> m.scopeName != s.scopeName
    ensures Subsequence(r, limited)
    ensures forall s :: multiset(r)[s] == if CoveredBy(matched, s) then 0 else multiset(limited)[s]
    decreases |limited|
  {
    if limited == [] then []
    else
      var rest := UncoveredQuotaScopes(limited[1..], matched);
      assert [limited[0]] + limited[1..] == limited;
      assert multiset(limited) == multiset{limited[0]} + multiset(limited[1..]);
      SubsequenceSkip(rest, limited[1..], limited[0]);
      if CoveredBy(matched, limited[0]) then rest
      else
        SubsequenceCons(rest, limited[1..], limited[0]);
        [limited[0]] + rest
  }

  /** The evaluator only takes part in admission of creations. */
  predicate Handles(op: Operation) {
    op == Create
  }

  /**
   * Only the admission of a new pod is charged: updates, deletions and
   * connections pass the pod evaluator by.
   */
  lemma HandlesOnlyCreate(op: Operation)
    ensures Handles(op) <==> op.Create?
    ensures op.Update? || op.Delete? || op.Connect? ==> !Handles(op)
  {
  }
}
