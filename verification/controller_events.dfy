/**
 * What wakes the shared-quota controller up: the event filters on shared
 * quotas and on the pods, services and claims whose usage they charge, and
 * the mapper that turns a change in a namespace into the shared quotas to
 * reconcile.
 */
module ControllerEvents {
  import opened Results
  import opened Resources
  import opened Seqs
  import opened QuotaApi
  import PodEvaluator

  // ---------------------------------------------------------------------------
  // Event filters
  // ---------------------------------------------------------------------------

  /** How a watched pod, service or claim changed between two observations. */
  datatype Change =
    | PodChange(previous: PodEvaluator.Pod, current: PodEvaluator.Pod)
    | ServiceChange(previousGeneration: int, previousType: string, currentGeneration: int, currentType: string)
    | ClaimChange(previousGeneration: int, currentGeneration: int)

  /** An informer event on a pod, service or persistent volume claim. */
  datatype ResourceEvent = Created | Updated(change: Change) | Deleted | Generic

  /** An informer event on a shared quota. */
  datatype QuotaEvent = QuotaCreated | QuotaUpdated(previous: SharedQuota, current: SharedQuota) | QuotaDeleted | QuotaGeneric

  /** The metadata generation moved. */
  predicate GenerationChanged(c: Change) {
    match c
    case PodChange(a, b) => a.generation != b.generation
    case ServiceChange(g1, _, g2, _) => g1 != g2
    case ClaimChange(g1, g2) => g1 != g2
  }

  /** The create, delete and generic handlers given for pods, services and claims. */
  function LifecycleFilter(e: ResourceEvent): (r: bool)
    requires !e.Updated?
    ensures r <==> e.Deleted?
  {
    match e
    case Created => false
    case Generic => false
    case Deleted => true
  }

  /**
   * The filter in effect on pods, services and claims. The predicate value is
   * a generation-changed predicate embedding a set of handler functions; its
   * own update method takes precedence over the embedded one, so the update
   * handler written beside it is never consulted and an update passes exactly
   * when the generation moved.
   */
  function ResourceFilter(e: ResourceEvent): (r: bool)
    ensures e.Created? || e.Generic? ==> !r
    ensures e.Deleted? ==> r
    ensures e.Updated? ==> (r <==> GenerationChanged(e.change))
  {
    if e.Updated? then GenerationChanged(e.change) else LifecycleFilter(e)
  }

  /**
   * The filter the handlers describe: a pod update matters when the pod stops
   * being charged, a service update when its quota type changes, and every
   * claim update matters.
   */
  function IntendedResourceFilter(e: ResourceEvent, now: int): (r: bool)
    ensures !e.Updated? ==> r == ResourceFilter(e)
    ensures e.Updated? && e.change.PodChange? ==>
              (r <==> PodEvaluator.QuotaV1Pod(e.change.previous, now) && !PodEvaluator.QuotaV1Pod(e.change.current, now))
  {
    match e
    case Updated(c) =>
      (match c
       case PodChange(a, b) => PodEvaluator.QuotaV1Pod(a, now) && !PodEvaluator.QuotaV1Pod(b, now)
       case ServiceChange(_, t1, _, t2) => t1 != t2
       case ClaimChange(_, _) => true)
    case _ => LifecycleFilter(e)
  }

  /**
   * Under the intended filter an enqueued pod update is one that releases the
   * pod's compute charge: the new usage is the bare object count, and it
   * differs from the old usage.
   */
  lemma IntendedPodUpdateReleasesCharge(h: PodEvaluator.Helpers, a: PodEvaluator.Pod, b: PodEvaluator.Pod, now: int)
    requires IntendedResourceFilter(Updated(PodChange(a, b)), now)
    ensures PodEvaluator.PodUsage(h, PodEvaluator.PodObject(b), now) == Ok(PodEvaluator.ObjectCountUsage)
    ensures PodEvaluator.PodUsage(h, PodEvaluator.PodObject(a), now) != PodEvaluator.PodUsage(h, PodEvaluator.PodObject(b), now)
  {
    var before := PodEvaluator.PodUsage(h, PodEvaluator.PodObject(a), now);
    assert PodEvaluator.ResourcePods in before.value;
    assert PodEvaluator.ResourcePods !in PodEvaluator.ObjectCountUsage;
  }

  /**
   * The filter in effect drops a pod update that stops the charge without
   * moving the generation, such as a running pod reaching a terminal phase;
   * the intended filter enqueues it.
   */
  lemma ResourceFilterMissesRelease(a: PodEvaluator.Pod, b: PodEvaluator.Pod, now: int)
    requires a.generation == b.generation
    requires PodEvaluator.QuotaV1Pod(a, now) && !PodEvaluator.QuotaV1Pod(b, now)
    ensures !ResourceFilter(Updated(PodChange(a, b)))
    ensures IntendedResourceFilter(Updated(PodChange(a, b)), now)
  {
  }

  /** A running pod with no containers, not marked for deletion. */
  const RunningPod := PodEvaluator.Pod(1, None, None, None, "", PodEvaluator.Running, [], [])

  /** The concrete input: the running pod fails, its generation unchanged. */
  lemma PodFailureIsMissed(now: int)
    ensures !ResourceFilter(Updated(PodChange(RunningPod, RunningPod.(phase := PodEvaluator.Failed))))
    ensures IntendedResourceFilter(Updated(PodChange(RunningPod, RunningPod.(phase := PodEvaluator.Failed))), now)
  {
    ResourceFilterMissesRelease(RunningPod, RunningPod.(phase := PodEvaluator.Failed), now);
  }

  /**
   * The filter in effect on shared quotas: the generation-changed update
   * method shadows the spec comparison written beside it; create, delete and
   * generic events pass, no handler being given for them.
   */
  function QuotaFilter(e: QuotaEvent): (r: bool)
    ensures !e.QuotaUpdated? ==> r
    ensures e.QuotaUpdated? ==> (r <==> e.previous.meta.generation != e.current.meta.generation)
  {
    match e
    case QuotaUpdated(a, b) => a.meta.generation != b.meta.generation
    case _ => true
  }

  /** The filter the update handler describes: an update passes when the spec changed. */
  function IntendedQuotaFilter(e: QuotaEvent): (r: bool)
    ensures !e.QuotaUpdated? ==> r
    ensures e.QuotaUpdated? ==> (r <==> e.previous.spec != e.current.spec)
  {
    match e
    case QuotaUpdated(a, b) => a.spec != b.spec
    case _ => true
  }

  /**
   * For shared quotas the shadowing is harmless whenever the API server moves
   * the generation exactly on spec changes, as it does for a custom resource
   * with a status subresource.
   */
  lemma QuotaFiltersAgree(e: QuotaEvent)
    requires e.QuotaUpdated? ==> (e.previous.meta.generation == e.current.meta.generation <==> e.previous.spec == e.current.spec)
    ensures QuotaFilter(e) == IntendedQuotaFilter(e)
  {
  }

  // ---------------------------------------------------------------------------
  // Mapper
  // ---------------------------------------------------------------------------

  /** One registered evaluator's MatchingResources. */
  type Matcher = seq<ResourceName> -> seq<ResourceName>

  /** Some evaluator, tried in registry order until the first match, claims a resource name. */
  function AnyMatches(evaluators: seq<Matcher>, resources: seq<ResourceName>): (r: bool)
    ensures r <==> exists i :: 0 <= i < |evaluators| && |evaluators[i](resources)| > 0
    decreases |evaluators|
  {
    if evaluators == [] then false
    else if |evaluators[0](resources)| > 0 then true
    else
      var r := AnyMatches(evaluators[1..], resources);
      assert forall i :: 1 <= i < |evaluators| ==> evaluators[i] == evaluators[1..][i - 1];
      r
  }

  /**
   * The quota names to reconcile after a change in a namespace. `names` is
   * the lookup of the shared quotas selecting the namespace, `hardNames` the
   * fetch of a quota followed by the listing of its total hard resource names.
   * A failed lookup yields nothing; a failed fetch stops the walk and keeps
   * the names enqueued so far.
   */
  function Mapper(names: Result<seq<string>, string>, hardNames: string -> Result<seq<ResourceName>, string>,
                  evaluators: seq<Matcher>): (r: seq<string>)
    ensures names.Err? ==> r == []
    ensures names.Ok? ==> r == MapNames(names.value, hardNames, evaluators)
  {
    match names
    case Err(_) => []
    case Ok(quotaNames) => MapNames(quotaNames, hardNames, evaluators)
  }

  /** The walk over the quota names. */
  function MapNames(names: seq<string>, hardNames: string -> Result<seq<ResourceName>, string>,
                    evaluators: seq<Matcher>): (r: seq<string>)
    ensures Subsequence(r, names)
    ensures forall x :: x in r ==> hardNames(x).Ok? && AnyMatches(evaluators, hardNames(x).value)
    decreases |names|
  {
    if names == [] then []
    else
      match hardNames(names[0])
      case Err(_) => []
      case Ok(resources) =>
        var rest := MapNames(names[1..], hardNames, evaluators);
        assert [names[0]] + names[1..] == names;
        SubsequenceSkip(rest, names[1..], names[0]);
        if AnyMatches(evaluators, resources) then
          SubsequenceCons(rest, names[1..], names[0]);
          [names[0]] + rest
        else rest
  }

  /**
   * Every enqueued name is a listed quota, some evaluator claims one of its
   * hard resources, and names are enqueued in list order, each at most once
   * when the list has no duplicates.
   */
  lemma MapperSound(names: seq<string>, hardNames: string -> Result<seq<ResourceName>, string>, evaluators: seq<Matcher>)
    ensures var r := Mapper(Ok(names), hardNames, evaluators);
            && Subsequence(r, names)
            && (forall x :: x in r ==> x in names && hardNames(x).Ok? && AnyMatches(evaluators, hardNames(x).value))
            && (NoDuplicates(names) ==> NoDuplicates(r))
  {
    var r := Mapper(Ok(names), hardNames, evaluators);
    forall x | x in r
      ensures x in names
    {
      SubsequenceMembers(r, names, x);
    }
    if NoDuplicates(names) {
      SubsequenceNoDuplicates(r, names);
    }
  }

  /**
   * When every fetch succeeds nothing is lost: a listed quota is enqueued
   * exactly when some evaluator claims one of its hard resources.
   */
  lemma {:induction false} MapperComplete(names: seq<string>, hardNames: string -> Result<seq<ResourceName>, string>,
                                          evaluators: seq<Matcher>, x: string)
    requires forall i :: 0 <= i < |names| ==> hardNames(names[i]).Ok?
    ensures x in MapNames(names, hardNames, evaluators) <==>
            x in names && AnyMatches(evaluators, hardNames(x).value)
    decreases |names|
  {
    if names != [] {
      assert forall i :: 0 <= i < |names[1..]| ==> names[1..][i] == names[i + 1];
      MapperComplete(names[1..], hardNames, evaluators, x);
      assert x in names <==> x == names[0] || x in names[1..];
    }
  }

  /**
   * With the pod evaluator registered and every fetch succeeding, a quota
   * with a hard limit the pod evaluator recognises is enqueued.
   */
  lemma PodQuotaEnqueued(h: PodEvaluator.Helpers, names: seq<string>, hardNames: string -> Result<seq<ResourceName>, string>,
                         evaluators: seq<Matcher>, i: int, x: string, k: ResourceName)
    requires 0 <= i < |evaluators| && evaluators[i] == (input => PodEvaluator.MatchingResources(h, input))
    requires forall j :: 0 <= j < |names| ==> hardNames(names[j]).Ok?
    requires x in names && k in hardNames(x).value && PodEvaluator.Recognised(h, k)
    ensures x in Mapper(Ok(names), hardNames, evaluators)
  {
    var matched := PodEvaluator.MatchingResources(h, hardNames(x).value);
    assert k in matched;
    assert |evaluators[i](hardNames(x).value)| > 0;
    MapperComplete(names, hardNames, evaluators, x);
  }
}
