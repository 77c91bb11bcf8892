/**
 * The SharedQuota custom resource and the core ResourceQuota pieces it embeds.
 * Declarations only: the behaviour lives in the modules that use them.
 */
module QuotaApi {
  import opened Resources

  /** Hard limits and observed usage (core ResourceQuotaStatus). */
  datatype QuotaStatus = QuotaStatus(hard: ResourceList, used: ResourceList)

  /** The zero status: no limits and no usage. */
  const EmptyStatus := QuotaStatus(map[], map[])

  /** One row of the per-namespace breakdown (ResourceQuotaStatusByNamespace). */
  datatype NamespaceStatus = NamespaceStatus(namespace: string, status: QuotaStatus)

  /** One scope selector requirement of a quota (ScopedResourceSelectorRequirement). */
  datatype ScopeSelector = ScopeSelector(scopeName: string, operator: string, values: seq<string>)

  /** The core ResourceQuotaSpec a SharedQuota embeds. */
  datatype QuotaSpec = QuotaSpec(hard: ResourceList, scopes: seq<string>, scopeSelector: seq<ScopeSelector>)

  /** Desired state: which namespaces (by labels) and what limits. */
  datatype SharedQuotaSpec = SharedQuotaSpec(labelSelector: map<string, string>, quota: QuotaSpec)

  /** Observed state: the aggregate and the per-namespace breakdown, in serialization order. */
  datatype SharedQuotaStatus = SharedQuotaStatus(total: QuotaStatus, namespaces: seq<NamespaceStatus>)

  /** The object metadata the model reads. */
  datatype ObjectMeta = ObjectMeta(name: string, uid: string, generation: int)

  datatype SharedQuota = SharedQuota(meta: ObjectMeta, spec: SharedQuotaSpec, status: SharedQuotaStatus)

  /** The admission operation kinds. */
  datatype Operation = Create | Update | Delete | Connect
}
