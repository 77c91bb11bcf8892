/**
 * One reconcile pass of a shared quota (the controller's
 * syncQuotaForNamespaces), as a pure function of the quota, the result of
 * listing the namespaces its selector matches, and a per-namespace usage
 * calculation. The pass recharges every matching namespace, prunes the
 * namespaces that no longer match, copies the hard limits, and reports
 * whether the status changed and must be written.
 */
module Reconciler {
  import opened Results
  import opened Resources
  import opened QuotaApi
  import opened Seqs
  import opened StatusList

  /** The usage calculation of one namespace, under the quota's scopes and hard limits. */
  type UsageFunc = string -> Result<ResourceList, string>

  /** What a successful pass produces: the new quota and whether it must be written. */
  datatype SyncOutcome = SyncOutcome(quota: SharedQuota, needsUpdate: bool)

  // ---------------------------------------------------------------------------
  // The pass
  // ---------------------------------------------------------------------------

  /**
   * Recharges one namespace: its old usage leaves the total, the fresh usage
   * enters it, and its breakdown entry is upserted.
   */
  function Recharge(s: SharedQuotaStatus, namespace: string, hard: ResourceList, used: ResourceList): SharedQuotaStatus {
    var previous := Get(s.namespaces, namespace).0;
    SharedQuotaStatus(
      s.total.(used := Add(Subtract(s.total.used, previous.used), used)),
      Insert(s.namespaces, NamespaceStatus(namespace, QuotaStatus(hard, used))))
  }

  /** Recharges the namespaces in order; the first failing usage calculation aborts. */
  function RechargeAll(s: SharedQuotaStatus, hard: ResourceList, namespaces: seq<string>, usage: UsageFunc): (r: Result<SharedQuotaStatus, string>)
    ensures r.Err? <==> exists i :: 0 <= i < |namespaces| && usage(namespaces[i]).Err?
    ensures r.Ok? ==> r.value.total.hard == s.total.hard
    decreases |namespaces|
  {
    if namespaces == [] then Ok(s)
    else
      match usage(namespaces[0])
      case Err(e) => Err(e)
      case Ok(used) =>
        var r := RechargeAll(Recharge(s, namespaces[0], hard, used), hard, namespaces[1..], usage);
        assert forall i :: 1 <= i < |namespaces| ==> namespaces[i] == namespaces[1..][i - 1];
        r
  }

  /**
   * Walks a snapshot of the breakdown and, for every entry whose namespace no
   * longer matches, subtracts that entry's usage from the total and removes
   * the namespace's entries.
   */
  function Prune(s: SharedQuotaStatus, matching: seq<string>, snapshot: seq<NamespaceStatus>): (r: SharedQuotaStatus)
    ensures r.total.hard == s.total.hard
    decreases |snapshot|
  {
    if snapshot == [] then s
    else
      var e := snapshot[0];
      var next :=
        if e.namespace !in matching
        then SharedQuotaStatus(s.total.(used := Subtract(s.total.used, e.status.used)), Remove(s.namespaces, e.namespace))
        else s;
      Prune(next, matching, snapshot[1..])
  }

  /**
   * One reconcile pass. `matching` is the result of listing the namespaces
   * the quota's selector matches; any error aborts the pass without a write.
   */
  function SyncQuotaForNamespaces(original: SharedQuota, matching: Result<seq<string>, string>, usage: UsageFunc): (r: Result<SyncOutcome, string>)
    ensures r.Err? <==> matching.Err? || exists i :: 0 <= i < |matching.value| && usage(matching.value[i]).Err?
    ensures r.Ok? ==> r.value.quota.meta == original.meta && r.value.quota.spec == original.spec
    ensures r.Ok? ==> r.value.quota.status.total.hard == original.spec.quota.hard
    ensures r.Ok? ==> (r.value.needsUpdate <==> r.value.quota != original)
  {
    match matching
    case Err(e) => Err(e)
    case Ok(names) =>
      var hard := original.spec.quota.hard;
      match RechargeAll(original.status, hard, names, usage)
      case Err(e) => Err(e)
      case Ok(charged) =>
        var pruned := Prune(charged, names, charged.namespaces);
        var quota := original.(status := pruned.(total := pruned.total.(hard := hard)));
        Ok(SyncOutcome(quota, quota != original))
  }

  // ---------------------------------------------------------------------------
  // The total is the sum of the breakdown
  // ---------------------------------------------------------------------------

  /**
   * No namespace appears twice in the breakdown, and the total used quantity
   * of every resource is the sum of the namespaces' used quantities.
   */
  ghost predicate Consistent(s: SharedQuotaStatus) {
    && UniqueNamespaces(s.namespaces)
    && forall k :: Qty(s.total.used, k) == UsedSum(s.namespaces, k)
  }

  /**
   * On a consistent status whose namespaces all record non-negative usage,
   * neither subtraction of the pass (the old usage of a recharged namespace,
   * the usage of a pruned entry) goes below zero on any key, so a Subtract
   * clamped at zero would compute the same total.
   */
  lemma ClampingIsInvisible(s: SharedQuotaStatus, namespace: string)
    requires Consistent(s)
    requires forall x :: x in s.namespaces ==> NonNegative(x.status.used)
    ensures var previous := Get(s.namespaces, namespace).0.used;
            SubtractClamped(s.total.used, previous) == Subtract(s.total.used, previous)
    ensures forall e :: e in s.namespaces ==> SubtractClamped(s.total.used, e.status.used) == Subtract(s.total.used, e.status.used)
  {
    forall e | e in s.namespaces
      ensures SubtractClamped(s.total.used, e.status.used) == Subtract(s.total.used, e.status.used)
    {
      forall k
        ensures Qty(e.status.used, k) <= Qty(s.total.used, k)
      {
        UsedSumBoundsEntry(s.namespaces, e, k);
      }
      SubtractReadingsAgree(s.total.used, e.status.used);
    }
    var r := Get(s.namespaces, namespace);
    if r.1 {
      var i :| 0 <= i < |s.namespaces| && s.namespaces[i].namespace == namespace && r.0 == s.namespaces[i].status;
      assert s.namespaces[i] in s.namespaces;
    } else {
      forall k
        ensures Qty(r.0.used, k) <= Qty(s.total.used, k)
      {
        UsedSumBoundsEntry(s.namespaces, NamespaceStatus(namespace, r.0), k);
      }
      SubtractReadingsAgree(s.total.used, r.0.used);
    }
  }

  /** Recharging one namespace keeps the total equal to the sum of the breakdown. */
  lemma RechargeConsistent(s: SharedQuotaStatus, namespace: string, hard: ResourceList, used: ResourceList)
    requires Consistent(s)
    ensures Consistent(Recharge(s, namespace, hard, used))
  {
    var entry := NamespaceStatus(namespace, QuotaStatus(hard, used));
    var r := Recharge(s, namespace, hard, used);
    InsertKeepsUnique(s.namespaces, entry);
    forall k
      ensures Qty(r.total.used, k) == UsedSum(r.namespaces, k)
    {
      InsertSum(s.namespaces, entry, k);
    }
  }

  lemma {:induction false} RechargeAllConsistent(s: SharedQuotaStatus, hard: ResourceList, namespaces: seq<string>, usage: UsageFunc)
    requires Consistent(s)
    ensures RechargeAll(s, hard, namespaces, usage).Ok? ==> Consistent(RechargeAll(s, hard, namespaces, usage).value)
    decreases |namespaces|
  {
    if namespaces != [] && usage(namespaces[0]).Ok? {
      var used := usage(namespaces[0]).value;
      RechargeConsistent(s, namespaces[0], hard, used);
      RechargeAllConsistent(Recharge(s, namespaces[0], hard, used), hard, namespaces[1..], usage);
    }
  }

  /**
   * Pruning a snapshot of the breakdown keeps the total equal to the sum:
   * each stale entry's usage leaves the total exactly when its entry leaves
   * the breakdown.
   */
  lemma {:induction false} PruneConsistent(s: SharedQuotaStatus, matching: seq<string>, snapshot: seq<NamespaceStatus>)
    requires Consistent(s) && UniqueNamespaces(snapshot)
    requires forall e :: e in snapshot ==> e in s.namespaces
    ensures Consistent(Prune(s, matching, snapshot))
    decreases |snapshot|
  {
    if snapshot != [] {
      var e := snapshot[0];
      UniqueTail(snapshot);
      if e.namespace !in matching {
        var next := SharedQuotaStatus(s.total.(used := Subtract(s.total.used, e.status.used)), Remove(s.namespaces, e.namespace));
        assert e in snapshot;
        RemoveEntryConsistent(s, e);
        forall x | x in snapshot[1..]
          ensures x in next.namespaces
        {
          var j :| 0 <= j < |snapshot[1..]| && snapshot[1..][j] == x;
          assert x == snapshot[j + 1];
        }
        PruneConsistent(next, matching, snapshot[1..]);
      } else {
        PruneConsistent(s, matching, snapshot[1..]);
      }
    }
  }

  /** Dropping one entry and its usage from the total keeps the invariant. */
  lemma RemoveEntryConsistent(s: SharedQuotaStatus, e: NamespaceStatus)
    requires Consistent(s) && e in s.namespaces
    ensures Consistent(SharedQuotaStatus(s.total.(used := Subtract(s.total.used, e.status.used)), Remove(s.namespaces, e.namespace)))
  {
    assert UniqueNamespaces(Remove(s.namespaces, e.namespace)) by {
      RemoveKeepsUnique(s.namespaces, e.namespace);
    }
    assert Get(s.namespaces, e.namespace).0 == e.status by {
      var i :| 0 <= i < |s.namespaces| && s.namespaces[i] == e;
      GetUnique(s.namespaces, i);
    }
    forall k
      ensures Qty(Subtract(s.total.used, e.status.used), k) == UsedSum(Remove(s.namespaces, e.namespace), k)
    {
      RemoveEntryKey(s.namespaces, s.total.used, e, k);
    }
  }

  lemma RemoveEntryKey(entries: Breakdown, total: ResourceList, e: NamespaceStatus, k: ResourceName)
    requires UniqueNamespaces(entries) && Get(entries, e.namespace).0 == e.status
    requires Qty(total, k) == UsedSum(entries, k)
    ensures Qty(Subtract(total, e.status.used), k) == UsedSum(Remove(entries, e.namespace), k)
  {
    RemoveSum(entries, e.namespace, k);
  }

  /**
   * A pass keeps the shared quota's invariant: when the stored status had
   * unique namespaces and a total equal to the sum of the breakdown, so does
   * the new one.
   */
  lemma SyncKeepsConsistent(original: SharedQuota, names: seq<string>, usage: UsageFunc)
    requires Consistent(original.status)
    ensures var r := SyncQuotaForNamespaces(original, Ok(names), usage);
            r.Ok? ==> Consistent(r.value.quota.status)
  {
    var hard := original.spec.quota.hard;
    RechargeAllConsistent(original.status, hard, names, usage);
    var charged := RechargeAll(original.status, hard, names, usage);
    if charged.Ok? {
      PruneConsistent(charged.value, names, charged.value.namespaces);
    }
  }

  // ---------------------------------------------------------------------------
  // What a pass leaves behind
  // ---------------------------------------------------------------------------

  /**
   * The namespace is charged `used` under `hard`: every entry about it says
   * so, and the total already lists every resource of `used`.
   */
  predicate Charged(s: SharedQuotaStatus, hard: ResourceList, namespace: string, used: ResourceList) {
    && AllEntriesAre(s.namespaces, namespace, QuotaStatus(hard, used))
    && used.Keys <= s.total.used.Keys
  }

  lemma RechargeCharges(s: SharedQuotaStatus, namespace: string, hard: ResourceList, used: ResourceList)
    ensures Charged(Recharge(s, namespace, hard, used), hard, namespace, used)
  {
    InsertSetsAll(s.namespaces, NamespaceStatus(namespace, QuotaStatus(hard, used)));
  }

  lemma RechargeKeepsCharged(s: SharedQuotaStatus, other: string, otherHard: ResourceList, otherUsed: ResourceList,
                             namespace: string, hard: ResourceList, used: ResourceList)
    requires Charged(s, hard, namespace, used) && other != namespace
    ensures Charged(Recharge(s, other, otherHard, otherUsed), hard, namespace, used)
  {
    InsertOtherKeepsAll(s.namespaces, NamespaceStatus(other, QuotaStatus(otherHard, otherUsed)), namespace, QuotaStatus(hard, used));
  }

  lemma {:induction false} RechargeAllKeepsCharged(s: SharedQuotaStatus, hard: ResourceList, namespaces: seq<string>, usage: UsageFunc,
                                                   namespace: string, nsHard: ResourceList, used: ResourceList)
    requires Charged(s, nsHard, namespace, used) && namespace !in namespaces
    ensures RechargeAll(s, hard, namespaces, usage).Ok? ==> Charged(RechargeAll(s, hard, namespaces, usage).value, nsHard, namespace, used)
    decreases |namespaces|
  {
    if namespaces != [] && usage(namespaces[0]).Ok? {
      var next := Recharge(s, namespaces[0], hard, usage(namespaces[0]).value);
      RechargeKeepsCharged(s, namespaces[0], hard, usage(namespaces[0]).value, namespace, nsHard, used);
      assert namespace !in namespaces[1..];
      RechargeAllKeepsCharged(next, hard, namespaces[1..], usage, namespace, nsHard, used);
    }
  }

  /** After a successful fold every listed namespace is charged its fresh usage. */
  lemma {:induction false} RechargeAllCharges(s: SharedQuotaStatus, hard: ResourceList, namespaces: seq<string>, usage: UsageFunc, namespace: string)
    requires namespace in namespaces
    ensures var r := RechargeAll(s, hard, namespaces, usage);
            r.Ok? ==> usage(namespace).Ok? && Charged(r.value, hard, namespace, usage(namespace).value)
    decreases |namespaces|
  {
    if usage(namespaces[0]).Ok? {
      var next := Recharge(s, namespaces[0], hard, usage(namespaces[0]).value);
      if namespace in namespaces[1..] {
        RechargeAllCharges(next, hard, namespaces[1..], usage, namespace);
      } else {
        RechargeCharges(s, namespaces[0], hard, usage(namespaces[0]).value);
        RechargeAllKeepsCharged(next, hard, namespaces[1..], usage, namespace, hard, usage(namespace).value);
      }
    }
  }

  /** Pruning never touches a namespace that still matches. */
  lemma {:induction false} PruneKeepsCharged(s: SharedQuotaStatus, matching: seq<string>, snapshot: seq<NamespaceStatus>,
                                             namespace: string, hard: ResourceList, used: ResourceList)
    requires namespace in matching && Charged(s, hard, namespace, used)
    ensures Charged(Prune(s, matching, snapshot), hard, namespace, used)
    decreases |snapshot|
  {
    if snapshot != [] {
      var e := snapshot[0];
      if e.namespace !in matching {
        var next := SharedQuotaStatus(s.total.(used := Subtract(s.total.used, e.status.used)), Remove(s.namespaces, e.namespace));
        RemoveOtherKeepsAll(s.namespaces, e.namespace, namespace, QuotaStatus(hard, used));
        PruneKeepsCharged(next, matching, snapshot[1..], namespace, hard, used);
      } else {
        PruneKeepsCharged(s, matching, snapshot[1..], namespace, hard, used);
      }
    }
  }

  /**
   * Every entry left after pruning was already in the breakdown, and either
   * still matches or is about a namespace the snapshot never mentioned.
   */
  lemma PruneRemovesStale(s: SharedQuotaStatus, matching: seq<string>, snapshot: seq<NamespaceStatus>)
    ensures forall e :: e in Prune(s, matching, snapshot).namespaces ==>
              e in s.namespaces && (e.namespace in matching || !HasNamespace(snapshot, e.namespace))
  {
    forall e | e in Prune(s, matching, snapshot).namespaces
      ensures e in s.namespaces && (e.namespace in matching || !HasNamespace(snapshot, e.namespace))
    {
      PruneKeepsOnly(s, matching, snapshot, e);
    }
  }

  /** One surviving entry at a time: it was there before, and it matches or was never in the snapshot. */
  lemma {:induction false} PruneKeepsOnly(s: SharedQuotaStatus, matching: seq<string>, snapshot: seq<NamespaceStatus>, e: NamespaceStatus)
    requires e in Prune(s, matching, snapshot).namespaces
    ensures e in s.namespaces
    ensures e.namespace in matching || !HasNamespace(snapshot, e.namespace)
    decreases |snapshot|
  {
    if snapshot != [] {
      var first := snapshot[0];
      if first.namespace !in matching {
        var next := SharedQuotaStatus(s.total.(used := Subtract(s.total.used, first.status.used)), Remove(s.namespaces, first.namespace));
        PruneKeepsOnly(next, matching, snapshot[1..], e);
        assert e in Remove(s.namespaces, first.namespace);
      } else {
        PruneKeepsOnly(s, matching, snapshot[1..], e);
      }
      if e.namespace !in matching {
        forall j | 0 <= j < |snapshot|
          ensures snapshot[j].namespace != e.namespace
        {
          if j > 0 {
            assert snapshot[j] == snapshot[1..][j - 1];
          }
        }
      }
    }
  }

  /**
   * After a successful pass every matching namespace has an entry with the
   * quota's hard limits and its fresh usage, Get finds exactly that, and no
   * entry is about a namespace that does not match.
   */
  lemma SyncChargesMatching(original: SharedQuota, names: seq<string>, usage: UsageFunc)
    ensures var r := SyncQuotaForNamespaces(original, Ok(names), usage);
            r.Ok? ==> forall namespace :: namespace in names ==>
              && usage(namespace).Ok?
              && Charged(r.value.quota.status, original.spec.quota.hard, namespace, usage(namespace).value)
              && Get(r.value.quota.status.namespaces, namespace)
                 == (QuotaStatus(original.spec.quota.hard, usage(namespace).value), true)
    ensures var r := SyncQuotaForNamespaces(original, Ok(names), usage);
            r.Ok? ==> forall e :: e in r.value.quota.status.namespaces ==> e.namespace in names
  {
    var hard := original.spec.quota.hard;
    var charged := RechargeAll(original.status, hard, names, usage);
    if charged.Ok? {
      var c := charged.value;
      var pruned := Prune(c, names, c.namespaces);
      forall namespace | namespace in names
        ensures usage(namespace).Ok? && Charged(pruned, hard, namespace, usage(namespace).value)
      {
        RechargeAllCharges(original.status, hard, names, usage, namespace);
        PruneKeepsCharged(c, names, c.namespaces, namespace, hard, usage(namespace).value);
      }
      forall namespace | namespace in names
        ensures Get(pruned.namespaces, namespace) == (QuotaStatus(hard, usage(namespace).value), true)
      {
        GetAllEntriesAre(pruned.namespaces, namespace, QuotaStatus(hard, usage(namespace).value));
      }
      PruneRemovesStale(c, names, c.namespaces);
      forall e | e in pruned.namespaces
        ensures e.namespace in names
      {
        var i :| 0 <= i < |c.namespaces| && c.namespaces[i] == e;
        assert HasNamespace(c.namespaces, e.namespace);
      }
    }
  }

  // ---------------------------------------------------------------------------
  // A second pass is a no-op
  // ---------------------------------------------------------------------------

  /**
   * The stored status already reflects the listed namespaces: each is
   * charged its usage under the quota's hard limits, no other namespace has
   * an entry, and the total carries the hard limits.
   */
  ghost predicate Settled(q: SharedQuota, names: seq<string>, usage: UsageFunc) {
    && q.status.total.hard == q.spec.quota.hard
    && (forall namespace :: namespace in names ==>
          usage(namespace).Ok? && Charged(q.status, q.spec.quota.hard, namespace, usage(namespace).value))
    && (forall e :: e in q.status.namespaces ==> e.namespace in names)
  }

  /** A successful pass settles the quota. */
  lemma SyncSettles(original: SharedQuota, names: seq<string>, usage: UsageFunc)
    ensures var r := SyncQuotaForNamespaces(original, Ok(names), usage);
            r.Ok? ==> Settled(r.value.quota, names, usage)
  {
    SyncChargesMatching(original, names, usage);
  }

  /** Recharging a namespace with the usage it is already charged changes nothing. */
  lemma RechargeSettled(s: SharedQuotaStatus, namespace: string, hard: ResourceList, used: ResourceList)
    requires Charged(s, hard, namespace, used)
    ensures Recharge(s, namespace, hard, used) == s
  {
    GetAllEntriesAre(s.namespaces, namespace, QuotaStatus(hard, used));
    AddSubtractCancel(s.total.used, used);
    InsertSame(s.namespaces, NamespaceStatus(namespace, QuotaStatus(hard, used)));
  }

  lemma {:induction false} RechargeAllSettled(s: SharedQuotaStatus, hard: ResourceList, namespaces: seq<string>, usage: UsageFunc)
    requires forall namespace :: namespace in namespaces ==>
               usage(namespace).Ok? && Charged(s, hard, namespace, usage(namespace).value)
    ensures RechargeAll(s, hard, namespaces, usage) == Ok(s)
    decreases |namespaces|
  {
    if namespaces != [] {
      RechargeSettled(s, namespaces[0], hard, usage(namespaces[0]).value);
      RechargeAllSettled(s, hard, namespaces[1..], usage);
    }
  }

  lemma {:induction false} PruneSettled(s: SharedQuotaStatus, matching: seq<string>, snapshot: seq<NamespaceStatus>)
    requires forall e :: e in snapshot ==> e.namespace in matching
    ensures Prune(s, matching, snapshot) == s
    decreases |snapshot|
  {
    if snapshot != [] {
      PruneSettled(s, matching, snapshot[1..]);
    }
  }

  /**
   * On a settled quota a pass returns the quota unchanged and reports that
   * nothing needs to be written.
   */
  lemma SettledIsFixedPoint(q: SharedQuota, names: seq<string>, usage: UsageFunc)
    requires Settled(q, names, usage)
    ensures SyncQuotaForNamespaces(q, Ok(names), usage) == Ok(SyncOutcome(q, false))
  {
    RechargeAllSettled(q.status, q.spec.quota.hard, names, usage);
    PruneSettled(q.status, names, q.status.namespaces);
  }

  /**
   * Idempotence: with the same matching namespaces and usages, a second pass
   * over the result of a successful pass changes nothing and writes nothing.
   */
  lemma SyncIdempotent(original: SharedQuota, names: seq<string>, usage: UsageFunc)
    ensures var r := SyncQuotaForNamespaces(original, Ok(names), usage);
            r.Ok? ==> SyncQuotaForNamespaces(r.value.quota, Ok(names), usage) == Ok(SyncOutcome(r.value.quota, false))
  {
    var r := SyncQuotaForNamespaces(original, Ok(names), usage);
    if r.Ok? {
      SyncSettles(original, names, usage);
      SettledIsFixedPoint(r.value.quota, names, usage);
    }
  }
}
