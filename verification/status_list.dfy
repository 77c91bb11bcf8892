/**
 * The per-namespace breakdown of a shared quota's status: an ordered list of
 * (namespace, status) entries with lookup, removal and in-place upsert, and
 * the lookup of the shared quotas whose label selector picks a namespace.
 */
module StatusList {
  import opened Results
  import opened Resources
  import opened QuotaApi
  import opened Seqs

  /** The breakdown, in serialization order. */
  type Breakdown = seq<NamespaceStatus>

  /** Some entry is about `namespace`. */
  predicate HasNamespace(entries: Breakdown, namespace: string) {
    exists i :: 0 <= i < |entries| && entries[i].namespace == namespace
  }

  /** No namespace has two entries. */
  predicate UniqueNamespaces(entries: Breakdown) {
    forall i, j :: 0 <= i < j < |entries| ==> entries[i].namespace != entries[j].namespace
  }

  // ---------------------------------------------------------------------------
  // Get
  // ---------------------------------------------------------------------------

  /**
   * The status of the first entry about `namespace`, with `true`; the zero
   * status with `false` when there is none.
   */
  function Get(entries: Breakdown, namespace: string): (r: (QuotaStatus, bool))
    ensures r.1 <==> HasNamespace(entries, namespace)
    ensures !r.1 ==> r.0 == EmptyStatus
    ensures r.1 ==> exists i :: 0 <= i < |entries| && entries[i].namespace == namespace && r.0 == entries[i].status
                                && forall j :: 0 <= j < i ==> entries[j].namespace != namespace
    decreases |entries|
  {
    if entries == [] then (EmptyStatus, false)
    else if entries[0].namespace == namespace then (entries[0].status, true)
    else
      var r := Get(entries[1..], namespace);
      assert forall i :: 1 <= i < |entries| ==> entries[i] == entries[1..][i - 1];
      r
  }

  /** With unique namespaces, Get finds the status of the entry at any position about the namespace. */
  lemma GetUnique(entries: Breakdown, i: int)
    requires UniqueNamespaces(entries) && 0 <= i < |entries|
    ensures Get(entries, entries[i].namespace) == (entries[i].status, true)
  {
  }

  // ---------------------------------------------------------------------------
  // Remove
  // ---------------------------------------------------------------------------

  /** The entries not about `namespace`, in their original order. */
  function Remove(entries: Breakdown, namespace: string): (r: Breakdown)
    ensures forall e :: e in r <==> e in entries && e.namespace != namespace
    ensures Subsequence(r, entries)
    ensures |r| <= |entries|
    ensures forall e :: multiset(r)[e] == if e.namespace != namespace then multiset(entries)[e] else 0
    decreases |entries|
  {
    if entries == [] then []
    else
      var rest := Remove(entries[1..], namespace);
      assert [entries[0]] + entries[1..] == entries;
      assert multiset(entries) == multiset{entries[0]} + multiset(entries[1..]);
      SubsequenceSkip(rest, entries[1..], entries[0]);
      if entries[0].namespace == namespace then rest
      else
        SubsequenceCons(rest, entries[1..], entries[0]);
        [entries[0]] + rest
  }

  /** After removal no entry is about the namespace, so Get finds nothing. */
  lemma GetAfterRemove(entries: Breakdown, namespace: string)
    ensures !HasNamespace(Remove(entries, namespace), namespace)
    ensures Get(Remove(entries, namespace), namespace) == (EmptyStatus, false)
  {
    var r := Remove(entries, namespace);
    forall i | 0 <= i < |r|
      ensures r[i].namespace != namespace
    {
      assert r[i] in r;
    }
  }

  /** Removal leaves the lookups of every other namespace as they were. */
  lemma {:induction false} GetOtherAfterRemove(entries: Breakdown, namespace: string, other: string)
    requires other != namespace
    ensures Get(Remove(entries, namespace), other) == Get(entries, other)
    decreases |entries|
  {
    if entries != [] {
      GetOtherAfterRemove(entries[1..], namespace, other);
    }
  }

  /** Removing a namespace twice is removing it once. */
  lemma {:induction false} RemoveIdempotent(entries: Breakdown, namespace: string)
    ensures Remove(Remove(entries, namespace), namespace) == Remove(entries, namespace)
    decreases |entries|
  {
    if entries != [] {
      RemoveIdempotent(entries[1..], namespace);
      if entries[0].namespace != namespace {
        assert ([entries[0]] + Remove(entries[1..], namespace))[1..] == Remove(entries[1..], namespace);
      }
    }
  }

  /** Removing an absent namespace changes nothing. */
  lemma {:induction false} RemoveAbsent(entries: Breakdown, namespace: string)
    requires !HasNamespace(entries, namespace)
    ensures Remove(entries, namespace) == entries
    decreases |entries|
  {
    if entries != [] {
      assert !HasNamespace(entries[1..], namespace) by {
        forall i | 0 <= i < |entries[1..]|
          ensures entries[1..][i].namespace != namespace
        {
          assert entries[i + 1] == entries[1..][i];
        }
      }
      RemoveAbsent(entries[1..], namespace);
      assert [entries[0]] + entries[1..] == entries;
    }
  }

  /** Removal keeps namespaces unique. */
  lemma RemoveKeepsUnique(entries: Breakdown, namespace: string)
    requires UniqueNamespaces(entries)
    ensures UniqueNamespaces(Remove(entries, namespace))
  {
    SubsequenceUnique(Remove(entries, namespace), entries);
  }

  /** A subsequence of a list with unique namespaces has unique namespaces. */
  lemma {:induction false} SubsequenceUnique(a: Breakdown, b: Breakdown)
    requires Subsequence(a, b) && UniqueNamespaces(b)
    ensures UniqueNamespaces(a)
    decreases |b|
  {
    if a != [] {
      if a[0] == b[0] {
        SubsequenceUnique(a[1..], b[1..]);
        forall j | 0 < j < |a|
          ensures a[0].namespace != a[j].namespace
        {
          assert a[j] == a[1..][j - 1];
          SubsequenceMembers(a[1..], b[1..], a[j]);
          var k :| 0 <= k < |b[1..]| && b[1..][k] == a[j];
          assert b[k + 1] == a[j];
        }
        forall i, j | 0 <= i < j < |a|
          ensures a[i].namespace != a[j].namespace
        {
          if i > 0 {
            assert a[i] == a[1..][i - 1] && a[j] == a[1..][j - 1];
          }
        }
      } else {
        SubsequenceUnique(a, b[1..]);
      }
    }
  }

  // ---------------------------------------------------------------------------
  // Insert
  // ---------------------------------------------------------------------------

  /** Every entry about the new entry's namespace replaced by it, in place. */
  function ReplaceMatching(entries: Breakdown, newStatus: NamespaceStatus): (r: Breakdown)
    ensures |r| == |entries|
    ensures forall i :: 0 <= i < |r| ==>
              r[i] == if entries[i].namespace == newStatus.namespace then newStatus else entries[i]
    decreases |entries|
  {
    if entries == [] then []
    else
      [if entries[0].namespace == newStatus.namespace then newStatus else entries[0]]
      + ReplaceMatching(entries[1..], newStatus)
  }

  /**
   * Upsert: replaces every entry about the namespace in place, so the
   * serialization order does not change, or appends the entry when the
   * namespace has none.
   */
  function Insert(entries: Breakdown, newStatus: NamespaceStatus): (r: Breakdown)
    ensures HasNamespace(entries, newStatus.namespace) ==>
              && |r| == |entries|
              && forall i :: 0 <= i < |r| ==>
                   r[i] == if entries[i].namespace == newStatus.namespace then newStatus else entries[i]
    ensures !HasNamespace(entries, newStatus.namespace) ==> r == entries + [newStatus]
  {
    var replaced := ReplaceMatching(entries, newStatus);
    if HasNamespace(entries, newStatus.namespace) then replaced
    else
      assert replaced == entries;
      replaced + [newStatus]
  }

  /** After an insert, Get for that namespace finds the inserted status. */
  lemma GetAfterInsert(entries: Breakdown, newStatus: NamespaceStatus)
    ensures Get(Insert(entries, newStatus), newStatus.namespace) == (newStatus.status, true)
  {
    var r := Insert(entries, newStatus);
    var ns := newStatus.namespace;
    assert HasNamespace(r, ns) by {
      if HasNamespace(entries, ns) {
        var i :| 0 <= i < |entries| && entries[i].namespace == ns;
        assert r[i] == newStatus;
      } else {
        assert r[|entries|] == newStatus;
      }
    }
    assert forall i :: 0 <= i < |r| && r[i].namespace == ns ==> r[i] == newStatus by {
      if !HasNamespace(entries, ns) {
        assert r == entries + [newStatus];
        assert forall i :: 0 <= i < |entries| ==> r[i] == entries[i];
      }
    }
  }

  /** An insert leaves the lookups of every other namespace as they were. */
  lemma GetOtherAfterInsert(entries: Breakdown, newStatus: NamespaceStatus, other: string)
    requires other != newStatus.namespace
    ensures Get(Insert(entries, newStatus), other) == Get(entries, other)
  {
    GetOtherAfterReplace(entries, newStatus, other);
    if !HasNamespace(entries, newStatus.namespace) {
      ReplaceAbsent(entries, newStatus);
      GetOtherAfterAppend(entries, newStatus, other);
    }
  }

  lemma {:induction false} GetOtherAfterReplace(entries: Breakdown, newStatus: NamespaceStatus, other: string)
    requires other != newStatus.namespace
    ensures Get(ReplaceMatching(entries, newStatus), other) == Get(entries, other)
    decreases |entries|
  {
    if entries != [] {
      var r := ReplaceMatching(entries, newStatus);
      assert r[1..] == ReplaceMatching(entries[1..], newStatus);
      GetOtherAfterReplace(entries[1..], newStatus, other);
    }
  }

  lemma {:induction false} GetOtherAfterAppend(entries: Breakdown, e: NamespaceStatus, other: string)
    requires other != e.namespace
    ensures Get(entries + [e], other) == Get(entries, other)
    decreases |entries|
  {
    if entries != [] {
      assert (entries + [e])[1..] == entries[1..] + [e];
      GetOtherAfterAppend(entries[1..], e, other);
    } else {
      assert ([] + [e])[1..] == [];
    }
  }

  /** Inserting the same entry twice is inserting it once. */
  lemma InsertIdempotent(entries: Breakdown, newStatus: NamespaceStatus)
    ensures Insert(Insert(entries, newStatus), newStatus) == Insert(entries, newStatus)
  {
    var r := Insert(entries, newStatus);
    if !HasNamespace(entries, newStatus.namespace) {
      assert r[|entries|] == newStatus;
    }
    assert HasNamespace(r, newStatus.namespace) by {
      GetAfterInsert(entries, newStatus);
    }
  }

  /** Inserting keeps namespaces unique. */
  lemma InsertKeepsUnique(entries: Breakdown, newStatus: NamespaceStatus)
    requires UniqueNamespaces(entries)
    ensures UniqueNamespaces(Insert(entries, newStatus))
  {
    var r := Insert(entries, newStatus);
    if !HasNamespace(entries, newStatus.namespace) {
      forall i, j | 0 <= i < j < |r|
        ensures r[i].namespace != r[j].namespace
      {
        if j == |entries| {
          assert r[i] == entries[i];
        }
      }
    }
  }

  /** The namespace has an entry, and every entry about it carries `status`. */
  predicate AllEntriesAre(entries: Breakdown, namespace: string, status: QuotaStatus) {
    && HasNamespace(entries, namespace)
    && forall i :: 0 <= i < |entries| && entries[i].namespace == namespace ==> entries[i].status == status
  }

  /** When every entry about a namespace carries the same status, Get finds it. */
  lemma GetAllEntriesAre(entries: Breakdown, namespace: string, status: QuotaStatus)
    requires AllEntriesAre(entries, namespace, status)
    ensures Get(entries, namespace) == (status, true)
  {
  }

  /** After an insert every entry about the namespace carries the inserted status. */
  lemma InsertSetsAll(entries: Breakdown, newStatus: NamespaceStatus)
    ensures AllEntriesAre(Insert(entries, newStatus), newStatus.namespace, newStatus.status)
  {
    GetAfterInsert(entries, newStatus);
  }

  /** Inserting an entry about another namespace keeps a namespace's entries. */
  lemma InsertOtherKeepsAll(entries: Breakdown, newStatus: NamespaceStatus, namespace: string, status: QuotaStatus)
    requires AllEntriesAre(entries, namespace, status) && newStatus.namespace != namespace
    ensures AllEntriesAre(Insert(entries, newStatus), namespace, status)
  {
    var r := Insert(entries, newStatus);
    var i :| 0 <= i < |entries| && entries[i].namespace == namespace;
    assert r[i] == entries[i];
  }

  /** Removing another namespace keeps a namespace's entries. */
  lemma RemoveOtherKeepsAll(entries: Breakdown, other: string, namespace: string, status: QuotaStatus)
    requires AllEntriesAre(entries, namespace, status) && other != namespace
    ensures AllEntriesAre(Remove(entries, other), namespace, status)
  {
    var r := Remove(entries, other);
    var i :| 0 <= i < |entries| && entries[i].namespace == namespace;
    assert entries[i] in r;
    forall j | 0 <= j < |r| && r[j].namespace == namespace
      ensures r[j].status == status
    {
      assert r[j] in entries;
    }
  }

  /** Upserting the status every entry already carries changes nothing. */
  lemma InsertSame(entries: Breakdown, newStatus: NamespaceStatus)
    requires AllEntriesAre(entries, newStatus.namespace, newStatus.status)
    ensures Insert(entries, newStatus) == entries
  {
    var r := Insert(entries, newStatus);
    forall i | 0 <= i < |r|
      ensures r[i] == entries[i]
    {
    }
  }

  // ---------------------------------------------------------------------------
  // Totals
  // ---------------------------------------------------------------------------

  /** The sum of the used quantity of `k` over the entries. */
  function UsedSum(entries: Breakdown, k: ResourceName): int
    decreases |entries|
  {
    if entries == [] then 0 else Qty(entries[0].status.used, k) + UsedSum(entries[1..], k)
  }

  /**
   * When every entry records non-negative usage, the sum is non-negative and
   * no entry's usage exceeds it.
   */
  lemma {:induction false} UsedSumBoundsEntry(entries: Breakdown, e: NamespaceStatus, k: ResourceName)
    requires forall x :: x in entries ==> NonNegative(x.status.used)
    ensures 0 <= UsedSum(entries, k)
    ensures e in entries ==> Qty(e.status.used, k) <= UsedSum(entries, k)
    decreases |entries|
  {
    if entries != [] {
      assert entries[0] in entries;
      assert forall x :: x in entries[1..] ==> x in entries;
      UsedSumBoundsEntry(entries[1..], e, k);
      assert e in entries ==> e == entries[0] || e in entries[1..];
    }
  }

  /** The used quantity of `k` in the entry Get finds, 0 when there is none. */
  function UsedOf(entries: Breakdown, namespace: string, k: ResourceName): int {
    Qty(Get(entries, namespace).0.used, k)
  }

  lemma {:induction false} UsedSumAppend(entries: Breakdown, e: NamespaceStatus, k: ResourceName)
    ensures UsedSum(entries + [e], k) == UsedSum(entries, k) + Qty(e.status.used, k)
    decreases |entries|
  {
    if entries != [] {
      assert (entries + [e])[1..] == entries[1..] + [e];
      UsedSumAppend(entries[1..], e, k);
    }
  }

  lemma UniqueTail(entries: Breakdown)
    requires entries != [] && UniqueNamespaces(entries)
    ensures UniqueNamespaces(entries[1..])
    ensures !HasNamespace(entries[1..], entries[0].namespace)
  {
    forall i | 0 <= i < |entries[1..]|
      ensures entries[1..][i].namespace != entries[0].namespace
    {
      assert entries[i + 1] == entries[1..][i];
    }
  }

  /**
   * With unique namespaces, removing a namespace takes exactly its entry's
   * usage out of the sum.
   */
  lemma {:induction false} RemoveSum(entries: Breakdown, namespace: string, k: ResourceName)
    requires UniqueNamespaces(entries)
    ensures UsedSum(Remove(entries, namespace), k) == UsedSum(entries, k) - UsedOf(entries, namespace, k)
    decreases |entries|
  {
    if entries != [] {
      UniqueTail(entries);
      if entries[0].namespace == namespace {
        RemoveAbsent(entries[1..], namespace);
      } else {
        RemoveSum(entries[1..], namespace, k);
        assert ([entries[0]] + Remove(entries[1..], namespace))[1..] == Remove(entries[1..], namespace);
      }
    }
  }

  /** Replacing in a list without the namespace changes nothing. */
  lemma ReplaceAbsent(entries: Breakdown, newStatus: NamespaceStatus)
    requires !HasNamespace(entries, newStatus.namespace)
    ensures ReplaceMatching(entries, newStatus) == entries
  {
  }

  /**
   * With unique namespaces, upserting an entry swaps the namespace's old
   * usage (0 when absent) for the new one in the sum.
   */
  lemma {:induction false} InsertSum(entries: Breakdown, newStatus: NamespaceStatus, k: ResourceName)
    requires UniqueNamespaces(entries)
    ensures UsedSum(Insert(entries, newStatus), k)
            == UsedSum(entries, k) - UsedOf(entries, newStatus.namespace, k) + Qty(newStatus.status.used, k)
  {
    if HasNamespace(entries, newStatus.namespace) {
      ReplaceSum(entries, newStatus, k);
    } else {
      ReplaceAbsent(entries, newStatus);
      UsedSumAppend(entries, newStatus, k);
    }
  }

  lemma {:induction false} ReplaceSum(entries: Breakdown, newStatus: NamespaceStatus, k: ResourceName)
    requires UniqueNamespaces(entries) && HasNamespace(entries, newStatus.namespace)
    ensures UsedSum(ReplaceMatching(entries, newStatus), k)
            == UsedSum(entries, k) - UsedOf(entries, newStatus.namespace, k) + Qty(newStatus.status.used, k)
    decreases |entries|
  {
    var rest := ReplaceMatching(entries[1..], newStatus);
    assert ReplaceMatching(entries, newStatus)[1..] == rest;
    UniqueTail(entries);
    if entries[0].namespace == newStatus.namespace {
      ReplaceAbsent(entries[1..], newStatus);
    } else {
      assert HasNamespace(entries[1..], newStatus.namespace) by {
        var i :| 0 <= i < |entries| && entries[i].namespace == newStatus.namespace;
        assert entries[1..][i - 1] == entries[i];
      }
      ReplaceSum(entries[1..], newStatus, k);
    }
  }

  // ---------------------------------------------------------------------------
  // Shared quotas selecting a namespace
  // ---------------------------------------------------------------------------

  /**
   * A shared quota selects a namespace when its selector is not empty and
   * matches the namespace's labels; `matches` is the label-selector library.
   */
  predicate Selects(q: SharedQuota, labels: map<string, string>, matches: (map<string, string>, map<string, string>) -> bool) {
    |q.spec.labelSelector| > 0 && matches(q.spec.labelSelector, labels)
  }

  /** The quotas of `quotas` selecting the labels, in list order. */
  function SelectingQuotas(quotas: seq<SharedQuota>, labels: map<string, string>,
                           matches: (map<string, string>, map<string, string>) -> bool): (r: seq<SharedQuota>)
    ensures forall q :: q in r <==> q in quotas && Selects(q, labels, matches)
    ensures Subsequence(r, quotas)
    ensures forall q :: multiset(r)[q] == if Selects(q, labels, matches) then multiset(quotas)[q] else 0
    decreases |quotas|
  {
    if quotas == [] then []
    else
      var rest := SelectingQuotas(quotas[1..], labels, matches);
      assert [quotas[0]] + quotas[1..] == quotas;
      assert multiset(quotas) == multiset{quotas[0]} + multiset(quotas[1..]);
      SubsequenceSkip(rest, quotas[1..], quotas[0]);
      if Selects(quotas[0], labels, matches) then
        SubsequenceCons(rest, quotas[1..], quotas[0]);
        [quotas[0]] + rest
      else rest
  }

  function NamesOf(quotas: seq<SharedQuota>): (r: seq<string>)
    ensures |r| == |quotas| && forall i :: 0 <= i < |quotas| ==> r[i] == quotas[i].meta.name
  {
    seq(|quotas|, i requires 0 <= i < |quotas| => quotas[i].meta.name)
  }

  /**
   * The names of the shared quotas selecting a namespace. `namespaceLabels`
   * is the result of fetching the namespace and `quotas` that of listing the
   * shared quotas; the list is consulted only for a namespace with labels.
   */
  function ResourceQuotaNamesFor(namespaceLabels: Result<map<string, string>, string>,
                                 quotas: Result<seq<SharedQuota>, string>,
                                 matches: (map<string, string>, map<string, string>) -> bool): (r: Result<seq<string>, string>)
    ensures namespaceLabels.Err? ==> r.Err?
    ensures namespaceLabels.Ok? && |namespaceLabels.value| == 0 ==> r == Ok([])
    ensures namespaceLabels.Ok? && |namespaceLabels.value| > 0 ==>
              (r.Err? <==> quotas.Err?)
              && (r.Ok? ==> r.value == NamesOf(SelectingQuotas(quotas.value, namespaceLabels.value, matches)))
  {
    match namespaceLabels
    case Err(e) => Err(e)
    case Ok(labels) =>
      if |labels| == 0 then Ok([])
      else
        match quotas
        case Err(e) => Err(e)
        case Ok(qs) => Ok(NamesOf(SelectingQuotas(qs, labels, matches)))
  }

  /**
   * Every name returned belongs to a listed quota with a non-empty selector
   * matching the namespace's labels, and every such quota is returned.
   */
  lemma ResourceQuotaNamesForSelects(labels: map<string, string>, quotas: seq<SharedQuota>,
                                     matches: (map<string, string>, map<string, string>) -> bool, name: string)
    requires |labels| > 0
    ensures var r := ResourceQuotaNamesFor(Ok(labels), Ok(quotas), matches);
            r.Ok? && (name in r.value <==> exists q :: q in quotas && q.meta.name == name && Selects(q, labels, matches))
  {
    var sel := SelectingQuotas(quotas, labels, matches);
    NamesOfMembers(sel, name);
    assert (exists q :: q in sel && q.meta.name == name) <==> (exists q :: q in quotas && q.meta.name == name && Selects(q, labels, matches));
  }

  /** A name is among the names of a list iff some quota of the list carries it. */
  lemma NamesOfMembers(quotas: seq<SharedQuota>, name: string)
    ensures name in NamesOf(quotas) <==> exists q :: q in quotas && q.meta.name == name
  {
    var names := NamesOf(quotas);
    if name in names {
      var i :| 0 <= i < |names| && names[i] == name;
      assert quotas[i] in quotas;
    }
    if exists q :: q in quotas && q.meta.name == name {
      var q :| q in quotas && q.meta.name == name;
      var i :| 0 <= i < |quotas| && quotas[i] == q;
      assert names[i] == name;
    }
  }

  /**
   * A quota with an empty selector selects no namespace: it is never among
   * the selecting quotas of any list, and a name that only such quotas carry
   * is never returned, whatever the namespace's labels.
   */
  lemma EmptySelectorNeverSelects(namespaceLabels: Result<map<string, string>, string>, quotas: seq<SharedQuota>,
                                  matches: (map<string, string>, map<string, string>) -> bool, q: SharedQuota, name: string)
    requires |q.spec.labelSelector| == 0
    requires forall p :: p in quotas && p.meta.name == name ==> |p.spec.labelSelector| == 0
    ensures namespaceLabels.Ok? ==> q !in SelectingQuotas(quotas, namespaceLabels.value, matches)
    ensures var r := ResourceQuotaNamesFor(namespaceLabels, Ok(quotas), matches);
            r.Ok? ==> name !in r.value
  {
    if namespaceLabels.Ok? && |namespaceLabels.value| > 0 {
      ResourceQuotaNamesForSelects(namespaceLabels.value, quotas, matches, name);
    }
  }
}
