/**
 * Resource lists: a map from resource name to an exact quantity in a fixed base
 * unit. A name the list does not mention counts as zero. The list operations
 * of the repository's pkg/quota package (Add, Subtract, Max), whose bodies are
 * not part of this model, are defined here pointwise on the assumption that
 * they behave like their upstream Kubernetes counterparts: in particular
 * Subtract is not clamped at zero.
 */
module Resources {

  type ResourceName = string
  type ResourceList = map<ResourceName, int>

  /** The quantity of `name` in `l`; an absent name counts as 0. */
  function Qty(l: ResourceList, name: ResourceName): int {
    if name in l then l[name] else 0
  }

  /** Two lists that agree on every quantity (they may differ in explicit zero keys). */
  ghost predicate SameQuantities(a: ResourceList, b: ResourceList) {
    forall k :: Qty(a, k) == Qty(b, k)
  }

  /** Every quantity the list mentions is non-negative, as API validation demands of requests and limits. */
  predicate NonNegative(l: ResourceList) {
    forall k :: k in l ==> l[k] >= 0
  }

  /** Sum of two lists; the result names every key of either input. */
  function Add(a: ResourceList, b: ResourceList): (r: ResourceList)
    ensures r.Keys == a.Keys + b.Keys
    ensures forall k :: Qty(r, k) == Qty(a, k) + Qty(b, k)
  {
    map k | k in a.Keys + b.Keys :: Qty(a, k) + Qty(b, k)
  }

  /** Difference of two lists, not clamped at zero; the result names every key of either input. */
  function Subtract(a: ResourceList, b: ResourceList): (r: ResourceList)
    ensures r.Keys == a.Keys + b.Keys
    ensures forall k :: Qty(r, k) == Qty(a, k) - Qty(b, k)
  {
    map k | k in a.Keys + b.Keys :: Qty(a, k) - Qty(b, k)
  }

  /**
   * Difference clamped at zero key by key: the reading under which a
   * subtraction never records negative usage.
   */
  function SubtractClamped(a: ResourceList, b: ResourceList): (r: ResourceList)
    ensures r.Keys == a.Keys + b.Keys
    ensures forall k :: Qty(r, k) == MaxInt(Qty(a, k) - Qty(b, k), 0)
  {
    map k | k in a.Keys + b.Keys :: MaxInt(Qty(a, k) - Qty(b, k), 0)
  }

  /** The clamped and the unclamped difference coincide exactly when `b` nowhere exceeds `a`. */
  lemma SubtractReadingsAgree(a: ResourceList, b: ResourceList)
    ensures SubtractClamped(a, b) == Subtract(a, b) <==> forall k :: Qty(b, k) <= Qty(a, k)
  {
    var c, u := SubtractClamped(a, b), Subtract(a, b);
    if forall k :: Qty(b, k) <= Qty(a, k) {
      forall k | k in c
        ensures c[k] == u[k]
      {
        assert Qty(c, k) == Qty(u, k);
      }
      MapExtensionality(c, u);
    }
    if c == u {
      forall k
        ensures Qty(b, k) <= Qty(a, k)
      {
        assert Qty(c, k) == Qty(u, k);
      }
    }
  }

  /** Elementwise maximum: a key present in only one input keeps that input's value. */
  function Max(a: ResourceList, b: ResourceList): (r: ResourceList)
    ensures r.Keys == a.Keys + b.Keys
    ensures NonNegative(a) && NonNegative(b) ==>
              forall k :: Qty(r, k) == MaxInt(Qty(a, k), Qty(b, k))
  {
    map k | k in a.Keys + b.Keys ::
      if k in a && k in b then MaxInt(a[k], b[k])
      else if k in a then a[k]
      else b[k]
  }

  function MaxInt(x: int, y: int): int {
    if x >= y then x else y
  }

  /** Subtracting a contribution and adding it back restores a total that already names all its keys. */
  lemma AddSubtractCancel(total: ResourceList, part: ResourceList)
    requires part.Keys <= total.Keys
    ensures Add(Subtract(total, part), part) == total
  {
    var r := Add(Subtract(total, part), part);
    assert r.Keys == total.Keys;
    forall k | k in r
      ensures r[k] == total[k]
    {
      assert Qty(r, k) == Qty(total, k);
    }
  }

  /** Two maps with the same keys and the same value at every key are equal. */
  lemma MapExtensionality<K, V>(a: map<K, V>, b: map<K, V>)
    requires forall k :: k in a <==> k in b
    requires forall k :: k in a ==> a[k] == b[k]
    ensures a == b
  {
  }

  /** `s` starts with `p`. */
  predicate HasPrefix(s: string, p: string) {
    |p| <= |s| && s[..|p|] == p
  }

  /** `name` starts with one of `prefixes` (`quota.ContainsPrefix` of pkg/quota). */
  predicate ContainsPrefix(prefixes: seq<string>, name: string) {
    exists i :: 0 <= i < |prefixes| && HasPrefix(name, prefixes[i])
  }

  lemma PrefixOfConcat(p: string, s: string)
    ensures HasPrefix(p + s, p)
    ensures (p + s)[|p|..] == s
  {
    assert (p + s)[..|p|] == p;
  }

  /** A name whose first character differs from the prefix's does not start with it. */
  lemma FirstCharRulesOutPrefix(s: string, p: string)
    requires |s| > 0 && |p| > 0 && s[0] != p[0]
    ensures !HasPrefix(s, p)
  {
    if |p| <= |s| {
      assert s[..|p|][0] == s[0];
    }
  }

  /** A name cannot start with two prefixes whose first characters differ. */
  lemma PrefixesExclusive(s: string, p: string, q: string)
    requires |p| > 0 && |q| > 0 && p[0] != q[0]
    ensures HasPrefix(s, p) ==> !HasPrefix(s, q)
  {
    if HasPrefix(s, p) {
      assert s[..|p|][0] == s[0];
      if |q| <= |s| {
        assert s[..|q|][0] == s[0];
      }
    }
  }

  // ---------------------------------------------------------------------------
  // Folds over several lists
  // ---------------------------------------------------------------------------

  /** Adds the lists into `acc` one after another, left to right. */
  function AddAll(acc: ResourceList, ls: seq<ResourceList>): ResourceList
    decreases |ls|
  {
    if ls == [] then acc else AddAll(Add(acc, ls[0]), ls[1..])
  }

  /** Takes the elementwise maximum of `acc` with each list in turn, left to right. */
  function MaxAll(acc: ResourceList, ls: seq<ResourceList>): ResourceList
    decreases |ls|
  {
    if ls == [] then acc else MaxAll(Max(acc, ls[0]), ls[1..])
  }

  /** Reference: the total quantity of `k` over the lists. */
  function SumOf(ls: seq<ResourceList>, k: ResourceName): int
    decreases |ls|
  {
    if ls == [] then 0 else Qty(ls[0], k) + SumOf(ls[1..], k)
  }

  /** Reference: the largest quantity of `k` over the lists, 0 for none. */
  function MaxOf(ls: seq<ResourceList>, k: ResourceName): int
    decreases |ls|
  {
    if ls == [] then 0 else MaxInt(Qty(ls[0], k), MaxOf(ls[1..], k))
  }

  /** Reference: every name some list mentions. */
  function KeysOf(ls: seq<ResourceList>): set<ResourceName>
    decreases |ls|
  {
    if ls == [] then {} else ls[0].Keys + KeysOf(ls[1..])
  }

  predicate AllNonNegative(ls: seq<ResourceList>) {
    forall i :: 0 <= i < |ls| ==> NonNegative(ls[i])
  }

  /** Summing lists adds their total quantities. */
  lemma {:induction false} AddAllQty(acc: ResourceList, ls: seq<ResourceList>, k: ResourceName)
    ensures Qty(AddAll(acc, ls), k) == Qty(acc, k) + SumOf(ls, k)
    decreases |ls|
  {
    if ls != [] {
      AddAllQty(Add(acc, ls[0]), ls[1..], k);
    }
  }

  /** Summing lists names exactly the names some input names. */
  lemma {:induction false} AddAllKeys(acc: ResourceList, ls: seq<ResourceList>)
    ensures AddAll(acc, ls).Keys == acc.Keys + KeysOf(ls)
    decreases |ls|
  {
    if ls != [] {
      AddAllKeys(Add(acc, ls[0]), ls[1..]);
    }
  }

  lemma MaxNonNegative(a: ResourceList, b: ResourceList)
    requires NonNegative(a) && NonNegative(b)
    ensures NonNegative(Max(a, b))
  {
    var r := Max(a, b);
    forall k | k in r ensures r[k] >= 0 {
      assert Qty(r, k) == MaxInt(Qty(a, k), Qty(b, k));
    }
  }

  /** Over non-negative lists, the running maximum is the maximum of `acc` and every list. */
  lemma {:induction false} MaxAllQty(acc: ResourceList, ls: seq<ResourceList>, k: ResourceName)
    requires NonNegative(acc) && AllNonNegative(ls)
    ensures Qty(MaxAll(acc, ls), k) == MaxInt(Qty(acc, k), MaxOf(ls, k))
    decreases |ls|
  {
    if ls != [] {
      assert NonNegative(ls[0]);
      MaxNonNegative(acc, ls[0]);
      MaxAllQty(Max(acc, ls[0]), ls[1..], k);
    }
  }

  /** The running maximum names exactly the names some input names. */
  lemma {:induction false} MaxAllKeys(acc: ResourceList, ls: seq<ResourceList>)
    ensures MaxAll(acc, ls).Keys == acc.Keys + KeysOf(ls)
    decreases |ls|
  {
    if ls != [] {
      MaxAllKeys(Max(acc, ls[0]), ls[1..]);
    }
  }

  /** Summing non-negative lists gives a non-negative list. */
  lemma {:induction false} AddAllNonNegative(acc: ResourceList, ls: seq<ResourceList>)
    requires NonNegative(acc) && AllNonNegative(ls)
    ensures NonNegative(AddAll(acc, ls))
    decreases |ls|
  {
    if ls != [] {
      assert NonNegative(ls[0]);
      var next := Add(acc, ls[0]);
      forall k | k in next ensures next[k] >= 0 {
        assert Qty(next, k) == Qty(acc, k) + Qty(ls[0], k);
      }
      AddAllNonNegative(next, ls[1..]);
    }
  }
}
