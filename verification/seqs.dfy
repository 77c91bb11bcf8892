/** Order facts about sequences, used to state that a filtered list keeps its input order. */
module Seqs {

  /** `a` is obtained from `b` by deleting elements, without reordering what is left. */
  predicate Subsequence<T(==)>(a: seq<T>, b: seq<T>)
    decreases |b|
  {
    if a == [] then true
    else if b == [] then false
    else if a[0] == b[0] then Subsequence(a[1..], b[1..])
    else Subsequence(a, b[1..])
  }

  lemma {:induction false} SubsequenceDropHead<T>(a: seq<T>, b: seq<T>)
    requires a != [] && Subsequence(a, b)
    ensures Subsequence(a[1..], b)
    decreases |b|, 0
  {
    if b != [] {
      if a[0] == b[0] {
        SubsequenceSkip(a[1..], b[1..], b[0]);
        assert b == [b[0]] + b[1..];
      } else {
        SubsequenceDropHead(a, b[1..]);
        SubsequenceSkip(a[1..], b[1..], b[0]);
        assert b == [b[0]] + b[1..];
      }
    }
  }

  /** Prepending an element to the longer sequence keeps the relation. */
  lemma {:induction false} SubsequenceSkip<T>(a: seq<T>, b: seq<T>, x: T)
    requires Subsequence(a, b)
    ensures Subsequence(a, [x] + b)
    decreases |b|, 1
  {
    var xb := [x] + b;
    assert xb[1..] == b;
    if a != [] && a[0] == x {
      SubsequenceDropHead(a, b);
    }
  }

  /** Prepending the same element to both sides keeps the relation. */
  lemma SubsequenceCons<T>(a: seq<T>, b: seq<T>, x: T)
    requires Subsequence(a, b)
    ensures Subsequence([x] + a, [x] + b)
  {
    assert ([x] + a)[1..] == a;
    assert ([x] + b)[1..] == b;
  }

  /** Every sequence is a subsequence of itself. */
  lemma {:induction false} SubsequenceRefl<T>(a: seq<T>)
    ensures Subsequence(a, a)
    decreases |a|
  {
    if a != [] {
      SubsequenceRefl(a[1..]);
    }
  }

  /** Everything a subsequence holds, the longer sequence holds too. */
  lemma {:induction false} SubsequenceMembers<T>(a: seq<T>, b: seq<T>, x: T)
    requires Subsequence(a, b) && x in a
    ensures x in b
    decreases |b|
  {
    if a[0] == b[0] {
      if x != a[0] {
        SubsequenceMembers(a[1..], b[1..], x);
      }
    } else {
      SubsequenceMembers(a, b[1..], x);
    }
  }

  /** No element occurs twice. */
  predicate NoDuplicates<T(==)>(s: seq<T>) {
    forall i, j :: 0 <= i < j < |s| ==> s[i] != s[j]
  }

  /** The set of elements of a sequence. */
  function Elements<T>(s: seq<T>): set<T> {
    set i | 0 <= i < |s| :: s[i]
  }

  /** A subsequence of a sequence without duplicates has none either. */
  lemma {:induction false} SubsequenceNoDuplicates<T>(a: seq<T>, b: seq<T>)
    requires Subsequence(a, b) && NoDuplicates(b)
    ensures NoDuplicates(a)
    decreases |b|
  {
    if a != [] {
      assert NoDuplicates(b[1..]) by {
        forall i, j | 0 <= i < j < |b[1..]|
          ensures b[1..][i] != b[1..][j]
        {
          assert b[1..][i] == b[i + 1] && b[1..][j] == b[j + 1];
        }
      }
      if a[0] == b[0] {
        SubsequenceNoDuplicates(a[1..], b[1..]);
        forall j | 0 < j < |a|
          ensures a[0] != a[j]
        {
          assert a[j] == a[1..][j - 1];
          SubsequenceMembers(a[1..], b[1..], a[j]);
          var k :| 0 <= k < |b[1..]| && b[1..][k] == a[j];
          assert b[k + 1] == a[j];
        }
        forall i, j | 0 <= i < j < |a|
          ensures a[i] != a[j]
        {
          if i > 0 {
            assert a[i] == a[1..][i - 1] && a[j] == a[1..][j - 1];
          }
        }
      } else {
        SubsequenceNoDuplicates(a, b[1..]);
      }
    }
  }

  /**
   * One step of a filter's count: keeping or dropping the head of a list
   * keeps every kept element's count and drops every other element.
   */
  lemma FilterCountCons<T>(x: T, xs: seq<T>, rest: seq<T>, keep: T -> bool)
    requires forall y :: multiset(rest)[y] == if keep(y) then multiset(xs)[y] else 0
    ensures forall y :: multiset(if keep(x) then [x] + rest else rest)[y] == if keep(y) then multiset([x] + xs)[y] else 0
  {
    assert multiset([x] + xs) == multiset{x} + multiset(xs);
    if keep(x) {
      assert multiset([x] + rest) == multiset{x} + multiset(rest);
    }
  }
}
