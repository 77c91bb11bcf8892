/**
 * Lock ordering in the admission webhook: the quotas a request touches are
 * sorted by name, their per-UID locks are taken in that order, and the
 * returned release function unlocks them in reverse. Locks are modelled as
 * the sequence of lock and unlock events they produce.
 */
module LockOrder {
  import opened Results

  /** The parts of a quota the locking reads. */
  datatype QuotaRef = QuotaRef(name: string, uid: string)

  datatype LockEvent = Lock(uid: string) | Unlock(uid: string)

  // ---------------------------------------------------------------------------
  // Go string order
  // ---------------------------------------------------------------------------

  /**
   * Go's `<` on strings: lexicographic on bytes. Characters here are Unicode
   * scalar values, whose numeric order is the byte order of their UTF-8
   * encodings, so comparing characters compares the encoded bytes.
   */
  predicate LexLess(a: string, b: string)
    decreases |a|
  {
    if b == [] then false
    else if a == [] then true
    else if a[0] != b[0] then a[0] < b[0]
    else LexLess(a[1..], b[1..])
  }

  lemma {:induction false} LexLessIrreflexive(a: string)
    ensures !LexLess(a, a)
    decreases |a|
  {
    if a != [] {
      LexLessIrreflexive(a[1..]);
    }
  }

  lemma {:induction false} LexLessAsymmetric(a: string, b: string)
    ensures LexLess(a, b) ==> !LexLess(b, a)
    decreases |a|
  {
    if a != [] && b != [] && a[0] == b[0] {
      LexLessAsymmetric(a[1..], b[1..]);
    }
  }

  lemma {:induction false} LexLessTransitive(a: string, b: string, c: string)
    requires LexLess(a, b) && LexLess(b, c)
    ensures LexLess(a, c)
    decreases |a|
  {
    if a != [] && a[0] == b[0] && b[0] == c[0] {
      LexLessTransitive(a[1..], b[1..], c[1..]);
    }
  }

  /** Distinct strings are ordered one way or the other. */
  lemma {:induction false} LexLessTotal(a: string, b: string)
    requires a != b
    ensures LexLess(a, b) || LexLess(b, a)
    decreases |a|
  {
    if a != [] && b != [] && a[0] == b[0] {
      assert a == [a[0]] + a[1..] && b == [b[0]] + b[1..];
      LexLessTotal(a[1..], b[1..]);
    }
  }

  // ---------------------------------------------------------------------------
  // Sorting by name
  // ---------------------------------------------------------------------------

  /** No quota is followed by one with a strictly smaller name. */
  predicate SortedByName(s: seq<QuotaRef>) {
    forall i, j :: 0 <= i < j < |s| ==> !LexLess(s[j].name, s[i].name)
  }

  /** Inserts a quota before the first one whose name is not smaller. */
  function InsertByName(x: QuotaRef, s: seq<QuotaRef>): (r: seq<QuotaRef>)
    ensures |r| == |s| + 1
    ensures forall y :: y in r <==> y == x || y in s
    decreases |s|
  {
    if s == [] then [x]
    else if LexLess(s[0].name, x.name) then [s[0]] + InsertByName(x, s[1..])
    else [x] + s
  }

  lemma SortedCons(h: QuotaRef, t: seq<QuotaRef>)
    requires SortedByName(t) && forall j :: 0 <= j < |t| ==> !LexLess(t[j].name, h.name)
    ensures SortedByName([h] + t)
  {
    var r := [h] + t;
    forall i, j | 0 <= i < j < |r|
      ensures !LexLess(r[j].name, r[i].name)
    {
      assert r[j] == t[j - 1];
      if i > 0 {
        assert r[i] == t[i - 1];
      }
    }
  }

  lemma SortedTail(s: seq<QuotaRef>)
    requires SortedByName(s) && s != []
    ensures SortedByName(s[1..])
    ensures forall j :: 0 <= j < |s[1..]| ==> !LexLess(s[1..][j].name, s[0].name)
  {
    forall i, j | 0 <= i < j < |s[1..]|
      ensures !LexLess(s[1..][j].name, s[1..][i].name)
    {
      assert s[1..][i] == s[i + 1] && s[1..][j] == s[j + 1];
    }
    forall j | 0 <= j < |s[1..]|
      ensures !LexLess(s[1..][j].name, s[0].name)
    {
      assert s[1..][j] == s[j + 1];
    }
  }

  /** Inserting into a sorted sequence keeps it sorted. */
  lemma {:induction false} InsertByNameSorted(x: QuotaRef, s: seq<QuotaRef>)
    requires SortedByName(s)
    ensures SortedByName(InsertByName(x, s))
    decreases |s|
  {
    if s != [] {
      SortedTail(s);
      if LexLess(s[0].name, x.name) {
        var t := InsertByName(x, s[1..]);
        InsertByNameSorted(x, s[1..]);
        forall j | 0 <= j < |t|
          ensures !LexLess(t[j].name, s[0].name)
        {
          assert t[j] in t;
          if t[j] == x {
            LexLessAsymmetric(s[0].name, x.name);
          } else {
            var k :| 0 <= k < |s[1..]| && s[1..][k] == t[j];
          }
        }
        SortedCons(s[0], t);
      } else {
        forall j | 0 <= j < |s|
          ensures !LexLess(s[j].name, x.name)
        {
          if j > 0 && LexLess(s[j].name, x.name) {
            assert s[j] == s[1..][j - 1];
            if s[j].name != s[0].name {
              LexLessTotal(s[j].name, s[0].name);
              LexLessTransitive(s[0].name, s[j].name, x.name);
            }
          }
        }
        SortedCons(x, s);
      }
    }
  }

  /** Inserting adds exactly one occurrence of the quota. */
  lemma {:induction false} InsertByNamePermutes(x: QuotaRef, s: seq<QuotaRef>)
    ensures multiset(InsertByName(x, s)) == multiset(s) + multiset{x}
    decreases |s|
  {
    if s != [] {
      assert s == [s[0]] + s[1..];
      if LexLess(s[0].name, x.name) {
        InsertByNamePermutes(x, s[1..]);
      }
    }
  }

  /**
   * Sorts by name. Go's sort.Sort is not stable, so quotas with equal names
   * may come out in another order than here; with distinct names every
   * sorted arrangement is this one.
   */
  function SortByName(s: seq<QuotaRef>): (r: seq<QuotaRef>)
    ensures SortedByName(r)
    ensures multiset(r) == multiset(s)
    ensures |r| == |s|
    decreases |s|
  {
    if s == [] then []
    else
      var t := SortByName(s[1..]);
      InsertByNameSorted(s[0], t);
      InsertByNamePermutes(s[0], t);
      assert s == [s[0]] + s[1..];
      InsertByName(s[0], t)
  }

  /** In a sorted sequence, a smaller name comes first. */
  lemma SortedOrder(s: seq<QuotaRef>, i: int, j: int)
    requires SortedByName(s) && 0 <= i < |s| && 0 <= j < |s| && s[i].name != s[j].name
    ensures i < j <==> LexLess(s[i].name, s[j].name)
  {
    LexLessTotal(s[i].name, s[j].name);
    LexLessAsymmetric(s[i].name, s[j].name);
  }

  /**
   * Two sorted sequences place any two differently named quotas they share
   * in the same relative order, so two requests never wait on each other's
   * locks in opposite orders.
   */
  lemma SharedPairsSameOrder(a: seq<QuotaRef>, b: seq<QuotaRef>, ia: int, ja: int, ib: int, jb: int)
    requires SortedByName(a) && SortedByName(b)
    requires 0 <= ia < |a| && 0 <= ja < |a| && 0 <= ib < |b| && 0 <= jb < |b|
    requires a[ia] == b[ib] && a[ja] == b[jb] && a[ia].name != a[ja].name
    ensures ia < ja <==> ib < jb
  {
    SortedOrder(a, ia, ja);
    SortedOrder(b, ib, jb);
  }

  // ---------------------------------------------------------------------------
  // Acquisition and release
  // ---------------------------------------------------------------------------

  /** The UIDs of the quotas, in order. */
  function Uids(s: seq<QuotaRef>): (r: seq<string>)
    ensures |r| == |s|
    decreases |s|
  {
    if s == [] then [] else [s[0].uid] + Uids(s[1..])
  }

  function Locks(uids: seq<string>): (r: seq<LockEvent>)
    ensures |r| == |uids|
    ensures forall i :: 0 <= i < |uids| ==> r[i] == Lock(uids[i])
    decreases |uids|
  {
    if uids == [] then [] else [Lock(uids[0])] + Locks(uids[1..])
  }

  /** What the release function does: unlock the held locks from last to first. */
  function Release(held: seq<string>): (r: seq<LockEvent>)
    ensures |r| == |held|
    ensures forall i :: 0 <= i < |held| ==> r[i] == Unlock(held[|held| - 1 - i])
    decreases |held|
  {
    if held == [] then [] else [Unlock(held[|held| - 1])] + Release(held[..|held| - 1])
  }

  /** The outcome of lock acquisition: the locks held, in order, and the events so far. */
  datatype Acquisition = Acquisition(held: seq<string>, events: seq<LockEvent>)

  /** Sorts the quotas by name and locks each one's UID in that order. */
  function LockAcquisition(quotas: seq<QuotaRef>): (r: Acquisition)
    ensures |r.held| == |quotas| && r.events == Locks(r.held)
    ensures exists sorted: seq<QuotaRef> :: SortedByName(sorted) && multiset(sorted) == multiset(quotas) && r.held == Uids(sorted)
  {
    var sorted := SortByName(quotas);
    Acquisition(Uids(sorted), Locks(Uids(sorted)))
  }

  /**
   * Replays lock events against a stack of held locks: a lock pushes, an
   * unlock must pop the most recently taken lock. None means the events
   * break that discipline.
   */
  function Replay(stack: seq<string>, events: seq<LockEvent>): Option<seq<string>>
    decreases |events|
  {
    if events == [] then Some(stack)
    else
      match events[0]
      case Lock(u) => Replay(stack + [u], events[1..])
      case Unlock(u) =>
        if stack != [] && stack[|stack| - 1] == u then Replay(stack[..|stack| - 1], events[1..]) else None
  }

  lemma ReplayLockHead(stack: seq<string>, u: string, tail: seq<LockEvent>)
    ensures Replay(stack, [Lock(u)] + tail) == Replay(stack + [u], tail)
  {
    assert ([Lock(u)] + tail)[1..] == tail;
  }

  lemma {:induction false} ReplayLocks(stack: seq<string>, held: seq<string>, rest: seq<LockEvent>)
    ensures Replay(stack, Locks(held) + rest) == Replay(stack + held, rest)
    decreases |held|
  {
    if held != [] {
      calc {
        Replay(stack, Locks(held) + rest);
        { assert Locks(held) + rest == [Lock(held[0])] + (Locks(held[1..]) + rest); }
        Replay(stack, [Lock(held[0])] + (Locks(held[1..]) + rest));
        { ReplayLockHead(stack, held[0], Locks(held[1..]) + rest); }
        Replay(stack + [held[0]], Locks(held[1..]) + rest);
        { ReplayLocks(stack + [held[0]], held[1..], rest); }
        Replay(stack + [held[0]] + held[1..], rest);
        { assert stack + [held[0]] + held[1..] == stack + held; }
        Replay(stack + held, rest);
      }
    } else {
      assert Locks(held) + rest == rest && stack + held == stack;
    }
  }

  lemma {:induction false} ReplayRelease(stack: seq<string>, held: seq<string>)
    ensures Replay(stack + held, Release(held)) == Some(stack)
    decreases |held|
  {
    if held == [] {
      assert stack + held == stack;
    } else {
      var last := |held| - 1;
      assert (stack + held)[..|stack + held| - 1] == stack + held[..last];
      assert Release(held)[1..] == Release(held[..last]);
      ReplayRelease(stack, held[..last]);
    }
  }

  /**
   * Acquiring and then releasing follows a strict stack discipline: every
   * unlock releases the most recently taken lock still held, and at the end
   * nothing is held.
   */
  lemma AcquireThenReleaseBalanced(quotas: seq<QuotaRef>)
    ensures var a := LockAcquisition(quotas);
            Replay([], a.events + Release(a.held)) == Some([])
  {
    var a := LockAcquisition(quotas);
    ReplayLocks([], a.held, Release(a.held));
    ReplayRelease([], a.held);
    assert [] + a.held == a.held;
  }

  /**
   * One lock per input quota, keyed by its UID, and each released exactly
   * once, in the reverse of the order taken: the locked UIDs are the input's
   * UIDs.
   */
  lemma LockPerQuota(quotas: seq<QuotaRef>)
    ensures var a := LockAcquisition(quotas);
            && multiset(a.held) == multiset(Uids(quotas))
            && |Release(a.held)| == |quotas|
            && forall i :: 0 <= i < |a.held| ==> Release(a.held)[|a.held| - 1 - i] == Unlock(a.held[i])
  {
    LockedUids(quotas);
    ReleaseReversed(LockAcquisition(quotas).held);
  }

  lemma LockedUids(quotas: seq<QuotaRef>)
    ensures multiset(LockAcquisition(quotas).held) == multiset(Uids(quotas))
  {
    UidsOfSort(quotas);
  }

  lemma ReleaseReversed(held: seq<string>)
    ensures forall i :: 0 <= i < |held| ==> Release(held)[|held| - 1 - i] == Unlock(held[i])
  {
    var n := |held|;
    forall i | 0 <= i < n
      ensures Release(held)[n - 1 - i] == Unlock(held[i])
    {
      assert n - 1 - (n - 1 - i) == i;
    }
  }

  lemma UidsCons(x: QuotaRef, s: seq<QuotaRef>)
    ensures Uids([x] + s) == [x.uid] + Uids(s)
  {
    assert ([x] + s)[1..] == s;
  }

  lemma {:induction false} UidsOfInsert(x: QuotaRef, s: seq<QuotaRef>)
    ensures multiset(Uids(InsertByName(x, s))) == multiset(Uids(s)) + multiset{x.uid}
    decreases |s|
  {
    if s != [] {
      assert s == [s[0]] + s[1..];
      UidsCons(s[0], s[1..]);
      if LexLess(s[0].name, x.name) {
        UidsOfInsert(x, s[1..]);
        UidsCons(s[0], InsertByName(x, s[1..]));
      } else {
        UidsCons(x, s);
      }
    }
  }

  lemma {:induction false} UidsOfSort(s: seq<QuotaRef>)
    ensures multiset(Uids(SortByName(s))) == multiset(Uids(s))
    decreases |s|
  {
    if s != [] {
      var t := SortByName(s[1..]);
      assert multiset(Uids(t)) == multiset(Uids(s[1..])) by {
        UidsOfSort(s[1..]);
      }
      assert multiset(Uids(InsertByName(s[0], t))) == multiset(Uids(t)) + multiset{s[0].uid} by {
        UidsOfInsert(s[0], t);
      }
      assert multiset(Uids(s)) == multiset(Uids(s[1..])) + multiset{s[0].uid} by {
        UidsCons(s[0], s[1..]);
        assert s == [s[0]] + s[1..];
      }
      assert SortByName(s) == InsertByName(s[0], t);
    }
  }
}
