/**
 * Comparators as the priority queues use them: `cmp(a, b) < 0` means that `a`
 * comes out of the queue before `b`.
 */
module Comparators {
  import opened Wrappers

  /** `a` may be dequeued no later than `b`. */
  predicate Le<T>(cmp: (T, T) -> int, a: T, b: T) {
    cmp(a, b) <= 0
  }

  /**
   * What the queues need of a comparator: the sign flips when the arguments are
   * swapped, and "not greater" is transitive. Together these make `Le` a total preorder.
   */
  ghost predicate IsComparator<T(!new)>(cmp: (T, T) -> int) {
    (forall a, b :: cmp(a, b) < 0 <==> cmp(b, a) > 0) &&
    (forall a, b, c :: Le(cmp, a, b) && Le(cmp, b, c) ==> Le(cmp, a, c))
  }

  lemma {:induction false} LeTotal<T(!new)>(cmp: (T, T) -> int, a: T, b: T)
    requires IsComparator(cmp)
    ensures Le(cmp, a, b) || Le(cmp, b, a)
    ensures cmp(a, b) < 0 ==> Le(cmp, a, b) && !Le(cmp, b, a)
    ensures !(cmp(a, b) < 0) ==> Le(cmp, b, a)
  {
  }

  lemma {:induction false} LeRefl<T(!new)>(cmp: (T, T) -> int, a: T)
    requires IsComparator(cmp)
    ensures Le(cmp, a, a) && cmp(a, a) == 0
  {
    assert cmp(a, a) < 0 <==> cmp(a, a) > 0;
  }

  lemma {:induction false} LeTrans<T(!new)>(cmp: (T, T) -> int, a: T, b: T, c: T)
    requires IsComparator(cmp)
    requires Le(cmp, a, b) && Le(cmp, b, c)
    ensures Le(cmp, a, c)
  {
  }

  lemma {:induction false} LtTrans<T(!new)>(cmp: (T, T) -> int, a: T, b: T, c: T)
    requires IsComparator(cmp)
    requires cmp(a, b) < 0 && cmp(b, c) < 0
    ensures cmp(a, c) < 0
  {
    LeTotal(cmp, a, b);
    LeTotal(cmp, b, c);
    LeTotal(cmp, a, c);
    if !(cmp(a, c) < 0) {
      LeTrans(cmp, c, a, b);
    }
  }

  /** The comparator a strategy falls back to when none is given: `a - b`. */
  function DefaultCompare(a: int, b: int): int {
    a - b
  }

  lemma {:induction false} DefaultCompareIsComparator()
    ensures IsComparator(DefaultCompare)
    ensures forall a, b :: Le(DefaultCompare, a, b) <==> a <= b
  {
  }

  /** JavaScript's `x || 0` on a number that may be missing (`undefined`). */
  function OrZero(x: Option<int>): int {
    match x
    case None => 0
    case Some(v) => v
  }

  /** The default comparator of the bundled `PriorityQueue`: `(a || 0) - (b || 0)`. */
  function BundleDefaultCompare(a: Option<int>, b: Option<int>): int {
    OrZero(a) - OrZero(b)
  }

  /** A missing number sorts like 0; present numbers sort by value. */
  lemma {:induction false} BundleDefaultCompareMeaning()
    ensures IsComparator(BundleDefaultCompare)
    ensures forall a, b :: Le(BundleDefaultCompare, Some(a), Some(b)) <==> a <= b
    ensures forall a :: BundleDefaultCompare(None, a) == BundleDefaultCompare(Some(0), a)
  {
  }

  /** s is ordered by cmp: no element is greater than a later one. */
  predicate SortedBy<T>(cmp: (T, T) -> int, s: seq<T>) {
    forall i, j :: 0 <= i < j < |s| ==> Le(cmp, s[i], s[j])
  }

  predicate Ascending(s: seq<int>) {
    forall i, j :: 0 <= i < j < |s| ==> s[i] <= s[j]
  }

  lemma {:induction false} SortedByDefaultIsAscending(s: seq<int>)
    ensures SortedBy(DefaultCompare, s) <==> Ascending(s)
  {
  }

  /** Two ascending integer sequences with the same elements are equal. */
  lemma {:induction false} AscendingUnique(a: seq<int>, b: seq<int>)
    requires Ascending(a) && Ascending(b)
    requires multiset(a) == multiset(b)
    ensures a == b
    decreases |a|
  {
    assert |a| == |multiset(a)| && |b| == |multiset(b)|;
    if |a| > 0 {
      SameHead(a, b);
      AscendingUnique(a[1..], b[1..]);
      TailsEqual(a, b);
    }
  }

  /** Non-empty ascending sequences with the same elements start alike, and what follows has the same elements. */
  lemma {:induction false} SameHead(a: seq<int>, b: seq<int>)
    requires Ascending(a) && Ascending(b) && |a| > 0
    requires multiset(a) == multiset(b)
    ensures |b| > 0 && a[0] == b[0]
    ensures Ascending(a[1..]) && Ascending(b[1..]) && multiset(a[1..]) == multiset(b[1..])
  {
    assert |a| == |multiset(a)| && |b| == |multiset(b)|;
    var j := IndexOf(b, a[0]);
    var k := IndexOf(a, b[0]);
    assert j > 0 ==> b[0] <= b[j];
    assert k > 0 ==> a[0] <= a[k];
    MultisetTail(a);
    MultisetTail(b);
  }

  /** A position of an element of s. */
  lemma {:induction false} IndexOf<T>(s: seq<T>, x: T) returns (j: nat)
    requires x in multiset(s)
    ensures j < |s| && s[j] == x
  {
    assert x in s;
    j :| 0 <= j < |s| && s[j] == x;
  }

  lemma {:induction false} MultisetTail<T>(a: seq<T>)
    requires |a| > 0
    ensures multiset(a[1..]) == multiset(a) - multiset{a[0]}
  {
    assert a == [a[0]] + a[1..];
  }

  lemma {:induction false} TailsEqual<T>(a: seq<T>, b: seq<T>)
    requires |a| > 0 && |b| > 0 && a[0] == b[0] && a[1..] == b[1..]
    ensures a == b
  {
    assert a == [a[0]] + a[1..] && b == [b[0]] + b[1..];
  }

  /** `Le` lifted to "x is not greater than anything in s". */
  ghost predicate IsMin<T>(cmp: (T, T) -> int, x: T, s: multiset<T>) {
    forall y :: y in s ==> Le(cmp, x, y)
  }
}
