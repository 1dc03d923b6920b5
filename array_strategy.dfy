/**
 * The sorted-array strategy of js-priority-queue: `data` is kept in descending
 * order, so the minimum sits at the end where `pop` removes it.
 */
module ArrayStrategy {
  import opened Wrappers
  import opened Comparators

  /** s is sorted by cmp from greatest to smallest. */
  predicate Descending<T>(cmp: (T, T) -> int, s: seq<T>) {
    forall i, j :: 0 <= i < j < |s| ==> Le(cmp, s[j], s[i])
  }

  /**
   * Where `binarySearchForIndexReversed` places `value`: every element before
   * the position compares `>= 0` against it and every element from it on `< 0`.
   */
  predicate IsInsertPosition<T>(cmp: (T, T) -> int, s: seq<T>, value: T, p: nat) {
    p <= |s| &&
    (forall k :: 0 <= k < p ==> cmp(s[k], value) >= 0) &&
    (forall k :: p <= k < |s| ==> cmp(s[k], value) < 0)
  }

  /** Reference definition: the length of the prefix that compares `>= 0` against `value`. */
  function LinearInsertPosition<T>(cmp: (T, T) -> int, s: seq<T>, value: T): (p: nat)
    ensures p <= |s|
  {
    if s == [] || cmp(s[0], value) < 0 then 0 else 1 + LinearInsertPosition(cmp, s[1..], value)
  }

  /** On a descending array the insert position exists and the linear scan finds it. */
  lemma {:induction false} LinearInsertPositionCorrect<T(!new)>(cmp: (T, T) -> int, s: seq<T>, value: T)
    requires IsComparator(cmp) && Descending(cmp, s)
    ensures IsInsertPosition(cmp, s, value, LinearInsertPosition(cmp, s, value))
  {
    if s != [] {
      if cmp(s[0], value) < 0 {
        forall k | 0 <= k < |s| ensures cmp(s[k], value) < 0 {
          if k > 0 {
            LeLtTrans(cmp, s[k], s[0], value);
          }
        }
      } else {
        assert Descending(cmp, s[1..]) by {
          forall i, j | 0 <= i < j < |s| - 1 ensures Le(cmp, s[1..][j], s[1..][i]) {
            assert s[1..][j] == s[j + 1] && s[1..][i] == s[i + 1];
          }
        }
        LinearInsertPositionCorrect(cmp, s[1..], value);
        var p := LinearInsertPosition(cmp, s[1..], value);
        forall k | 0 <= k < 1 + p ensures cmp(s[k], value) >= 0 {
          if k > 0 {
            assert s[k] == s[1..][k - 1];
          }
        }
        forall k | 1 + p <= k < |s| ensures cmp(s[k], value) < 0 {
          assert s[k] == s[1..][k - 1];
        }
      }
    }
  }

  lemma {:induction false} LeLtTrans<T(!new)>(cmp: (T, T) -> int, a: T, b: T, c: T)
    requires IsComparator(cmp) && Le(cmp, a, b) && cmp(b, c) < 0
    ensures cmp(a, c) < 0
  {
    LeTotal(cmp, a, c);
    if !(cmp(a, c) < 0) {
      LeTrans(cmp, c, a, b);
      LeTotal(cmp, b, c);
    }
  }

  /**
   * `binarySearchForIndexReversed`: bisect a descending array for the first
   * element that compares strictly less than `value`.
   */
  method BinarySearchForIndexReversed<T(!new)>(items: seq<T>, value: T, cmp: (T, T) -> int) returns (low: nat)
    requires IsComparator(cmp) && Descending(cmp, items)
    ensures IsInsertPosition(cmp, items, value, low)
    ensures low == LinearInsertPosition(cmp, items, value)
  {
    ghost var target := LinearInsertPosition(cmp, items, value);
    LinearInsertPositionCorrect(cmp, items, value);
    low := 0;
    var high := |items|;
    while low < high
      invariant low <= target <= high <= |items|
    {
      var mid := (low + high) / 2;
      if cmp(items[mid], value) >= 0 {
        low := mid + 1;
      } else {
        high := mid;
      }
    }
  }

  /** Inserting at the insert position keeps a descending array descending. */
  lemma {:induction false} InsertKeepsDescending<T(!new)>(cmp: (T, T) -> int, s: seq<T>, value: T, p: nat)
    requires IsComparator(cmp) && Descending(cmp, s) && IsInsertPosition(cmp, s, value, p)
    ensures Descending(cmp, s[..p] + [value] + s[p..])
  {
    var t := s[..p] + [value] + s[p..];
    forall i, j | 0 <= i < j < |t| ensures Le(cmp, t[j], t[i]) {
      if j < p || i > p {
        assert t[i] == (if i < p then s[i] else s[i - 1]);
        assert t[j] == (if j < p then s[j] else s[j - 1]);
      } else if i == p {
        assert t[j] == s[j - 1];
        LeTotal(cmp, s[j - 1], value);
      } else if j == p {
        assert t[i] == s[i];
        LeTotal(cmp, s[i], value);
      } else {
        assert t[i] == s[i] && t[j] == s[j - 1];
      }
    }
  }

  /** JavaScript's `Array.prototype.sort` with a comparator, modelled as a stable insertion sort. */
  function InsertSorted<T>(cmp: (T, T) -> int, x: T, s: seq<T>): seq<T> {
    if s == [] || Le(cmp, x, s[0]) then [x] + s else [s[0]] + InsertSorted(cmp, x, s[1..])
  }

  function SortAscending<T>(cmp: (T, T) -> int, s: seq<T>): seq<T> {
    if s == [] then [] else InsertSorted(cmp, s[0], SortAscending(cmp, s[1..]))
  }

  function Reverse<T>(s: seq<T>): seq<T> {
    if s == [] then [] else Reverse(s[1..]) + [s[0]]
  }

  lemma {:induction false} InsertSortedPermutes<T>(cmp: (T, T) -> int, x: T, s: seq<T>)
    ensures multiset(InsertSorted(cmp, x, s)) == multiset(s) + multiset{x}
  {
    if s != [] && !Le(cmp, x, s[0]) {
      InsertSortedPermutes(cmp, x, s[1..]);
      assert s == [s[0]] + s[1..];
    }
  }

  lemma {:induction false} InsertSortedSorted<T(!new)>(cmp: (T, T) -> int, x: T, s: seq<T>)
    requires IsComparator(cmp) && SortedBy(cmp, s)
    ensures SortedBy(cmp, InsertSorted(cmp, x, s))
  {
    if s == [] || Le(cmp, x, s[0]) {
      if s != [] {
        forall j | 0 <= j < |s| ensures Le(cmp, x, s[j]) {
          if j > 0 {
            LeTrans(cmp, x, s[0], s[j]);
          }
        }
      }
      ConsSorted(cmp, x, s);
    } else {
      LeTotal(cmp, x, s[0]);
      SortedTail(cmp, s);
      InsertSortedSorted(cmp, x, s[1..]);
      HeadBelowInsert(cmp, x, s);
      ConsSorted(cmp, s[0], InsertSorted(cmp, x, s[1..]));
    }
  }

  /** An element not greater than any element of a sorted sequence can go in front. */
  lemma {:induction false} ConsSorted<T>(cmp: (T, T) -> int, a: T, t: seq<T>)
    requires SortedBy(cmp, t) && forall j :: 0 <= j < |t| ==> Le(cmp, a, t[j])
    ensures SortedBy(cmp, [a] + t)
  {
    var r := [a] + t;
    forall i, j | 0 <= i < j < |r| ensures Le(cmp, r[i], r[j]) {
      assert r[j] == t[j - 1];
      if i > 0 {
        assert r[i] == t[i - 1];
      }
    }
  }

  lemma {:induction false} SortedTail<T>(cmp: (T, T) -> int, s: seq<T>)
    requires SortedBy(cmp, s) && s != []
    ensures SortedBy(cmp, s[1..])
  {
    forall i, j | 0 <= i < j < |s| - 1 ensures Le(cmp, s[1..][i], s[1..][j]) {
      assert s[1..][i] == s[i + 1] && s[1..][j] == s[j + 1];
    }
  }

  /** The head of a sorted sequence is not greater than x nor any later element, so not greater than anything x is inserted among. */
  lemma {:induction false} HeadBelowInsert<T(!new)>(cmp: (T, T) -> int, x: T, s: seq<T>)
    requires IsComparator(cmp) && SortedBy(cmp, s) && s != [] && Le(cmp, s[0], x)
    ensures forall j :: 0 <= j < |InsertSorted(cmp, x, s[1..])| ==> Le(cmp, s[0], InsertSorted(cmp, x, s[1..])[j])
  {
    var t := InsertSorted(cmp, x, s[1..]);
    InsertSortedPermutes(cmp, x, s[1..]);
    forall j | 0 <= j < |t| ensures Le(cmp, s[0], t[j]) {
      assert t[j] in multiset(t);
      assert t[j] == x || t[j] in multiset(s[1..]);
      if t[j] != x {
        var k :| 0 <= k < |s[1..]| && s[1..][k] == t[j];
        assert s[k + 1] == t[j];
      }
    }
  }

  lemma {:induction false} SortAscendingCorrect<T(!new)>(cmp: (T, T) -> int, s: seq<T>)
    requires IsComparator(cmp)
    ensures SortedBy(cmp, SortAscending(cmp, s))
    ensures multiset(SortAscending(cmp, s)) == multiset(s)
  {
    if s != [] {
      SortAscendingCorrect(cmp, s[1..]);
      InsertSortedSorted(cmp, s[0], SortAscending(cmp, s[1..]));
      InsertSortedPermutes(cmp, s[0], SortAscending(cmp, s[1..]));
      assert s == [s[0]] + s[1..];
    }
  }

  lemma {:induction false} ReverseAt<T>(s: seq<T>)
    ensures |Reverse(s)| == |s|
    ensures forall k :: 0 <= k < |s| ==> Reverse(s)[k] == s[|s| - 1 - k]
    ensures multiset(Reverse(s)) == multiset(s)
  {
    if s != [] {
      ReverseAt(s[1..]);
      assert s == [s[0]] + s[1..];
    }
  }

  /** The constructor's `sort(comparator).reverse()` yields a descending permutation. */
  lemma {:induction false} SortThenReverse<T(!new)>(cmp: (T, T) -> int, s: seq<T>)
    requires IsComparator(cmp)
    ensures Descending(cmp, Reverse(SortAscending(cmp, s)))
    ensures multiset(Reverse(SortAscending(cmp, s))) == multiset(s)
  {
    var a := SortAscending(cmp, s);
    SortAscendingCorrect(cmp, s);
    ReverseAt(a);
    var r := Reverse(a);
    forall i, j | 0 <= i < j < |r| ensures Le(cmp, r[j], r[i]) {
      assert r[j] == a[|a| - 1 - j] && r[i] == a[|a| - 1 - i];
    }
  }

  /** The last element of a descending array is a minimum. */
  lemma {:induction false} LastIsMin<T(!new)>(cmp: (T, T) -> int, s: seq<T>)
    requires IsComparator(cmp) && Descending(cmp, s) && |s| > 0
    ensures IsMin(cmp, s[|s| - 1], multiset(s))
  {
    forall y | y in multiset(s) ensures Le(cmp, s[|s| - 1], y) {
      var i :| 0 <= i < |s| && s[i] == y;
      if i == |s| - 1 {
        LeRefl(cmp, y);
      }
    }
  }

  class ArrayStrategy<T(!new)> {
    const comparator: (T, T) -> int
    var data: seq<T>

    ghost predicate Valid()
      reads this
    {
      IsComparator(comparator) && Descending(comparator, data)
    }

    /** Copy `initialValues`, sort the copy with the comparator and reverse it. */
    constructor (comparator: (T, T) -> int, initialValues: seq<T>)
      requires IsComparator(comparator)
      ensures Valid() && this.comparator == comparator
      ensures data == Reverse(SortAscending(comparator, initialValues))
      ensures multiset(data) == multiset(initialValues)
    {
      this.comparator := comparator;
      data := Reverse(SortAscending(comparator, initialValues));
      SortThenReverse(comparator, initialValues);
    }

    /**
     * `queue`: splice `value` in at its insert position, after every element
     * that does not compare less than it (so after equal elements).
     */
    method Queue(value: T)
      requires Valid()
      modifies this
      ensures Valid()
      ensures exists p: nat :: (IsInsertPosition(comparator, old(data), value, p) &&
        data == old(data)[..p] + [value] + old(data)[p..])
      ensures multiset(data) == old(multiset(data)) + multiset{value}
    {
      var pos := BinarySearchForIndexReversed(data, value, comparator);
      InsertKeepsDescending(comparator, data, value, pos);
      assert data == data[..pos] + data[pos..];
      data := data[..pos] + [value] + data[pos..];
    }

    /** `dequeue`: pop the last element, a minimum; `undefined` on an empty array. */
    method Dequeue() returns (r: Option<T>)
      requires Valid()
      modifies this
      ensures Valid()
      ensures old(|data|) == 0 ==> r == None && data == old(data)
      ensures old(|data|) > 0 ==>
        r == Some(old(data[|data| - 1])) && data == old(data[..|data| - 1]) &&
        IsMin(comparator, r.value, old(multiset(data)))
    {
      if |data| == 0 {
        return None;
      }
      LastIsMin(comparator, data);
      r := Some(data[|data| - 1]);
      data := data[..|data| - 1];
    }

    /** `peek`: the last element, or `undefined` on an empty array. */
    method Peek() returns (r: Option<T>)
      requires Valid()
      ensures |data| == 0 ==> r == None
      ensures |data| > 0 ==> r == Some(data[|data| - 1]) && IsMin(comparator, r.value, multiset(data))
    {
      if |data| == 0 {
        return None;
      }
      LastIsMin(comparator, data);
      return Some(data[|data| - 1]);
    }
  }

  /**
   * Equal elements leave in reverse order of arrival: a value queued after an
   * equal one is placed nearer the end, where `dequeue` pops.
   */
  lemma {:induction false} TiesGoAfter<T(!new)>(cmp: (T, T) -> int, s: seq<T>, value: T, p: nat, k: nat)
    requires IsComparator(cmp) && IsInsertPosition(cmp, s, value, p)
    requires k < |s| && cmp(s[k], value) == 0
    ensures k < p
  {
  }
}
