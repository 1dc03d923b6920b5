/**
 * The binary min-heap strategy of js-priority-queue. The heap lives in a
 * growable array `data`; the children of index i are 2i+1 and 2i+2 and its
 * parent is (i-1) >>> 1, which for the non-negative indices used here is (i-1)/2.
 */
module BinaryHeap {
  import opened Wrappers
  import opened Comparators

  function Parent(i: nat): nat
    requires i > 0
  {
    (i - 1) / 2
  }

  /** The first n elements of s are in heap order: no parent is greater than its child. */
  predicate HeapUpTo<T>(cmp: (T, T) -> int, s: seq<T>, n: nat)
    requires n <= |s|
  {
    forall i :: 0 < i < n ==> Le(cmp, s[Parent(i)], s[i])
  }

  predicate IsHeap<T>(cmp: (T, T) -> int, s: seq<T>) {
    HeapUpTo(cmp, s, |s|)
  }

  /**
   * Heap order on the first n elements except between `pos` and its parent;
   * the parent of `pos` is also not greater than the children of `pos`.
   * This is what holds while `_bubbleUp` moves an element towards the root.
   */
  predicate HeapExceptUp<T>(cmp: (T, T) -> int, s: seq<T>, n: nat, pos: nat)
    requires pos < n <= |s|
  {
    (forall i :: 0 < i < n && i != pos ==> Le(cmp, s[Parent(i)], s[i])) &&
    (pos > 0 ==> forall c :: 0 < c < n && Parent(c) == pos ==> Le(cmp, s[Parent(pos)], s[c]))
  }

  /**
   * Heap order except between `pos` and its children; the parent of `pos` is
   * not greater than those children. This is what holds during `_bubbleDown`.
   */
  predicate HeapExceptDown<T>(cmp: (T, T) -> int, s: seq<T>, pos: nat)
    requires pos < |s|
  {
    (forall i :: 0 < i < |s| && Parent(i) != pos ==> Le(cmp, s[Parent(i)], s[i])) &&
    (pos > 0 ==> forall c :: 0 < c < |s| && Parent(c) == pos ==> Le(cmp, s[Parent(pos)], s[c]))
  }

  /** Every element of a heap is bounded below by the root. */
  lemma {:induction false} RootIsMin<T(!new)>(cmp: (T, T) -> int, s: seq<T>, i: nat)
    requires IsComparator(cmp) && IsHeap(cmp, s) && i < |s|
    ensures Le(cmp, s[0], s[i])
    decreases i
  {
    if i == 0 {
      LeRefl(cmp, s[0]);
    } else {
      RootIsMin(cmp, s, Parent(i));
      LeTrans(cmp, s[0], s[Parent(i)], s[i]);
    }
  }

  lemma {:induction false} RootIsMinOfAll<T(!new)>(cmp: (T, T) -> int, s: seq<T>)
    requires IsComparator(cmp) && IsHeap(cmp, s) && |s| > 0
    ensures IsMin(cmp, s[0], multiset(s))
  {
    forall y | y in multiset(s) ensures Le(cmp, s[0], y) {
      var i :| 0 <= i < |s| && s[i] == y;
      RootIsMin(cmp, s, i);
    }
  }

  /**
   * Moving the last element of a heap to the root drops the root and leaves the
   * order broken only below the root.
   */
  lemma {:induction false} LastToRoot<T>(cmp: (T, T) -> int, s: seq<T>)
    requires IsHeap(cmp, s) && |s| >= 2
    ensures HeapExceptDown(cmp, s[..|s| - 1][0 := s[|s| - 1]], 0)
    ensures multiset(s[..|s| - 1][0 := s[|s| - 1]]) + multiset{s[0]} == multiset(s)
  {
    var n := |s| - 1;
    var rest := s[..n];
    assert s == rest + [s[n]];
    assert rest == [s[0]] + rest[1..];
    assert rest[0 := s[n]] == [s[n]] + rest[1..];
  }

  /** Exchanging two positions permutes the sequence. */
  lemma {:induction false} SwapPermutes<T>(s: seq<T>, i: nat, j: nat)
    requires i < |s| && j < |s|
    ensures multiset(s[i := s[j]][j := s[i]]) == multiset(s)
  {
  }

  class BinaryHeapStrategy<T(!new)> {
    const comparator: (T, T) -> int
    var data: seq<T>

    ghost predicate Valid()
      reads this
    {
      IsComparator(comparator) && IsHeap(comparator, data)
    }

    /** The constructor copies `initialValues` (a JS slice) and heapifies the copy. */
    constructor (comparator: (T, T) -> int, initialValues: seq<T>)
      requires IsComparator(comparator)
      ensures Valid() && this.comparator == comparator
      ensures |data| == |initialValues| && multiset(data) == multiset(initialValues)
    {
      this.comparator := comparator;
      data := initialValues;
      new;
      Heapify();
    }

    /** `_heapify`: bubble up every index from 1 to the end, growing the heap prefix. */
    method Heapify()
      requires IsComparator(comparator)
      modifies this
      ensures Valid()
      ensures |data| == old(|data|) && multiset(data) == old(multiset(data))
    {
      if |data| > 0 {
        var i := 1;
        while i < |data|
          invariant 1 <= i <= |data|
          invariant |data| == old(|data|) && multiset(data) == old(multiset(data))
          invariant HeapUpTo(comparator, data, i)
        {
          BubbleUp(i, i + 1);
          i := i + 1;
        }
      }
    }

    /** `queue`: push at the end, then bubble it up. */
    method Queue(value: T)
      requires Valid()
      modifies this
      ensures Valid()
      ensures |data| == old(|data|) + 1
      ensures multiset(data) == old(multiset(data)) + multiset{value}
    {
      data := data + [value];
      BubbleUp(|data| - 1, |data|);
    }

    /**
     * `dequeue`: take the root, move the last element to the root and bubble it
     * down. On an empty heap JavaScript returns `undefined` and nothing changes.
     */
    method Dequeue() returns (r: Option<T>)
      requires Valid()
      modifies this
      ensures Valid()
      ensures old(|data|) == 0 ==> r == None && data == old(data)
      ensures old(|data|) > 0 ==>
        r == Some(old(data[0])) && IsMin(comparator, r.value, old(multiset(data))) &&
        |data| == old(|data|) - 1 &&
        multiset(data) + multiset{r.value} == old(multiset(data))
    {
      if |data| == 0 {
        return None;
      }
      RootIsMinOfAll(comparator, data);
      r := Some(data[0]);
      ghost var s := data;
      var last := data[|data| - 1];
      data := data[..|data| - 1];
      if |data| > 0 {
        LastToRoot(comparator, s);
        data := data[0 := last];
        BubbleDown(0);
      } else {
        assert s == [s[0]];
      }
    }

    /** `peek`: the root, or `undefined` on an empty heap. */
    method Peek() returns (r: Option<T>)
      requires Valid()
      ensures |data| == 0 ==> r == None
      ensures |data| > 0 ==> r == Some(data[0]) && IsMin(comparator, data[0], multiset(data))
    {
      if |data| == 0 {
        return None;
      }
      RootIsMinOfAll(comparator, data);
      return Some(data[0]);
    }

    /**
     * `_bubbleUp(pos)`: swap the element with its parent while it compares strictly
     * less. `n` is the length of the prefix that is being kept in heap order.
     */
    method BubbleUp(pos: nat, ghost n: nat)
      requires IsComparator(comparator)
      requires pos < n <= |data| && HeapExceptUp(comparator, data, n, pos)
      modifies this
      ensures |data| == old(|data|) && multiset(data) == old(multiset(data))
      ensures HeapUpTo(comparator, data, n) && data[n..] == old(data[n..])
    {
      var p: nat := pos;
      while p > 0
        invariant p < n && |data| == old(|data|)
        invariant multiset(data) == old(multiset(data)) && data[n..] == old(data[n..])
        invariant HeapExceptUp(comparator, data, n, p)
      {
        var parent := Parent(p);
        if comparator(data[p], data[parent]) < 0 {
          SwapUpKeepsOrder(data, n, p);
          SwapPermutes(data, parent, p);
          data := data[parent := data[p]][p := data[parent]];
          p := parent;
        } else {
          LeTotal(comparator, data[p], data[parent]);
          break;
        }
      }
    }

    /** One step of `_bubbleUp` moves the exception from `p` to its parent. */
    lemma {:induction false} SwapUpKeepsOrder(s: seq<T>, n: nat, p: nat)
      requires IsComparator(comparator)
      requires 0 < p < n <= |s| && HeapExceptUp(comparator, s, n, p)
      requires comparator(s[p], s[Parent(p)]) < 0
      ensures HeapExceptUp(comparator, s[Parent(p) := s[p]][p := s[Parent(p)]], n, Parent(p))
    {
      var cmp := comparator;
      var q := Parent(p);
      var t := s[q := s[p]][p := s[q]];
      LeTotal(cmp, s[p], s[q]);
      forall i | 0 < i < n && i != q ensures Le(cmp, t[Parent(i)], t[i]) {
        if i == p {
        } else if Parent(i) == p {
        } else if Parent(i) == q {
          LeTrans(cmp, s[p], s[q], s[i]);
        }
      }
      if q > 0 {
        forall c | 0 < c < n && Parent(c) == q ensures Le(cmp, t[Parent(q)], t[c]) {
          if c == p {
          } else {
            LeTrans(cmp, s[Parent(q)], s[q], s[c]);
          }
        }
      }
    }

    /**
     * `_bubbleDown(pos)`: swap the element with its smaller child (the left one
     * when both are equally small) while that child compares strictly less.
     */
    method BubbleDown(pos: nat)
      requires IsComparator(comparator)
      requires pos < |data| && HeapExceptDown(comparator, data, pos)
      modifies this
      ensures Valid()
      ensures |data| == old(|data|) && multiset(data) == old(multiset(data))
    {
      var p: nat := pos;
      while true
        invariant p < |data| && |data| == old(|data|)
        invariant multiset(data) == old(multiset(data))
        invariant HeapExceptDown(comparator, data, p)
        decreases |data| - p
      {
        var stop, next := BubbleDownStep(p);
        if stop {
          return;
        }
        p := next;
      }
    }

    /**
     * One pass of the loop of `_bubbleDown` at `p`: stop when no child is
     * strictly smaller, otherwise swap with the smaller child.
     */
    method BubbleDownStep(p: nat) returns (stop: bool, next: nat)
      requires IsComparator(comparator)
      requires p < |data| && HeapExceptDown(comparator, data, p)
      modifies this
      ensures |data| == old(|data|) && multiset(data) == old(multiset(data))
      ensures stop ==> Valid()
      ensures !stop ==> p < next < |data| && HeapExceptDown(comparator, data, next)
    {
      var last := |data| - 1;
      var left := 2 * p + 1;
      var right := left + 1;
      var minIndex := p;
      if left <= last && comparator(data[left], data[minIndex]) < 0 {
        minIndex := left;
      }
      if right <= last && comparator(data[right], data[minIndex]) < 0 {
        if minIndex == left {
          LtTrans(comparator, data[right], data[left], data[p]);
        }
        minIndex := right;
      }
      if minIndex != p {
        SwapDownKeepsOrder(data, p, minIndex);
        SwapPermutes(data, minIndex, p);
        data := data[minIndex := data[p]][p := data[minIndex]];
        return false, minIndex;
      } else {
        ChildrenNotSmaller(data, p);
        return true, p;
      }
    }

    /** When neither child is strictly smaller, the exception at `p` disappears. */
    lemma {:induction false} ChildrenNotSmaller(s: seq<T>, p: nat)
      requires IsComparator(comparator)
      requires p < |s| && HeapExceptDown(comparator, s, p)
      requires 2 * p + 1 < |s| ==> !(comparator(s[2 * p + 1], s[p]) < 0)
      requires 2 * p + 2 < |s| ==> !(comparator(s[2 * p + 2], s[p]) < 0)
      ensures IsHeap(comparator, s)
    {
      forall i | 0 < i < |s| && Parent(i) == p ensures Le(comparator, s[p], s[i]) {
        LeTotal(comparator, s[i], s[p]);
      }
    }

    /** One step of `_bubbleDown` moves the exception from `p` to the child `m`. */
    lemma {:induction false} SwapDownKeepsOrder(s: seq<T>, p: nat, m: nat)
      requires IsComparator(comparator)
      requires p < |s| && HeapExceptDown(comparator, s, p)
      requires m == 2 * p + 1 || m == 2 * p + 2
      requires m < |s| && comparator(s[m], s[p]) < 0
      requires m == 2 * p + 2 && 2 * p + 1 < |s| ==> comparator(s[m], s[2 * p + 1]) < 0 || !(comparator(s[2 * p + 1], s[p]) < 0)
      requires m == 2 * p + 1 && 2 * p + 2 < |s| ==> !(comparator(s[2 * p + 2], s[m]) < 0)
      ensures HeapExceptDown(comparator, s[m := s[p]][p := s[m]], m)
    {
      var cmp := comparator;
      var t := s[m := s[p]][p := s[m]];
      assert Parent(m) == p;
      LeTotal(cmp, s[m], s[p]);
      var o := if m == 2 * p + 1 then 2 * p + 2 else 2 * p + 1;
      if o < |s| {
        LeTotal(cmp, s[o], s[m]);
        LeTotal(cmp, s[o], s[p]);
        if m == 2 * p + 2 && !(cmp(s[m], s[o]) < 0) {
          LeTrans(cmp, s[m], s[p], s[o]);
        }
        assert Le(cmp, s[m], s[o]);
      }
      forall i | 0 < i < |s| && Parent(i) != m ensures Le(cmp, t[Parent(i)], t[i]) {
        if i == m {
        } else if i == p {
        } else if Parent(i) == p {
          assert i == o;
        }
      }
      forall c | 0 < c < |s| && Parent(c) == m ensures Le(cmp, t[Parent(m)], t[c]) {
      }
    }
  }

  /**
   * Dequeuing a heap built from `values` until it is empty yields the values in
   * ascending order, which is how the strategy's shared tests exercise it.
   */
  method DrainAll<T(!new)>(cmp: (T, T) -> int, values: seq<T>) returns (out: seq<T>)
    requires IsComparator(cmp)
    ensures multiset(out) == multiset(values)
    ensures SortedBy(cmp, out)
  {
    var h := new BinaryHeapStrategy(cmp, values);
    out := [];
    while |h.data| > 0
      invariant h.Valid() && h.comparator == cmp
      invariant multiset(out) + multiset(h.data) == multiset(values)
      invariant SortedBy(cmp, out)
      invariant forall i, y :: 0 <= i < |out| && y in multiset(h.data) ==> Le(cmp, out[i], y)
      decreases |h.data|
    {
      ghost var before := multiset(h.data);
      var r := h.Dequeue();
      forall i | 0 <= i < |out| ensures Le(cmp, out[i], r.value) {
        assert r.value in before;
      }
      forall i, y | 0 <= i < |out| + 1 && y in multiset(h.data) ensures Le(cmp, (out + [r.value])[i], y) {
        assert y in before;
      }
      out := out + [r.value];
    }
  }

  /** Initial values [5, 2, 3, 4, 1, 6, 7] come out as 1 to 7. */
  method InitialValuesExample() returns (out: seq<int>)
    ensures out == [1, 2, 3, 4, 5, 6, 7]
  {
    DefaultCompareIsComparator();
    out := DrainAll(DefaultCompare, [5, 2, 3, 4, 1, 6, 7]);
    SortedByDefaultIsAscending(out);
    OneToSeven(out);
  }

  lemma {:induction false} OneToSeven(out: seq<int>)
    requires Ascending(out)
    requires multiset(out) == multiset([5, 2, 3, 4, 1, 6, 7])
    ensures out == [1, 2, 3, 4, 5, 6, 7]
  {
    var sorted := [1, 2, 3, 4, 5, 6, 7];
    SortedSeven(sorted);
    AscendingUnique(out, sorted);
  }

  /** The values 1 to 7 in order: ascending, and the example's values rearranged. */
  lemma {:induction false} SortedSeven(sorted: seq<int>)
    requires sorted == [1, 2, 3, 4, 5, 6, 7]
    ensures Ascending(sorted) && multiset(sorted) == multiset([5, 2, 3, 4, 1, 6, 7])
  {
    var given := [5, 2, 3, 4, 1, 6, 7];
    var m, r := [2, 3, 4], [6, 7];
    assert given == [5] + m + [1] + r;
    assert sorted == [1] + m + [5] + r;
    SwapEnds(5, m, 1, r);
    UpToSeven(sorted);
  }

  /** Exchanging two elements keeps the multiset. */
  lemma {:induction false} SwapEnds<T>(a: T, m: seq<T>, b: T, r: seq<T>)
    ensures multiset([a] + m + [b] + r) == multiset([b] + m + [a] + r)
  {
  }

  lemma {:induction false} UpToSeven(sorted: seq<int>)
    requires sorted == [1, 2, 3, 4, 5, 6, 7]
    ensures Ascending(sorted)
  {
    var upTo := seq(7, i => i + 1);
    assert upTo[0] == 1 && upTo[1] == 2 && upTo[2] == 3 && upTo[3] == 4;
    assert upTo[4] == 5 && upTo[5] == 6 && upTo[6] == 7;
    assert upTo == sorted;
  }
}
