/**
 * The B-heap strategy of js-priority-queue: a min-heap whose slots 1..length
 * are stored in pages of `pageSize` slots each, laid out so that a path from
 * the root stays on few pages (see module BHeapLayout). Memory is a growing
 * list of pages; an empty slot holds `null`, written here as None.
 */
module BHeapStrategy {
  import opened Wrappers
  import opened Comparators
  import opened Bits
  import opened BHeapLayout

  type Memory<T> = seq<seq<Option<T>>>

  /** The content of slot i: None when its page is not allocated or the slot is empty. */
  function SlotOf<T>(memory: Memory<T>, shift: nat, i: nat): Option<T> {
    var page, off := Shr(i, shift), Low(i, shift);
    if page < |memory| && off < |memory[page]| then memory[page][off] else None
  }

  /** Slots 0..n; slot 0 is never used. */
  function Slots<T>(memory: Memory<T>, shift: nat, n: nat): (s: seq<Option<T>>)
    ensures |s| == n + 1
    ensures forall i :: 0 <= i <= n ==> s[i] == SlotOf(memory, shift, i)
  {
    seq(n + 1, i requires 0 <= i <= n => SlotOf(memory, shift, i))
  }

  /** `_emptyMemoryPageTemplate`: a page of `pageSize` nulls. */
  function EmptyPage<T>(pageSize: nat): (page: seq<Option<T>>)
    ensures |page| == pageSize && forall k :: 0 <= k < pageSize ==> page[k] == None
  {
    seq(pageSize, _ => None)
  }

  /** Every slot from 1 on holds a value. */
  predicate Filled<T>(s: seq<Option<T>>) {
    forall i :: 1 <= i < |s| ==> s[i].Some?
  }

  /** The values in slots 1.. in slot order. */
  function Values<T>(s: seq<Option<T>>): (v: seq<T>)
    requires Filled(s)
    ensures |v| == if |s| == 0 then 0 else |s| - 1
    ensures forall k :: 0 <= k < |v| ==> v[k] == s[k + 1].value
  {
    if |s| <= 1 then [] else Values(s[..|s| - 1]) + [s[|s| - 1].value]
  }

  /** The values in slots 1.. as a multiset. */
  ghost function Elements<T>(s: seq<Option<T>>): multiset<T>
    requires Filled(s)
  {
    multiset(Values(s))
  }

  /** No slot's value is greater than the value of any of its computed children. */
  predicate IsHeap<T>(cmp: (T, T) -> int, shift: nat, s: seq<Option<T>>)
    requires shift >= 2
  {
    Filled(s) && forall c :: 2 <= c < |s| ==> Le(cmp, s[Parent(shift, c)].value, s[c].value)
  }

  /**
   * Heap order except between `pos` and its parent, and the parent of `pos` is
   * not greater than the children of `pos`: what holds during `_bubbleUp`.
   */
  predicate HeapExceptUp<T>(cmp: (T, T) -> int, shift: nat, s: seq<Option<T>>, pos: nat)
    requires shift >= 2 && Filled(s) && 1 <= pos < |s|
  {
    (forall c :: 2 <= c < |s| && c != pos ==> Le(cmp, s[Parent(shift, c)].value, s[c].value)) &&
    (pos >= 2 ==> forall c :: 2 <= c < |s| && Parent(shift, c) == pos ==>
      Le(cmp, s[Parent(shift, pos)].value, s[c].value))
  }

  /**
   * Heap order except between `pos` and its children, and the parent of `pos`
   * is not greater than those children: what holds during `_bubbleDown`.
   */
  predicate HeapExceptDown<T>(cmp: (T, T) -> int, shift: nat, s: seq<Option<T>>, pos: nat)
    requires shift >= 2 && Filled(s) && 1 <= pos < |s|
  {
    (forall c :: 2 <= c < |s| && Parent(shift, c) != pos ==> Le(cmp, s[Parent(shift, c)].value, s[c].value)) &&
    (pos >= 2 ==> forall c :: 2 <= c < |s| && Parent(shift, c) == pos ==>
      Le(cmp, s[Parent(shift, pos)].value, s[c].value))
  }

  /** In a heap, slot 1 is not greater than any slot. */
  lemma {:induction false} RootIsMin<T(!new)>(cmp: (T, T) -> int, shift: nat, s: seq<Option<T>>, i: nat)
    requires IsComparator(cmp) && shift >= 2 && IsHeap(cmp, shift, s) && 1 <= i < |s|
    ensures Le(cmp, s[1].value, s[i].value)
    decreases i
  {
    if i == 1 {
      LeRefl(cmp, s[1].value);
    } else {
      var p := Parent(shift, i);
      RootIsMin(cmp, shift, s, p);
      LeTrans(cmp, s[1].value, s[p].value, s[i].value);
    }
  }

  lemma {:induction false} RootIsMinOfAll<T(!new)>(cmp: (T, T) -> int, shift: nat, s: seq<Option<T>>)
    requires IsComparator(cmp) && shift >= 2 && IsHeap(cmp, shift, s) && |s| >= 2
    ensures forall i :: 1 <= i < |s| ==> Le(cmp, s[1].value, s[i].value)
    ensures IsMin(cmp, s[1].value, Elements(s))
  {
    forall i | 1 <= i < |s| ensures Le(cmp, s[1].value, s[i].value) {
      RootIsMin(cmp, shift, s, i);
    }
    forall y | y in Elements(s) ensures Le(cmp, s[1].value, y) {
      var k :| 0 <= k < |Values(s)| && Values(s)[k] == y;
      RootIsMin(cmp, shift, s, k + 1);
    }
  }

  /** Exchanging two used slots leaves the elements unchanged. */
  lemma {:induction false} SwapPermutes<T>(s: seq<Option<T>>, a: nat, b: nat)
    requires Filled(s) && 1 <= a < |s| && 1 <= b < |s|
    ensures Filled(s[a := s[b]][b := s[a]])
    ensures Elements(s[a := s[b]][b := s[a]]) == Elements(s)
  {
    var t := s[a := s[b]][b := s[a]];
    var v := Values(s);
    assert Values(t) == v[a - 1 := v[b - 1]][b - 1 := v[a - 1]];
    SwapMultiset(v, a - 1, b - 1);
  }

  lemma {:induction false} SwapMultiset<T>(v: seq<T>, i: nat, j: nat)
    requires i < |v| && j < |v|
    ensures multiset(v[i := v[j]][j := v[i]]) == multiset(v)
  {
    if i != j {
      var w := v[i := v[j]];
      assert multiset(w) == multiset(v) - multiset{v[i]} + multiset{v[j]};
      assert w[j] == v[j];
      assert multiset(w[j := v[i]]) == multiset(w) - multiset{v[j]} + multiset{v[i]};
    }
  }

  /** Writing one slot changes that slot of the view, and no other. */
  lemma {:induction false} SlotsAfterWrite<T>(before: Memory<T>, after: Memory<T>, shift: nat, n: nat, index: nat, value: T)
    requires forall j :: SlotOf(after, shift, j) == if j == index then Some(value) else SlotOf(before, shift, j)
    ensures index <= n ==> Slots(after, shift, n) == Slots(before, shift, n)[index := Some(value)]
    ensures index > n ==> Slots(after, shift, n) == Slots(before, shift, n)
  {
  }

  /**
   * Moving the last slot's value into slot 1 of a heap drops slot 1's value
   * and leaves the order broken only below slot 1.
   */
  lemma {:induction false} LastToRoot<T>(cmp: (T, T) -> int, shift: nat, s: seq<Option<T>>)
    requires shift >= 2 && IsHeap(cmp, shift, s) && |s| >= 3
    ensures Filled(s[..|s| - 1][1 := s[|s| - 1]])
    ensures HeapExceptDown(cmp, shift, s[..|s| - 1][1 := s[|s| - 1]], 1)
    ensures Elements(s[..|s| - 1][1 := s[|s| - 1]]) + multiset{s[1].value} == Elements(s)
  {
    var n := |s| - 1;
    var t := s[..n][1 := s[n]];
    var middle := Values(s)[1..n - 1];
    assert Values(s) == [s[1].value] + middle + [s[n].value];
    assert Values(t) == [s[n].value] + middle;
  }

  /** A slot that holds a value is on an allocated page. */
  lemma {:induction false} SlotAllocated<T>(memory: Memory<T>, shift: nat, i: nat)
    requires SlotOf(memory, shift, i).Some?
    ensures Shr(i, shift) < |memory|
  {
  }

  /** `_bubbleUp` stops at p when the parent of p is strictly smaller than p: the order is restored. */
  lemma {:induction false} ParentBelow<T(!new)>(cmp: (T, T) -> int, shift: nat, s: seq<Option<T>>, p: nat)
    requires IsComparator(cmp) && shift >= 2 && Filled(s) && 2 <= p < |s|
    requires HeapExceptUp(cmp, shift, s, p)
    requires cmp(s[Parent(shift, p)].value, s[p].value) < 0
    ensures IsHeap(cmp, shift, s)
  {
  }

  /** One step of `_bubbleUp` moves the exception from `p` to its parent. */
  lemma {:induction false} SwapUpKeepsOrder<T(!new)>(cmp: (T, T) -> int, shift: nat, s: seq<Option<T>>, p: nat)
    requires IsComparator(cmp) && shift >= 2 && Filled(s) && 2 <= p < |s|
    requires HeapExceptUp(cmp, shift, s, p)
    requires !(cmp(s[Parent(shift, p)].value, s[p].value) < 0)
    ensures Filled(s[Parent(shift, p) := s[p]][p := s[Parent(shift, p)]])
    ensures HeapExceptUp(cmp, shift, s[Parent(shift, p) := s[p]][p := s[Parent(shift, p)]], Parent(shift, p))
  {
    var q := Parent(shift, p);
    var t := s[q := s[p]][p := s[q]];
    LeTotal(cmp, s[q].value, s[p].value);
    forall c | 2 <= c < |t| && c != q ensures Le(cmp, t[Parent(shift, c)].value, t[c].value) {
      if c == p {
      } else if Parent(shift, c) == p {
      } else if Parent(shift, c) == q {
        LeTrans(cmp, s[p].value, s[q].value, s[c].value);
      }
    }
    if q >= 2 {
      forall c | 2 <= c < |t| && Parent(shift, c) == q ensures Le(cmp, t[Parent(shift, q)].value, t[c].value) {
        if c != p {
          LeTrans(cmp, s[Parent(shift, q)].value, s[q].value, s[c].value);
        }
      }
    }
  }

  /** One step of `_bubbleDown` moves the exception from `p` to its child `m`. */
  lemma {:induction false} SwapDownKeepsOrder<T(!new)>(cmp: (T, T) -> int, shift: nat, s: seq<Option<T>>, p: nat, m: nat)
    requires IsComparator(cmp) && shift >= 2 && Filled(s) && 1 <= p < |s|
    requires HeapExceptDown(cmp, shift, s, p)
    requires 2 <= m < |s| && Parent(shift, m) == p && Le(cmp, s[m].value, s[p].value)
    requires forall o :: 2 <= o < |s| && Parent(shift, o) == p ==> Le(cmp, s[m].value, s[o].value)
    ensures Filled(s[m := s[p]][p := s[m]])
    ensures HeapExceptDown(cmp, shift, s[m := s[p]][p := s[m]], m)
  {
    var t := s[m := s[p]][p := s[m]];
    forall c | 2 <= c < |t| && Parent(shift, c) != m ensures Le(cmp, t[Parent(shift, c)].value, t[c].value) {
      if c == m {
      } else if c == p {
      } else if Parent(shift, c) == p {
      }
    }
  }

  /** When no child of `p` is smaller than `p`, the exception disappears. */
  lemma {:induction false} ChildrenNotSmaller<T(!new)>(cmp: (T, T) -> int, shift: nat, s: seq<Option<T>>, p: nat)
    requires shift >= 2 && Filled(s) && 1 <= p < |s|
    requires HeapExceptDown(cmp, shift, s, p)
    requires forall c :: 2 <= c < |s| && Parent(shift, c) == p ==> Le(cmp, s[p].value, s[c].value)
    ensures IsHeap(cmp, shift, s)
  {
  }

  /** `ChildrenNotSmaller` for the computed children of `p`, checked one by one. */
  lemma {:induction false} NoSmallerChild<T(!new)>(cmp: (T, T) -> int, shift: nat, s: seq<Option<T>>, p: nat, c1: nat, c2: nat)
    requires shift >= 2 && Filled(s) && 1 <= p < |s|
    requires HeapExceptDown(cmp, shift, s, p)
    requires (c1, c2) == Children(shift, p) && p < c1 <= c2
    requires c1 < |s| ==> Le(cmp, s[p].value, s[c1].value)
    requires c2 < |s| ==> Le(cmp, s[p].value, s[c2].value)
    ensures IsHeap(cmp, shift, s)
  {
    ChildrenOf(shift, p, |s| - 1);
    ChildrenNotSmaller(cmp, shift, s, p);
  }

  /** `SwapDownKeepsOrder` for a computed child `m` not greater than its sibling. */
  lemma {:induction false} SmallestChildSwap<T(!new)>(cmp: (T, T) -> int, shift: nat, s: seq<Option<T>>, p: nat, m: nat, c1: nat, c2: nat)
    requires IsComparator(cmp) && shift >= 2 && Filled(s) && 1 <= p < |s|
    requires HeapExceptDown(cmp, shift, s, p)
    requires (c1, c2) == Children(shift, p) && p < c1 <= c2 && (m == c1 || m == c2) && m < |s|
    requires Le(cmp, s[m].value, s[p].value)
    requires c1 < |s| ==> Le(cmp, s[m].value, s[c1].value)
    requires c2 < |s| ==> Le(cmp, s[m].value, s[c2].value)
    ensures Filled(s[m := s[p]][p := s[m]])
    ensures HeapExceptDown(cmp, shift, s[m := s[p]][p := s[m]], m)
  {
    ChildrenOf(shift, p, |s| - 1);
    SwapDownKeepsOrder(cmp, shift, s, p, m);
  }

  /** The slots of a parent are exactly the two (or one) computed children. */
  lemma {:induction false} ChildrenOf(shift: nat, i: nat, n: nat)
    requires shift >= 2 && i >= 1
    ensures forall c :: 2 <= c <= n && Parent(shift, c) == i ==> c == Children(shift, i).0 || c == Children(shift, i).1
    ensures Children(shift, i).0 >= 2 && Parent(shift, Children(shift, i).0) == i
    ensures Children(shift, i).1 >= 2 && Parent(shift, Children(shift, i).1) == i
    ensures i < Children(shift, i).0 <= Children(shift, i).1
  {
    forall c | 2 <= c <= n && Parent(shift, c) == i
      ensures c == Children(shift, i).0 || c == Children(shift, i).1
    {
      ParentChildAgree(shift, i, c);
    }
    ParentOfChild(shift, i, Children(shift, i).0);
    ParentOfChild(shift, i, Children(shift, i).1);
    ChildrenAbove(shift, i);
  }

  class BHeapStrategy<T(!new)> {
    const comparator: (T, T) -> int
    const pageSize: nat
    const shift: nat
    const mask: nat
    var memory: Memory<T>
    var length: nat

    /** Page geometry: 2^shift slots per page, every allocated page full length. */
    predicate Layout()
      reads this
    {
      shift >= 2 && pageSize == Pow2(shift) && mask == pageSize - 1 &&
      forall p :: 0 <= p < |memory| ==> |memory[p]| == pageSize
    }

    /** Slots 0..length of the paged memory. */
    function View(): seq<Option<T>>
      reads this
    {
      Slots(memory, shift, length)
    }

    ghost predicate Valid()
      reads this
    {
      Layout() && IsComparator(comparator) && IsHeap(comparator, shift, View())
    }

    /**
     * The constructor for a page size of 2^shift. The page size is checked and
     * the default applied by `CreateBHeap`; the initial values are queued one by one.
     */
    constructor (comparator: (T, T) -> int, shift: nat, initialValues: seq<T>)
      requires IsComparator(comparator) && shift >= 2
      ensures Valid() && this.comparator == comparator && this.shift == shift
      ensures pageSize == Pow2(shift) && length == |initialValues|
      ensures Elements(View()) == multiset(initialValues)
    {
      this.comparator := comparator;
      this.shift := shift;
      pageSize := Pow2(shift);
      mask := Pow2(shift) - 1;
      memory := [];
      length := 0;
      new;
      var j := 0;
      while j < |initialValues|
        invariant 0 <= j <= |initialValues|
        invariant Valid() && this.comparator == comparator && this.shift == shift
        invariant pageSize == Pow2(shift) && length == j
        invariant Elements(View()) == multiset(initialValues[..j])
      {
        assert initialValues[..j + 1] == initialValues[..j] + [initialValues[j]];
        Queue(initialValues[j]);
        j := j + 1;
      }
      assert initialValues[..j] == initialValues;
    }

    /** `_read`: the slot's content, or an error when its page was never allocated. */
    function Read(index: nat): (r: Result<Option<T>>)
      requires Layout()
      reads this
      ensures r.Ok? <==> Shr(index, shift) < |memory|
      ensures r.Ok? ==> r.value == SlotOf(memory, shift, index)
    {
      var page := Shr(index, shift);
      AndLowMask(index, shift);
      Split(index, shift);
      if page < |memory| then Ok(memory[page][And(index, mask)])
      else Err("TypeError: page not allocated")
    }

    /** `_write`: allocate empty pages up to the slot's page, then store the value. */
    method Write(index: nat, value: T)
      requires Layout()
      modifies this
      ensures Layout() && length == old(length)
      ensures |memory| == if Shr(index, shift) < old(|memory|) then old(|memory|) else Shr(index, shift) + 1
      ensures forall j :: SlotOf(memory, shift, j) == if j == index then Some(value) else old(SlotOf(memory, shift, j))
    {
      var page := Shr(index, shift);
      while page >= |memory|
        invariant Layout() && length == old(length)
        invariant old(|memory|) <= |memory|
        invariant |memory| <= if page < old(|memory|) then old(|memory|) else page + 1
        invariant forall j :: SlotOf(memory, shift, j) == old(SlotOf(memory, shift, j))
        decreases page - |memory|
      {
        memory := memory + [EmptyPage(pageSize)];
      }
      AndLowMask(index, shift);
      Split(index, shift);
      var off := And(index, mask);
      ghost var before := memory;
      memory := memory[page := memory[page][off := Some(value)]];
      forall j ensures SlotOf(memory, shift, j) == if j == index then Some(value) else SlotOf(before, shift, j) {
        Split(j, shift);
      }
    }

    /**
     * The two `_write`s of each step of `_bubbleUp` and `_bubbleDown`: they
     * exchange the values of slots a and b.
     */
    method SwapSlots(a: nat, va: T, b: nat, vb: T)
      requires Layout() && 1 <= a <= length && 1 <= b <= length && Filled(View())
      requires View()[a] == Some(vb) && View()[b] == Some(va)
      modifies this
      ensures Layout() && length == old(length)
      ensures View() == old(View())[a := Some(va)][b := Some(vb)]
      ensures Filled(View()) && Elements(View()) == old(Elements(View()))
    {
      ghost var s := View();
      ghost var m0 := memory;
      Write(a, va);
      SlotsAfterWrite(m0, memory, shift, length, a, va);
      ghost var m1 := memory;
      Write(b, vb);
      SlotsAfterWrite(m1, memory, shift, length, b, vb);
      assert View() == s[a := s[b]][b := s[a]];
      SwapPermutes(s, a, b);
    }

    /** `queue`: store the value in the next slot and bubble it up. */
    method Queue(value: T)
      requires Valid()
      modifies this
      ensures Valid() && length == old(length) + 1
      ensures Elements(View()) == old(Elements(View())) + multiset{value}
    {
      ghost var s := View();
      length := length + 1;
      Write(length, value);
      SlotsAfterWrite(old(memory), memory, shift, length, length, value);
      assert View() == s + [Some(value)];
      assert Elements(View()) == Elements(s) + multiset{value} by {
        assert Values(View()) == Values(s) + [value];
      }
      BubbleUp(length, value);
    }

    /**
     * `dequeue`: return slot 1, move the last value into slot 1 and bubble it
     * down. The slot the last value leaves keeps its stale content.
     */
    method Dequeue() returns (r: T)
      requires Valid() && length > 0
      modifies this
      ensures Valid() && length == old(length) - 1
      ensures Some(r) == old(View())[1]
      ensures IsMin(comparator, r, old(Elements(View())))
      ensures Elements(View()) + multiset{r} == old(Elements(View()))
    {
      ghost var s := View();
      RootIsMinOfAll(comparator, shift, s);
      SlotAllocated(memory, shift, 1);
      SlotAllocated(memory, shift, length);
      var first := Read(1);
      r := first.value.value;
      var last := Read(length);
      var value := last.value.value;
      length := length - 1;
      assert View() == s[..length + 1];
      if length > 0 {
        Write(1, value);
        SlotsAfterWrite(old(memory), memory, shift, length, 1, value);
        assert View() == s[..length + 1][1 := s[length + 1]];
        LastToRoot(comparator, shift, s);
        BubbleDown(1, value);
      } else {
        assert Values(View()) == [] && Values(s) == [r];
      }
    }

    /** `peek`: slot 1, which before any write is an error (page 0 does not exist). */
    method Peek() returns (r: Result<Option<T>>)
      requires Valid()
      ensures r.Err? <==> |memory| == 0
      ensures length > 0 ==> r == Ok(View()[1])
      ensures length > 0 ==> IsMin(comparator, r.value.value, Elements(View()))
    {
      Halves(0, shift);
      PageZero(1, shift);
      if length > 0 {
        RootIsMinOfAll(comparator, shift, View());
      }
      r := Read(1);
    }

    /**
     * `_bubbleUp(index, value)`: while the parent is not strictly smaller than
     * the value, move the parent down and the value up.
     */
    method BubbleUp(index: nat, value: T)
      requires Layout() && IsComparator(comparator)
      requires 1 <= index <= length && Filled(View()) && View()[index] == Some(value)
      requires HeapExceptUp(comparator, shift, View(), index)
      modifies this
      ensures Valid() && length == old(length)
      ensures Elements(View()) == old(Elements(View()))
    {
      var i := index;
      while i > 1
        invariant Layout() && length == old(length) && 1 <= i <= length
        invariant Filled(View()) && View()[i] == Some(value)
        invariant HeapExceptUp(comparator, shift, View(), i)
        invariant Elements(View()) == old(Elements(View()))
        decreases i
      {
        var stop, next := BubbleUpStep(i, value);
        if stop {
          return;
        }
        i := next;
      }
    }

    /**
     * One pass of the loop of `_bubbleUp` at slot i > 1: stop when the parent is
     * strictly smaller, otherwise exchange the value with its parent.
     */
    method BubbleUpStep(i: nat, value: T) returns (stop: bool, next: nat)
      requires Layout() && IsComparator(comparator)
      requires 1 < i <= length && Filled(View()) && View()[i] == Some(value)
      requires HeapExceptUp(comparator, shift, View(), i)
      modifies this
      ensures Layout() && length == old(length) && Filled(View())
      ensures Elements(View()) == old(Elements(View()))
      ensures stop ==> IsHeap(comparator, shift, View())
      ensures !stop ==> 1 <= next < i && View()[next] == Some(value) && HeapExceptUp(comparator, shift, View(), next)
    {
      ParentAsWrittenIsParent(shift, i);
      var parentIndex := ParentAsWritten(pageSize, shift, mask, i);
      SlotAllocated(memory, shift, parentIndex);
      var parentRead := Read(parentIndex);
      var parentValue := parentRead.value.value;
      ghost var s := View();
      if comparator(parentValue, value) < 0 {
        ParentBelow(comparator, shift, s, i);
        return true, i;
      }
      SwapSlots(parentIndex, value, i, parentValue);
      SwapUpKeepsOrder(comparator, shift, s, i);
      return false, parentIndex;
    }

    /**
     * `_bubbleDown(index, value)`: while a child is strictly smaller than the
     * value, swap the value with the smaller child (the first one on a tie).
     */
    method BubbleDown(index: nat, value: T)
      requires Layout() && IsComparator(comparator)
      requires 1 <= index <= length && Filled(View()) && View()[index] == Some(value)
      requires HeapExceptDown(comparator, shift, View(), index)
      modifies this
      ensures Valid() && length == old(length)
      ensures Elements(View()) == old(Elements(View()))
    {
      var i := index;
      while i < length
        invariant Layout() && length == old(length) && 1 <= i <= length
        invariant Filled(View()) && View()[i] == Some(value)
        invariant HeapExceptDown(comparator, shift, View(), i)
        invariant Elements(View()) == old(Elements(View()))
        decreases length - i
      {
        var stop, next := BubbleDownStep(i, value);
        if stop {
          return;
        }
        i := next;
      }
      ChildrenAbove(shift, i);
      NoSmallerChild(comparator, shift, View(), i, Children(shift, i).0, Children(shift, i).1);
    }

    /**
     * One pass of the loop of `_bubbleDown` at slot i < length: stop when no
     * child is strictly smaller, otherwise exchange the value with the smaller
     * child (the first one on a tie).
     */
    method BubbleDownStep(i: nat, value: T) returns (stop: bool, next: nat)
      requires Layout() && IsComparator(comparator)
      requires 1 <= i < length && Filled(View()) && View()[i] == Some(value)
      requires HeapExceptDown(comparator, shift, View(), i)
      modifies this
      ensures Layout() && length == old(length) && Filled(View())
      ensures Elements(View()) == old(Elements(View()))
      ensures stop ==> IsHeap(comparator, shift, View())
      ensures !stop ==> i < next <= length && View()[next] == Some(value) && HeapExceptDown(comparator, shift, View(), next)
    {
      ChildrenAsWrittenAreChildren(shift, i);
      ChildrenAbove(shift, i);
      var children := ChildrenAsWritten(pageSize, shift, mask, i);
      var c1, c2 := children.0, children.1;
      ghost var s := View();
      if c1 != c2 && c2 <= length {
        SlotAllocated(memory, shift, c1);
        SlotAllocated(memory, shift, c2);
        var r1, r2 := Read(c1), Read(c2);
        var v1, v2 := r1.value.value, r2.value.value;
        assert s[c1] == Some(v1) && s[c2] == Some(v2);
        stop, next := PickOfTwo(i, value, c1, v1, c2, v2);
      } else if c1 <= length {
        SlotAllocated(memory, shift, c1);
        var r1 := Read(c1);
        var v1 := r1.value.value;
        assert s[c1] == Some(v1);
        stop, next := PickOfOne(i, value, c1, v1, c2);
      } else {
        NoSmallerChild(comparator, shift, s, i, c1, c2);
        return true, i;
      }
    }

    /** `_bubbleDown` at slot i whose only child in the heap is c1, holding v1. */
    method PickOfOne(i: nat, value: T, c1: nat, v1: T, c2: nat) returns (stop: bool, next: nat)
      requires Layout() && IsComparator(comparator)
      requires 1 <= i < length && Filled(View()) && View()[i] == Some(value)
      requires HeapExceptDown(comparator, shift, View(), i)
      requires (c1, c2) == Children(shift, i) && i < c1 <= length && (c1 == c2 || c2 > length)
      requires View()[c1] == Some(v1)
      modifies this
      ensures Layout() && length == old(length) && Filled(View())
      ensures Elements(View()) == old(Elements(View()))
      ensures stop ==> IsHeap(comparator, shift, View())
      ensures !stop ==> i < next <= length && View()[next] == Some(value) && HeapExceptDown(comparator, shift, View(), next)
    {
      ghost var s := View();
      LeTotal(comparator, v1, value);
      LeRefl(comparator, v1);
      if comparator(v1, value) < 0 {
        SmallestChildSwap(comparator, shift, s, i, c1, c1, c2);
        SwapSlots(c1, value, i, v1);
        return false, c1;
      } else {
        NoSmallerChild(comparator, shift, s, i, c1, c2);
        return true, i;
      }
    }

    /** `_bubbleDown` at slot i with two children c1 and c2 in the heap, holding v1 and v2. */
    method PickOfTwo(i: nat, value: T, c1: nat, v1: T, c2: nat, v2: T) returns (stop: bool, next: nat)
      requires Layout() && IsComparator(comparator)
      requires 1 <= i < length && Filled(View()) && View()[i] == Some(value)
      requires HeapExceptDown(comparator, shift, View(), i)
      requires (c1, c2) == Children(shift, i) && i < c1 < c2 <= length
      requires View()[c1] == Some(v1) && View()[c2] == Some(v2)
      modifies this
      ensures Layout() && length == old(length) && Filled(View())
      ensures Elements(View()) == old(Elements(View()))
      ensures stop ==> IsHeap(comparator, shift, View())
      ensures !stop ==> i < next <= length && View()[next] == Some(value) && HeapExceptDown(comparator, shift, View(), next)
    {
      ghost var s := View();
      LeTotal(comparator, v1, value);
      LeTotal(comparator, v2, value);
      LeTotal(comparator, v1, v2);
      LeRefl(comparator, v1);
      LeRefl(comparator, v2);
      if comparator(v1, value) < 0 && comparator(v1, v2) <= 0 {
        SmallestChildSwap(comparator, shift, s, i, c1, c1, c2);
        SwapSlots(c1, value, i, v1);
        return false, c1;
      } else if comparator(v2, value) < 0 {
        if comparator(v1, value) < 0 {
          LeTrans(comparator, v2, v1, value);
        } else {
          LeTrans(comparator, v2, value, v1);
        }
        SmallestChildSwap(comparator, shift, s, i, c2, c1, c2);
        SwapSlots(c2, value, i, v2);
        return false, c2;
      } else {
        if comparator(v1, value) < 0 {
          LtTrans(comparator, v2, v1, value);
        }
        NoSmallerChild(comparator, shift, s, i, c1, c2);
        return true, i;
      }
    }
  }

  /**
   * The constructor's page-size check: the smallest shift with 1 << shift at
   * least the page size, accepted only when 1 << shift equals it.
   */
  method PageShift(pageSize: nat) returns (r: Result<nat>)
    requires pageSize <= 0x4000_0000
    ensures r.Ok? <==> exists k: nat :: Pow2(k) == pageSize
    ensures r.Ok? ==> Pow2(r.value) == pageSize
    ensures r.Err? ==> r.msg == "pageSize must be a power of two"
  {
    var shift: nat := 0;
    while Pow2(shift) < pageSize
      invariant shift > 0 ==> Pow2(shift - 1) < pageSize
      decreases pageSize - Pow2(shift)
    {
      shift := shift + 1;
    }
    if Pow2(shift) != pageSize {
      forall k: nat ensures Pow2(k) != pageSize {
        if k < shift {
          if k < shift - 1 {
            Pow2Increasing(k, shift - 1);
          }
        } else if k > shift {
          Pow2Increasing(shift, k);
        }
      }
      return Err("pageSize must be a power of two");
    }
    assert Pow2(shift) == pageSize;
    return Ok(shift);
  }

  /**
   * `1 << shift` in JavaScript: the shift count is taken mod 32 and the result
   * read as a signed 32-bit integer.
   */
  function ShiftOne(shift: nat): int {
    var k := shift % 32;
    if k == 31 then -0x8000_0000 else Pow2(k)
  }

  /** Up to 30 the JavaScript shift is the power of two the model's loop uses. */
  lemma {:induction false} ShiftOneIsPow2(shift: nat)
    requires shift <= 30
    ensures ShiftOne(shift) == Pow2(shift)
  {
    assert shift % 32 == shift;
  }

  /**
   * Past 2^30 the page-size loop of the constructor never ends: whatever the
   * shift, `1 << shift` stays below the page size.
   */
  lemma {:induction false} PageShiftNeverEnds(pageSize: nat, shift: nat)
    requires pageSize > Pow2(30)
    ensures ShiftOne(shift) < pageSize
  {
    var k := shift % 32;
    if k < 30 {
      Pow2Increasing(k, 30);
    }
  }

  /**
   * The constructor's checks as `BHeapStrategy.js` writes them: a page size of
   * 0 (absent) means 512, and any power of two is accepted, 1 and 2 included,
   * although for those the computed parents and children disagree (see
   * `PageSizeOneParentOfTwo` and `PageSizeTwoMismatch`). The result is the shift.
   */
  method CreateBHeapAsWritten(pageSize: nat) returns (r: Result<nat>)
    requires pageSize <= 0x4000_0000
    ensures r.Ok? <==> exists k: nat :: Pow2(k) == (if pageSize == 0 then 512 else pageSize)
    ensures r.Ok? ==> Pow2(r.value) == (if pageSize == 0 then 512 else pageSize)
    ensures pageSize == 1 ==> r == Ok(0)
    ensures pageSize == 2 ==> r == Ok(1)
  {
    var size := if pageSize == 0 then 512 else pageSize;
    r := PageShift(size);
    if pageSize == 1 || pageSize == 2 {
      assert Pow2(pageSize - 1) == pageSize;
      SmallShift(r.value, pageSize);
    }
  }

  /** The shifts of the page sizes 1 and 2. */
  lemma {:induction false} SmallShift(k: nat, pageSize: nat)
    requires (pageSize == 1 || pageSize == 2) && Pow2(k) == pageSize
    ensures k == pageSize - 1
  {
    if k >= 2 {
      Pow2Increasing(1, k);
    }
  }

  /**
   * The whole constructor, corrected: a page size of 0 (absent) means 512; it
   * must be a power of two and at least 4, the smallest page size for which
   * the computed parents and children agree.
   */
  method CreateBHeap<T(!new)>(comparator: (T, T) -> int, pageSize: nat, initialValues: seq<T>)
    returns (r: Result<BHeapStrategy<T>>)
    requires IsComparator(comparator) && pageSize <= 0x4000_0000
    ensures r.Ok? <==> exists k: nat :: k >= 2 && Pow2(k) == (if pageSize == 0 then 512 else pageSize)
    ensures r.Ok? ==> fresh(r.value) && r.value.Valid() && r.value.comparator == comparator
    ensures r.Ok? ==> r.value.pageSize == (if pageSize == 0 then 512 else pageSize)
    ensures r.Ok? ==> r.value.length == |initialValues| && Elements(r.value.View()) == multiset(initialValues)
  {
    var size := if pageSize == 0 then 512 else pageSize;
    assert Pow2(9) == 512;
    var shift := PageShift(size);
    if shift.Err? {
      return Err(shift.msg);
    }
    if shift.value < 2 {
      forall k: nat | k >= 2 ensures Pow2(k) != size {
        Pow2Increasing(shift.value, k);
      }
      return Err("pageSize must be at least 4");
    }
    var heap := new BHeapStrategy(comparator, shift.value, initialValues);
    return Ok(heap);
  }
}
