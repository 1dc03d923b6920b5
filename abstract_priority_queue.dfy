/**
 * `AbstractPriorityQueue` of js-priority-queue and the `PriorityQueue` entry
 * point of its bundle: a wrapper that checks its options, delegates to one of
 * the three strategies and keeps its own `length` counter, throwing
 * 'Empty queue' on `dequeue` and `peek` when that counter is zero.
 */
module AbstractPriorityQueue {
  import opened Wrappers
  import opened Comparators
  import A = ArrayStrategy
  import H = BinaryHeap
  import B = BHeapStrategy
  import Bits

  /** The strategy constructors a caller can pass as `options.strategy`. */
  datatype StrategyName = ArrayStrategy | BinaryHeapStrategy | BHeapStrategy

  /**
   * The options object. A missing `strategy` or `comparator` is None, a missing
   * `initialValues` is the empty list and a missing (or zero) `pageSize` is 0.
   */
  datatype Options<!T> = Options(
    strategy: Option<StrategyName>,
    comparator: Option<(T, T) -> int>,
    initialValues: seq<T>,
    pageSize: nat)

  /** The B-heap page size the options ask for: a missing one (0) means 512. */
  function PageSize<T>(o: Options<T>): nat {
    if o.pageSize == 0 then 512 else o.pageSize
  }

  /**
   * Apart from 1 and 2, a page size is a power of two exactly when it is a
   * power of two from 4 on: the checks as written and the corrected ones agree.
   */
  lemma {:induction false} PowerFromFour(size: nat)
    requires size != 1 && size != 2
    ensures (exists k: nat :: Bits.Pow2(k) == size) <==> (exists k: nat :: k >= 2 && Bits.Pow2(k) == size)
  {
    if exists k: nat :: Bits.Pow2(k) == size {
      var k: nat :| Bits.Pow2(k) == size;
      assert Bits.Pow2(0) == 1 && Bits.Pow2(1) == 2;
      assert k >= 2;
    }
  }

  const NoStrategy := "Must pass options.strategy, a strategy"
  const NoComparator := "Must pass options.comparator, a comparator"
  const EmptyQueue := "Empty queue"

  /** The checks the constructor makes before it builds the strategy. */
  function CheckOptions<T>(o: Options<T>): (r: Result<(StrategyName, (T, T) -> int)>)
    ensures r.Ok? <==> o.strategy.Some? && o.comparator.Some?
    ensures r.Ok? ==> r.value == (o.strategy.value, o.comparator.value)
    ensures o.strategy.None? ==> r == Err(NoStrategy)
    ensures o.strategy.Some? && o.comparator.None? ==> r == Err(NoComparator)
  {
    if o.strategy.None? then Err(NoStrategy)
    else if o.comparator.None? then Err(NoComparator)
    else Ok((o.strategy.value, o.comparator.value))
  }

  class PriorityQueue<T(!new)> {
    const kind: StrategyName
    const comparator: (T, T) -> int
    /** `priv`: exactly the field matching `kind` is set. */
    const arrayQ: A.ArrayStrategy?<T>
    const heapQ: H.BinaryHeapStrategy?<T>
    const bheapQ: B.BHeapStrategy?<T>
    var length: nat

    ghost predicate Valid()
      reads this, arrayQ, heapQ, bheapQ
    {
      match kind
      case ArrayStrategy =>
        arrayQ != null && arrayQ.Valid() && arrayQ.comparator == comparator && length <= |arrayQ.data|
      case BinaryHeapStrategy =>
        heapQ != null && heapQ.Valid() && heapQ.comparator == comparator && length <= |heapQ.data|
      case BHeapStrategy =>
        bheapQ != null && bheapQ.Valid() && bheapQ.comparator == comparator && length <= bheapQ.length
    }

    /** The number of elements the strategy holds. */
    function Count(): nat
      requires Valid()
      reads this, arrayQ, heapQ, bheapQ
    {
      match kind
      case ArrayStrategy => |arrayQ.data|
      case BinaryHeapStrategy => |heapQ.data|
      case BHeapStrategy => bheapQ.length
    }

    /** The elements the strategy holds. */
    ghost function Contents(): (m: multiset<T>)
      requires Valid()
      reads this, arrayQ, heapQ, bheapQ
      ensures |m| == Count()
    {
      match kind
      case ArrayStrategy => multiset(arrayQ.data)
      case BinaryHeapStrategy => multiset(heapQ.data)
      case BHeapStrategy => B.Elements(bheapQ.View())
    }

    /** Wrap an already built strategy, starting the counter at `length`. */
    constructor (kind: StrategyName, comparator: (T, T) -> int, arrayQ: A.ArrayStrategy?<T>,
                 heapQ: H.BinaryHeapStrategy?<T>, bheapQ: B.BHeapStrategy?<T>, length: nat)
      requires kind == ArrayStrategy ==> arrayQ != null && arrayQ.Valid() && arrayQ.comparator == comparator && length <= |arrayQ.data|
      requires kind == BinaryHeapStrategy ==> heapQ != null && heapQ.Valid() && heapQ.comparator == comparator && length <= |heapQ.data|
      requires kind == BHeapStrategy ==> bheapQ != null && bheapQ.Valid() && bheapQ.comparator == comparator && length <= bheapQ.length
      ensures Valid() && this.kind == kind && this.comparator == comparator && this.length == length
      ensures this.arrayQ == arrayQ && this.heapQ == heapQ && this.bheapQ == bheapQ
    {
      this.kind := kind;
      this.comparator := comparator;
      this.arrayQ := arrayQ;
      this.heapQ := heapQ;
      this.bheapQ := bheapQ;
      this.length := length;
    }

    /** `queue`: count one more element and hand it to the strategy. */
    method Queue(value: T)
      requires Valid()
      modifies this, arrayQ, heapQ, bheapQ
      ensures Valid() && length == old(length) + 1 && Count() == old(Count()) + 1
      ensures Contents() == old(Contents()) + multiset{value}
      ensures old(length == Count()) ==> length == Count()
    {
      length := length + 1;
      match kind
      case ArrayStrategy => arrayQ.Queue(value);
      case BinaryHeapStrategy => heapQ.Queue(value);
      case BHeapStrategy => bheapQ.Queue(value);
    }

    /**
     * `dequeue`: 'Empty queue' when the counter is zero; otherwise count one
     * element less and return what the strategy removes, a minimum.
     */
    method Dequeue() returns (r: Result<T>)
      requires Valid()
      modifies this, arrayQ, heapQ, bheapQ
      ensures Valid()
      ensures old(length) == 0 ==> r == Err(EmptyQueue) && Contents() == old(Contents())
      ensures old(length) == 0 ==> length == 0 && Count() == old(Count())
      ensures old(length) > 0 ==> r.Ok? && length == old(length) - 1 && Count() == old(Count()) - 1
      ensures old(length) > 0 ==> IsMin(comparator, r.value, old(Contents()))
      ensures old(length) > 0 ==> Contents() + multiset{r.value} == old(Contents())
      ensures old(length == Count()) ==> length == Count()
    {
      if length == 0 {
        return Err(EmptyQueue);
      }
      length := length - 1;
      match kind
      case ArrayStrategy =>
        var v := arrayQ.Dequeue();
        assert multiset(arrayQ.data) + multiset{v.value} == old(multiset(arrayQ.data)) by {
          assert old(arrayQ.data) == arrayQ.data + [v.value];
        }
        r := Ok(v.value);
      case BinaryHeapStrategy =>
        var v := heapQ.Dequeue();
        r := Ok(v.value);
      case BHeapStrategy =>
        var v := bheapQ.Dequeue();
        r := Ok(v);
    }

    /** `peek`: 'Empty queue' when the counter is zero, otherwise the strategy's minimum. */
    method Peek() returns (r: Result<T>)
      requires Valid()
      ensures length == 0 ==> r == Err(EmptyQueue)
      ensures length > 0 ==> r.Ok? && r.value in Contents() && IsMin(comparator, r.value, Contents())
    {
      if length == 0 {
        return Err(EmptyQueue);
      }
      match kind
      case ArrayStrategy =>
        var v := arrayQ.Peek();
        r := Ok(v.value);
      case BinaryHeapStrategy =>
        var v := heapQ.Peek();
        r := Ok(v.value);
      case BHeapStrategy =>
        var v := bheapQ.Peek();
        ghost var s := bheapQ.View();
        assert B.Values(s)[0] == v.value.value;
        r := Ok(v.value.value);
    }
  }

  /**
   * The constructor: check the options, then build the strategy from them
   * (the B-heap can still reject its page size). `countInitial` chooses the
   * starting counter: false is the code as written (`length = 0`), true the
   * corrected `length = initialValues.length`.
   */
  method Build<T(!new)>(o: Options<T>, countInitial: bool) returns (r: Result<PriorityQueue<T>>)
    requires o.comparator.Some? ==> IsComparator(o.comparator.value)
    requires o.pageSize <= 0x4000_0000
    ensures CheckOptions(o).Err? ==> r == Err(CheckOptions(o).msg)
    ensures CheckOptions(o).Ok? && o.strategy.value != BHeapStrategy ==> r.Ok?
    ensures CheckOptions(o).Ok? && o.strategy.value == BHeapStrategy ==>
      (r.Ok? <==> exists k: nat :: k >= 2 && Bits.Pow2(k) == PageSize(o))
    ensures r.Ok? ==> fresh(r.value) && fresh({r.value.arrayQ, r.value.heapQ, r.value.bheapQ} - {null})
    ensures r.Ok? ==> r.value.Valid()
    ensures r.Ok? ==> r.value.kind == o.strategy.value && r.value.comparator == o.comparator.value
    ensures r.Ok? ==> r.value.Contents() == multiset(o.initialValues)
    ensures r.Ok? ==> r.value.length == (if countInitial then |o.initialValues| else 0)
    ensures r.Ok? && countInitial ==> r.value.length == r.value.Count()
  {
    var checked := CheckOptions(o);
    if checked.Err? {
      return Err(checked.msg);
    }
    var (kind, cmp) := checked.value;
    var n := if countInitial then |o.initialValues| else 0;
    match kind
    case ArrayStrategy =>
      var q := new A.ArrayStrategy(cmp, o.initialValues);
      var pq := new PriorityQueue(kind, cmp, q, null, null, n);
      r := Ok(pq);
    case BinaryHeapStrategy =>
      var q := new H.BinaryHeapStrategy(cmp, o.initialValues);
      var pq := new PriorityQueue(kind, cmp, null, q, null, n);
      r := Ok(pq);
    case BHeapStrategy =>
      var q := B.CreateBHeap(cmp, o.pageSize, o.initialValues);
      if q.Err? {
        return Err(q.msg);
      }
      var pq := new PriorityQueue(kind, cmp, null, null, q.value, n);
      r := Ok(pq);
  }

  /** The constructor as written: the counter starts at 0 whatever `initialValues` holds. */
  method NewAsWritten<T(!new)>(o: Options<T>) returns (r: Result<PriorityQueue<T>>)
    requires o.comparator.Some? ==> IsComparator(o.comparator.value)
    requires o.pageSize <= 0x4000_0000
    requires o.strategy == Some(BHeapStrategy) ==> o.pageSize != 1 && o.pageSize != 2
    ensures CheckOptions(o).Err? ==> r == Err(CheckOptions(o).msg)
    ensures CheckOptions(o).Ok? && o.strategy.value != BHeapStrategy ==> r.Ok?
    ensures CheckOptions(o).Ok? && o.strategy.value == BHeapStrategy ==>
      (r.Ok? <==> exists k: nat :: Bits.Pow2(k) == PageSize(o))
    ensures r.Ok? ==> fresh(r.value) && fresh({r.value.arrayQ, r.value.heapQ, r.value.bheapQ} - {null})
    ensures r.Ok? ==> r.value.Valid() && r.value.length == 0
    ensures r.Ok? ==> r.value.kind == o.strategy.value && r.value.comparator == o.comparator.value
    ensures r.Ok? ==> r.value.Contents() == multiset(o.initialValues)
  {
    r := Build(o, false);
    if o.strategy == Some(BHeapStrategy) {
      PowerFromFour(PageSize(o));
    }
  }

  /**
   * With the counter starting at 0, a queue built from initial values refuses
   * to give them back: `dequeue` throws 'Empty queue' while the strategy holds one element.
   */
  method InitialValuesLost() returns (r: Result<int>, held: nat)
    ensures r == Err(EmptyQueue) && held == 1
  {
    DefaultCompareIsComparator();
    var o := Options(Some(BinaryHeapStrategy), Some(DefaultCompare), [7], 0);
    var q := NewAsWritten(o);
    held := q.value.Count();
    r := q.value.Dequeue();
  }

  /** The corrected constructor: the counter starts at `initialValues.length`. */
  method New<T(!new)>(o: Options<T>) returns (r: Result<PriorityQueue<T>>)
    requires o.comparator.Some? ==> IsComparator(o.comparator.value)
    requires o.pageSize <= 0x4000_0000
    ensures CheckOptions(o).Err? ==> r == Err(CheckOptions(o).msg)
    ensures CheckOptions(o).Ok? && o.strategy.value != BHeapStrategy ==> r.Ok?
    ensures CheckOptions(o).Ok? && o.strategy.value == BHeapStrategy ==>
      (r.Ok? <==> exists k: nat :: k >= 2 && Bits.Pow2(k) == PageSize(o))
    ensures r.Ok? ==> fresh(r.value) && fresh({r.value.arrayQ, r.value.heapQ, r.value.bheapQ} - {null})
    ensures r.Ok? ==> r.value.Valid()
    ensures r.Ok? ==> r.value.kind == o.strategy.value && r.value.comparator == o.comparator.value
    ensures r.Ok? ==> r.value.length == |o.initialValues| == r.value.Count()
    ensures r.Ok? ==> r.value.Contents() == multiset(o.initialValues)
  {
    r := Build(o, true);
  }

  /** With the corrected counter the initial values come back out. */
  method InitialValuesKept() returns (r: Result<int>)
    ensures r == Ok(7)
  {
    DefaultCompareIsComparator();
    var o := Options(Some(BinaryHeapStrategy), Some(DefaultCompare), [7], 0);
    var q := New(o);
    r := q.value.Dequeue();
    assert q.value.Contents() + multiset{r.value} == multiset{7};
  }

  /**
   * The bundle's `PriorityQueue` fills in a missing strategy (the binary heap)
   * and a missing comparator (`(a || 0) - (b || 0)` on numbers that may be `undefined`).
   */
  function WithDefaults(o: Options<Option<int>>): (r: Options<Option<int>>)
    ensures CheckOptions(r).Ok?
    ensures o.strategy.Some? ==> r.strategy == o.strategy
    ensures o.strategy.None? ==> r.strategy == Some(BinaryHeapStrategy)
    ensures o.comparator.Some? ==> r.comparator == o.comparator
    ensures o.comparator.None? ==> r.comparator == Some(BundleDefaultCompare)
    ensures r.initialValues == o.initialValues && r.pageSize == o.pageSize
  {
    o.(strategy := Some(if o.strategy.Some? then o.strategy.value else BinaryHeapStrategy),
       comparator := Some(if o.comparator.Some? then o.comparator.value else BundleDefaultCompare))
  }

  /**
   * `new PriorityQueue(options)`: defaults first, then the constructor as
   * written, whose counter starts at 0 even when `initialValues` is not empty.
   */
  method NewPriorityQueue(o: Options<Option<int>>) returns (r: Result<PriorityQueue<Option<int>>>)
    requires o.comparator.Some? ==> IsComparator(o.comparator.value)
    requires o.pageSize <= 0x4000_0000
    requires o.strategy == Some(BHeapStrategy) ==> o.pageSize != 1 && o.pageSize != 2
    ensures o.strategy != Some(BHeapStrategy) ==> r.Ok?
    ensures o.strategy == Some(BHeapStrategy) ==> (r.Ok? <==> exists k: nat :: Bits.Pow2(k) == PageSize(o))
    ensures r.Ok? ==> fresh(r.value) && r.value.Valid() && r.value.length == 0
    ensures r.Ok? && o.strategy.None? ==> r.value.kind == BinaryHeapStrategy
    ensures r.Ok? && o.comparator.None? ==> r.value.comparator == BundleDefaultCompare
    ensures r.Ok? ==> r.value.Contents() == multiset(o.initialValues)
  {
    BundleDefaultCompareMeaning();
    r := NewAsWritten(WithDefaults(o));
  }
}
