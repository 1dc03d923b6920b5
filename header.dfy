/**
 * The older runtime's header: its own inverse-CDF sampler, looking up a
 * choice of an MH trace by name, turning an address into its integer
 * segments, and the enumeration coroutine with its queue disciplines and
 * its rule for when to stop. The uniform draw of `Math.random()` and
 * `Math.exp` are parameters; continuations and stores are not part of this
 * model, a continuation being a number.
 */
module Header {
  import opened Wrappers
  import opened JsNum
  import opened Numeric
  import JsString
  import NumberText
  import Types
  import D = Dict
  import Dists
  import Discrete
  import Q = EnumQueue

  // ---------------------------------------------------------------------
  // multinomialSample

  /** The first index from i on whose running sum reaches x; the length when there is none. */
  function FirstReaching(theta: seq<real>, x: real, i: nat): (k: nat)
    requires i <= |theta|
    ensures i <= k <= |theta|
    ensures k < |theta| ==> x <= Discrete.RunningSum(theta, k)
    ensures forall j :: i <= j < k ==> Discrete.RunningSum(theta, j) < x
    decreases |theta| - i
  {
    if i == |theta| then |theta|
    else if Discrete.RunningSum(theta, i) >= x then i
    else FirstReaching(theta, x, i + 1)
  }

  /**
   * `multinomialSample(theta)` as written, for the draw u: the first index
   * whose running sum is at least u times the total, and `theta.length` when
   * the loop runs out.
   */
  method MultinomialSampleAsWritten(theta: seq<real>, u: real) returns (i: nat)
    ensures i == FirstReaching(theta, u * Sum(theta), 0)
  {
    i := AccumulateUntil(theta, u * Sum(theta));
  }

  /** The loop of `multinomialSample`: accumulate the weights until the sum reaches x. */
  method AccumulateUntil(theta: seq<real>, x: real) returns (i: nat)
    ensures i == FirstReaching(theta, x, 0)
  {
    var k := |theta|;
    var probAccum := 0.0;
    var j := 0;
    while j < k
      invariant 0 <= j <= k
      invariant probAccum == SumTo(theta, j)
      invariant FirstReaching(theta, x, j) == FirstReaching(theta, x, 0)
    {
      probAccum := probAccum + theta[j];
      assert probAccum == Discrete.RunningSum(theta, j);
      ReachingStep(theta, x, j);
      if probAccum >= x {
        return j;
      }
      j := j + 1;
    }
    return k;
  }

  /** One step of the search: index j is found when its running sum reaches x, else the search goes on. */
  lemma {:induction false} ReachingStep(theta: seq<real>, x: real, j: nat)
    requires j < |theta|
    ensures FirstReaching(theta, x, j)
      == if Discrete.RunningSum(theta, j) >= x then j else FirstReaching(theta, x, j + 1)
  {
  }

  /** A draw of exactly 0 picks index 0 even when its weight is 0: the case the FIXME note in `multinomialSample` describes. */
  lemma {:induction false} ZeroDrawPicksZeroWeight(theta: seq<real>)
    requires |theta| > 0 && theta[0] == 0.0
    ensures FirstReaching(theta, 0.0 * Sum(theta), 0) == 0
  {
    assert SumTo(theta, 1) == SumTo(theta, 0) + theta[0];
    assert Discrete.RunningSum(theta, 0) == 0.0;
  }

  /** The inverse-CDF sampler of the other modules never picks that weight for the same draw. */
  lemma {:induction false} CorrectedSkipsZeroWeight(theta: seq<real>)
    requires |theta| > 1 && theta[0] == 0.0 && Sum(theta) > 0.0
    ensures Discrete.Pick(theta, 0.0 * Sum(theta)) != 0
  {
    Discrete.PickIsSampled(theta, 0.0 * Sum(theta));
    Discrete.UnitDrawPicksPositiveWeight(theta, 0.0, Discrete.Pick(theta, 0.0 * Sum(theta)));
  }

  /** Over non-negative weights and a draw in [0, 1), the loop never runs out on a non-empty array; on an empty one it returns 0. */
  lemma {:induction false} AsWrittenInRange(theta: seq<real>, u: real)
    requires 0.0 <= u < 1.0 && forall j :: 0 <= j < |theta| ==> theta[j] >= 0.0
    ensures |theta| > 0 ==> FirstReaching(theta, u * Sum(theta), 0) < |theta|
    ensures |theta| == 0 ==> FirstReaching(theta, u * Sum(theta), 0) == 0
  {
    if |theta| > 0 {
      NonNegativeSum(theta, |theta|);
      assert u * Sum(theta) <= Sum(theta);
      assert Discrete.RunningSum(theta, |theta| - 1) == Sum(theta);
    }
  }

  lemma {:induction false} NonNegativeSum(theta: seq<real>, n: nat)
    requires n <= |theta| && forall j :: 0 <= j < |theta| ==> theta[j] >= 0.0
    ensures SumTo(theta, n) >= 0.0
  {
    if n > 0 {
      NonNegativeSum(theta, n - 1);
    }
  }

  // ---------------------------------------------------------------------
  // findChoice

  /** The first index of an entry named `target`; -1 when there is none. */
  function FirstNamed<C>(t: seq<C>, name: C -> string, target: string, i: nat): (k: int)
    requires i <= |t|
    ensures k == -1 || i <= k < |t|
    ensures k == -1 <==> forall j :: i <= j < |t| ==> name(t[j]) != target
    ensures k >= 0 ==> name(t[k]) == target && forall j :: i <= j < k ==> name(t[j]) != target
    decreases |t| - i
  {
    if i == |t| then -1
    else if name(t[i]) == target then i
    else FirstNamed(t, name, target, i + 1)
  }

  /** `findChoice(trace, name)`: the first entry with that name; `undefined` without a trace or a match. */
  method FindChoice<C>(trace: Option<seq<C>>, name: C -> string, target: string) returns (r: Option<C>)
    ensures trace.None? ==> r.None?
    ensures trace.Some? ==> var k := FirstNamed(trace.value, name, target, 0);
      r == if k == -1 then None else Some(trace.value[k])
  {
    if trace.None? {
      return None;
    }
    var t := trace.value;
    var i := 0;
    while i < |t|
      invariant 0 <= i <= |t|
      invariant FirstNamed(t, name, target, i) == FirstNamed(t, name, target, 0)
    {
      if name(t[i]) == target {
        return Some(t[i]);
      }
      i := i + 1;
    }
    return None;
  }

  /** The entry found carries the name, and no earlier entry does; without one, no entry has it. */
  lemma {:induction false} FindChoiceIsFirstMatch<C>(t: seq<C>, name: C -> string, target: string)
    ensures var k := FirstNamed(t, name, target, 0);
      (k == -1 <==> forall j :: 0 <= j < |t| ==> name(t[j]) != target) &&
      (k >= 0 ==> name(t[k]) == target && forall j :: 0 <= j < k ==> name(t[j]) != target)
  {
  }

  // ---------------------------------------------------------------------
  // getAddress

  /** The address `a` as the numbers `parseInt` reads from its segments after the first. */
  function Address(a: string): (addr: seq<Num>)
    ensures var parts := JsString.Split(a, '_');
      |addr| == |parts| - 1 && forall i :: 0 <= i < |addr| ==> addr[i] == NumberText.ParseInt(parts[i + 1])
  {
    MapTail(JsString.Split(a, '_'), NumberText.ParseInt)
  }

  /** f applied to every segment after the first. */
  function MapTail(parts: seq<string>, f: string -> Num): (nums: seq<Num>)
    requires |parts| >= 1
    ensures |nums| == |parts| - 1 && forall i :: 0 <= i < |nums| ==> nums[i] == f(parts[i + 1])
  {
    seq(|parts| - 1, (i: int) requires 0 <= i < |parts| - 1 => f(parts[i + 1]))
  }

  /** `getAddress`: split at `_`, drop the leading segment and parse the rest in place. */
  method GetAddress(a: string) returns (addr: seq<Num>)
    ensures addr == Address(a)
  {
    var parts := JsString.Split(a, '_');
    var addressArray := ParseEach(parts[1..], NumberText.ParseInt);
    addr := addressArray[..];
  }

  /** The loop of `getAddress`: every segment of the array is replaced by the number `parse` reads from it. */
  method ParseEach(segments: seq<string>, parse: string -> Num) returns (out: array<Num>)
    ensures fresh(out) && out.Length == |segments|
    ensures forall j :: 0 <= j < |segments| ==> out[j] == parse(segments[j])
  {
    out := new Num[|segments|];
    var i := 0;
    while i < |segments|
      invariant 0 <= i <= |segments|
      invariant forall j :: 0 <= j < i ==> out[j] == parse(segments[j])
    {
      out[i] := parse(segments[i]);
      i := i + 1;
    }
  }

  /** The decimal texts of the numbers. */
  function NatStrings(ns: seq<nat>): (ss: seq<string>)
    ensures |ss| == |ns| && forall i :: 0 <= i < |ns| ==> ss[i] == JsString.NatToString(ns[i])
  {
    seq(|ns|, (i: int) requires 0 <= i < |ns| => JsString.NatToString(ns[i]))
  }

  /** The numbers, as JavaScript numbers. */
  function Numbers(ns: seq<nat>): (xs: seq<Num>)
    ensures |xs| == |ns| && forall i :: 0 <= i < |ns| ==> xs[i] == Finite(ns[i] as real)
  {
    seq(|ns|, (i: int) requires 0 <= i < |ns| => Finite(ns[i] as real))
  }

  /** An address such as `_3_5`, written `_` before each number, reads back as those numbers. */
  lemma {:induction false} AddressOfNumbers(ns: seq<nat>)
    ensures Address(JsString.Join([""] + NatStrings(ns), '_')) == Numbers(ns)
  {
    var parts := [""] + NatStrings(ns);
    forall k | 0 <= k < |parts| ensures '_' !in parts[k] {
      if k > 0 {
        assert parts[k] == JsString.NatToString(ns[k - 1]);
      }
    }
    JsString.SplitJoin(parts, '_');
    forall i | 0 <= i < |ns| ensures NumberText.ParseInt(parts[i + 1]) == Finite(ns[i] as real) {
      NumberText.ParseIntNat(ns[i], []);
      assert JsString.NatToString(ns[i]) + [] == parts[i + 1];
    }
  }

  // ---------------------------------------------------------------------
  // Enumerate

  /** `maxExecutions || 1000`: an absent or zero bound becomes 1000. */
  function MaxExecutions(m: Option<int>): (r: int)
    ensures r != 0
    ensures m.None? ==> r == 1000
    ensures m.Some? && m.value != 0 ==> r == m.value
  {
    if m.None? || m.value == 0 then 1000 else m.value
  }

  /** The marginal after a path ending in the value keyed `key` adds weight w: a new key starts from 0. */
  function AddWeight(m: D.Dict<Dists.Outcome<Types.Value>>, key: string, val: Types.Value, w: real): (r: D.Dict<Dists.Outcome<Types.Value>>)
    requires D.KeysDistinct(m)
    ensures D.KeysDistinct(r)
  {
    var entry := if D.Has(m, key) then D.Get(m, key) else Dists.Outcome(val, 0.0);
    D.Put(m, key, Dists.Outcome(entry.val, entry.prob + w))
  }

  /**
   * The key's probability grows by w from what it was, or from 0 for a new
   * key, which keeps the value it was first seen with; nothing else changes.
   */
  lemma {:induction false} AddWeightAccumulates(m: D.Dict<Dists.Outcome<Types.Value>>, key: string, val: Types.Value, w: real)
    requires D.KeysDistinct(m)
    ensures var r := AddWeight(m, key, val, w);
      D.Has(r, key) &&
      D.Get(r, key).prob == (if D.Has(m, key) then D.Get(m, key).prob else 0.0) + w &&
      D.Get(r, key).val == (if D.Has(m, key) then D.Get(m, key).val else val) &&
      (forall k :: k != key ==> (D.Has(r, k) <==> D.Has(m, k))) &&
      (forall k :: k != key && D.Has(m, k) ==> D.Get(r, k) == D.Get(m, k))
  {
  }

  /** Adding weights for two paths to the same value adds both. */
  lemma {:induction false} AddWeightTwice(m: D.Dict<Dists.Outcome<Types.Value>>, key: string, val: Types.Value, w1: real, w2: real)
    requires D.KeysDistinct(m) && !D.Has(m, key)
    ensures var o := D.Get(AddWeight(AddWeight(m, key, val, w1), key, val, w2), key);
      o.val == val && o.prob == w1 + w2
  {
    var r1 := AddWeight(m, key, val, w1);
    AddWeightAccumulates(m, key, val, w1);
    assert D.Get(r1, key).prob == w1 && D.Get(r1, key).val == val;
    var r2 := AddWeight(r1, key, val, w2);
    AddWeightAccumulates(r1, key, val, w2);
    assert D.Get(r2, key).prob == w1 + w2 && D.Get(r2, key).val == val;
  }

  /** The enumeration coroutine: the score of the current path, the queue still to explore, the marginal and the counters. */
  class Enumerate {
    var score: Num
    var queue: seq<Q.QState>
    var marginal: D.Dict<Dists.Outcome<Types.Value>>
    var numCompletedExecutions: nat
    const maxExecutions: int
    const strategy: Q.Strategy

    predicate Valid()
      reads this
    {
      D.KeysDistinct(marginal)
    }

    /** `new Enumerate(...)`, with the queue of `enuPriority`, `enuFilo` or `enuFifo`. */
    constructor(maxExecutions: Option<int>, strategy: Q.Strategy)
      ensures Valid()
      ensures score == Finite(0.0) && queue == [] && marginal == [] && numCompletedExecutions == 0
      ensures this.maxExecutions == MaxExecutions(maxExecutions) && this.strategy == strategy
    {
      score := Finite(0.0);
      queue := [];
      marginal := [];
      numCompletedExecutions := 0;
      this.maxExecutions := MaxExecutions(maxExecutions);
      this.strategy := strategy;
    }

    /**
     * `nextInQueue()`: take the next state and resume its path with its
     * score; on an empty queue reading the score of `undefined` fails.
     */
    method NextInQueue() returns (r: Result<Q.QState>)
      requires Valid()
      modifies this
      ensures Valid()
      ensures old(queue) == [] ==> r == Err("TypeError: Cannot read property 'score' of undefined") && queue == [] && score == old(score)
      ensures old(queue) != [] ==> var d := Q.Deq(strategy, old(queue));
        r == Ok(d.0) && queue == d.1 && score == d.0.score
      ensures marginal == old(marginal) && numCompletedExecutions == old(numCompletedExecutions)
    {
      if queue == [] {
        return Err("TypeError: Cannot read property 'score' of undefined");
      }
      var d := Q.Deq(strategy, queue);
      queue := d.1;
      score := d.0.score;
      return Ok(d.0);
    }

    /**
     * `sample(...)`: without a support function enumeration is refused;
     * otherwise every value of the support is queued with the path's score
     * plus its own and the extra score, and the next state is taken.
     */
    method Sample(cont: nat, supp: Option<seq<Types.Value>>, scoreOf: Types.Value -> Num, extra: Types.Value -> Num)
      returns (r: Result<Q.QState>)
      requires Valid()
      modifies this
      ensures Valid()
      ensures supp.None? ==> (r == Err("Enumerate can only be used with ERPs that have support function.") &&
        queue == old(queue) && score == old(score))
      ensures supp.Some? ==> var full := old(queue) + Successors(cont, supp.value, old(score), scoreOf, extra);
        (full == [] ==> r.Err? && queue == []) &&
        (full != [] ==> r == Ok(Q.Deq(strategy, full).0) && queue == Q.Deq(strategy, full).1 && score == r.value.score)
      ensures marginal == old(marginal) && numCompletedExecutions == old(numCompletedExecutions)
    {
      if supp.None? {
        return Err("Enumerate can only be used with ERPs that have support function.");
      }
      var s := supp.value;
      var i := 0;
      while i < |s|
        invariant 0 <= i <= |s|
        invariant score == old(score) && marginal == old(marginal)
        invariant numCompletedExecutions == old(numCompletedExecutions)
        invariant queue == old(queue) + Successors(cont, s[..i], old(score), scoreOf, extra)
      {
        assert s[..i + 1] == s[..i] + [s[i]];
        SuccessorsSnoc(cont, s[..i], s[i], score, scoreOf, extra);
        queue := Q.Enq(queue, Q.QState(cont, s[i], Add(Add(score, scoreOf(s[i])), extra(s[i]))));
        i := i + 1;
      }
      assert s[..i] == s;
      r := NextInQueue();
    }

    /** `factor(score)`: the path's score grows by the factor. */
    method Factor(s: Num)
      modifies this
      ensures score == Add(old(score), s)
      ensures queue == old(queue) && marginal == old(marginal) && numCompletedExecutions == old(numCompletedExecutions)
    {
      score := Add(score, s);
    }

    /**
     * `exit(s, retval)`: the path's probability `exp(score)` is added to the
     * marginal under the value's key and the count of completed paths grows;
     * the next state is taken while the queue is not empty and fewer than
     * `maxExecutions` paths have completed, and otherwise enumeration ends.
     */
    method Exit(key: string, retval: Types.Value, exp: Num -> real) returns (next: Option<Q.QState>)
      requires Valid()
      modifies this
      ensures Valid()
      ensures marginal == AddWeight(old(marginal), key, retval, exp(old(score)))
      ensures numCompletedExecutions == old(numCompletedExecutions) + 1
      ensures next.Some? <==> old(queue) != [] && old(numCompletedExecutions) + 1 < maxExecutions
      ensures next.Some? ==> next.value == Q.Deq(strategy, old(queue)).0 && queue == Q.Deq(strategy, old(queue)).1
      ensures next.None? ==> queue == old(queue) && score == old(score)
    {
      Record(key, retval, exp(score));
      if queue != [] && numCompletedExecutions < maxExecutions {
        var r := NextInQueue();
        next := Some(r.value);
      } else {
        next := None;
      }
    }

    /** The bookkeeping of `exit`: the path's weight goes into the marginal and one more path has completed. */
    method Record(key: string, retval: Types.Value, w: real)
      requires Valid()
      modifies this
      ensures Valid()
      ensures marginal == AddWeight(old(marginal), key, retval, w)
      ensures numCompletedExecutions == old(numCompletedExecutions) + 1
      ensures queue == old(queue) && score == old(score)
    {
      marginal := AddWeight(marginal, key, retval, w);
      numCompletedExecutions := numCompletedExecutions + 1;
    }
  }

  /** The states `sample` queues for the values of a support, in order. */
  function Successors(cont: nat, supp: seq<Types.Value>, score: Num, scoreOf: Types.Value -> Num, extra: Types.Value -> Num): (r: seq<Q.QState>)
    ensures |r| == |supp|
    ensures forall i :: 0 <= i < |supp| ==> r[i] == Q.QState(cont, supp[i], Add(Add(score, scoreOf(supp[i])), extra(supp[i])))
  {
    seq(|supp|, (i: int) requires 0 <= i < |supp| => Q.QState(cont, supp[i], Add(Add(score, scoreOf(supp[i])), extra(supp[i]))))
  }

  lemma {:induction false} SuccessorsSnoc(cont: nat, supp: seq<Types.Value>, v: Types.Value, score: Num, scoreOf: Types.Value -> Num, extra: Types.Value -> Num)
    ensures Successors(cont, supp + [v], score, scoreOf, extra) ==
      Successors(cont, supp, score, scoreOf, extra) + [Q.QState(cont, v, Add(Add(score, scoreOf(v)), extra(v)))]
  {
  }

  /** Depth first, the last value of the support is explored first. */
  lemma {:induction false} DepthFirstTakesLastValue(q: seq<Q.QState>, cont: nat, supp: seq<Types.Value>, score: Num, scoreOf: Types.Value -> Num, extra: Types.Value -> Num)
    requires |supp| > 0
    ensures Q.Deq(Q.DepthFirst, q + Successors(cont, supp, score, scoreOf, extra)).0.value == supp[|supp| - 1]
  {
  }

  /** Breadth first, a state already waiting is explored before any value of the support. */
  lemma {:induction false} BreadthFirstTakesWaiting(h: Q.QState, q: seq<Q.QState>, cont: nat, supp: seq<Types.Value>, score: Num, scoreOf: Types.Value -> Num, extra: Types.Value -> Num)
    ensures Q.Deq(Q.BreadthFirst, [h] + q + Successors(cont, supp, score, scoreOf, extra)).0 == h
  {
  }
}
