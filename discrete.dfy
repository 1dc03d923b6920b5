/**
 * The discrete distribution over the indices of a weight array: sampling by
 * inverse CDF, the support test, the score and the support. The uniform draw
 * of `util.random()` is a parameter.
 */
module Discrete {
  import opened JsNum
  import opened Numeric
  import Types
  import NumberText

  /** `probAccum` once the weight at index j is added: the sum of the weights up to and including j. */
  function RunningSum(theta: seq<real>, j: nat): real
    requires j < |theta|
  {
    SumTo(theta, j + 1)
  }

  /** The first index from i on whose running sum exceeds x; the last index when there is none. */
  function PickFrom(theta: seq<real>, x: real, i: nat): int
    requires i <= |theta|
    decreases |theta| - i
  {
    if i == |theta| then |theta| - 1
    else if x < RunningSum(theta, i) then i
    else PickFrom(theta, x, i + 1)
  }

  /** The index an inverse-CDF draw picks for the scaled draw x. */
  function Pick(theta: seq<real>, x: real): int {
    PickFrom(theta, x, 0)
  }

  /**
   * i is what sampling must give for the scaled draw x: the first index whose
   * running sum exceeds x, or, when no running sum does, the last index.
   */
  predicate SampledBy(theta: seq<real>, x: real, i: int) {
    if |theta| == 0 then i == -1
    else
      0 <= i < |theta| &&
      ((x < RunningSum(theta, i) && forall j :: 0 <= j < i ==> RunningSum(theta, j) <= x) ||
       (i == |theta| - 1 && forall j :: 0 <= j < |theta| ==> RunningSum(theta, j) <= x))
  }

  /** The search from i on meets the characterisation, given that no earlier running sum exceeds x. */
  lemma {:induction false} PickFromIsSampled(theta: seq<real>, x: real, i: nat)
    requires |theta| > 0 && i <= |theta|
    requires forall j :: 0 <= j < i ==> RunningSum(theta, j) <= x
    ensures SampledBy(theta, x, PickFrom(theta, x, i))
    decreases |theta| - i
  {
    if i < |theta| && !(x < RunningSum(theta, i)) {
      PickFromIsSampled(theta, x, i + 1);
    }
  }

  /** `Pick` meets the characterisation. */
  lemma {:induction false} PickIsSampled(theta: seq<real>, x: real)
    ensures SampledBy(theta, x, Pick(theta, x))
  {
    if |theta| > 0 {
      PickFromIsSampled(theta, x, 0);
    }
  }

  /** The characterisation fixes the index: there is only one. */
  lemma {:induction false} SampledIsUnique(theta: seq<real>, x: real, i: int, j: int)
    requires SampledBy(theta, x, i) && SampledBy(theta, x, j)
    ensures i == j
  {
  }

  /**
   * `sample(theta)` for the draw u: the running sum `probAccum` grows until it
   * exceeds u times the total; the last index is the fallback.
   */
  method Sample(theta: seq<real>, u: real) returns (i: int)
    ensures i == Pick(theta, u * UnliftedSum(theta))
    ensures SampledBy(theta, u * UnliftedSum(theta), i)
  {
    i := AccumulateUntil(theta, u * UnliftedSum(theta));
  }

  /** The loop of `sample`: accumulate the weights until the running sum exceeds x. */
  method AccumulateUntil(theta: seq<real>, x: real) returns (i: int)
    ensures i == Pick(theta, x)
    ensures SampledBy(theta, x, i)
  {
    PickIsSampled(theta, x);
    var k := |theta|;
    var probAccum := 0.0;
    var j := 0;
    while j < k
      invariant 0 <= j <= k
      invariant probAccum == SumTo(theta, j)
      invariant PickFrom(theta, x, j) == Pick(theta, x)
    {
      probAccum := probAccum + theta[j];
      assert probAccum == RunningSum(theta, j);
      if x < probAccum {
        return j;
      }
      j := j + 1;
    }
    return k - 1;
  }

  /** For a non-empty weight array, the index lies in [0, k). */
  lemma {:induction false} SampleInRange(theta: seq<real>, x: real)
    requires |theta| > 0
    ensures 0 <= Pick(theta, x) < |theta|
  {
    PickIsSampled(theta, x);
  }

  /** The picked index of a non-empty weight array, as an index into it. */
  function PickIn(theta: seq<real>, x: real): (i: nat)
    requires |theta| > 0
    ensures i < |theta| && i == Pick(theta, x)
  {
    SampleInRange(theta, x);
    Pick(theta, x)
  }

  /** An index of weight 0 is never picked by the search itself: only through the fallback. */
  lemma {:induction false} ZeroWeightOnlyByFallback(theta: seq<real>, x: real, i: int)
    requires x >= 0.0 && SampledBy(theta, x, i) && 0 <= i < |theta| && theta[i] == 0.0
    ensures i == |theta| - 1 && forall j :: 0 <= j < |theta| ==> RunningSum(theta, j) <= x
  {
    assert RunningSum(theta, i) == SumTo(theta, i);
    if i > 0 && forall j :: 0 <= j < i ==> RunningSum(theta, j) <= x {
      assert RunningSum(theta, i - 1) <= x;
    }
  }

  /** A draw in [0, 1) over weights of positive total never reaches the fallback, so it never picks a weight of 0. */
  lemma {:induction false} UnitDrawPicksPositiveWeight(theta: seq<real>, u: real, i: int)
    requires 0.0 <= u < 1.0 && Sum(theta) > 0.0
    requires SampledBy(theta, u * Sum(theta), i)
    ensures 0 <= i < |theta| && theta[i] != 0.0
  {
    var x := u * Sum(theta);
    assert 0.0 < (1.0 - u) * Sum(theta);
    assert x < RunningSum(theta, |theta| - 1);
    if theta[i] == 0.0 {
      ZeroWeightOnlyByFallback(theta, x, i);
      assert false;
    }
  }

  /** `inSupport(val, dim)`: `val === Math.floor(val)`, `0 <= val` and `val < dim`. */
  predicate InSupport(val: Types.Value, dim: int) {
    val.Number? && !val.n.NaN? && (val.n.Finite? ==> NumberText.IsIntegral(val.n.r)) &&
    LessEq(Finite(0.0), val.n) && Less(val.n, Finite(dim as real))
  }

  /** `_.range(ps.length)`: the support, as numbers. */
  function Support(ps: seq<real>): (r: seq<Types.Value>)
    ensures |r| == |ps| && forall i :: 0 <= i < |ps| ==> r[i] == Types.Number(Finite(i as real))
  {
    seq(|ps|, (i: int) requires 0 <= i < |ps| => Types.Number(Finite(i as real)))
  }

  /** The values `inSupport` accepts are exactly the members of the support. */
  lemma {:induction false} InSupportIffInRange(ps: seq<real>, val: Types.Value)
    ensures InSupport(val, |ps|) <==> val in Support(ps)
  {
    if InSupport(val, |ps|) {
      var i := val.n.r.Floor;
      assert Support(ps)[i] == val;
    }
  }

  /**
   * `score(ps, val)` on an array of weights: the log of its weight over the
   * total for an index in the support, -Infinity for everything else.
   */
  function Score(ps: seq<real>, val: Types.Value, log: real -> real): (s: Num)
    ensures !InSupport(val, |ps|) ==> s == NegInf
    ensures InSupport(val, |ps|) && Sum(ps) > 0.0 && ps[val.n.r.Floor] > 0.0 ==> s == Finite(log(ps[val.n.r.Floor] / Sum(ps)))
    ensures InSupport(val, |ps|) && Sum(ps) > 0.0 && ps[val.n.r.Floor] == 0.0 ==> s == NegInf
  {
    if InSupport(val, |ps|) then JsLog(Quotient(ps[val.n.r.Floor], Sum(ps)), log) else NegInf
  }
}
