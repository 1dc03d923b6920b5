/**
 * The numeric helpers the distributions share: sums, products, factorials
 * and `logaddexp`. Finite numbers are reals; `Math.log` and `Math.exp` are
 * not modelled, so `logaddexp` takes the function `d => log(1 + exp(d))` as
 * a parameter.
 */
module Numeric {
  import opened JsNum

  /** The sum of the first n elements, added from the left. */
  function SumTo(xs: seq<real>, n: nat): real
    requires n <= |xs|
  {
    if n == 0 then 0.0 else SumTo(xs, n - 1) + xs[n - 1]
  }

  /** `sum(xs)`: the `reduce` of `+` that starts from 0. */
  function Sum(xs: seq<real>): real {
    SumTo(xs, |xs|)
  }

  /** A left fold of `+` over the first n elements that starts from the first element. */
  function ReduceTo(xs: seq<real>, n: nat): real
    requires 1 <= n <= |xs|
  {
    if n == 1 then xs[0] else ReduceTo(xs, n - 1) + xs[n - 1]
  }

  /** Starting the fold from the first element, or from 0, gives the same sum. */
  lemma {:induction false} ReduceIsSum(xs: seq<real>, n: nat)
    requires 1 <= n <= |xs|
    ensures ReduceTo(xs, n) == SumTo(xs, n)
  {
    if n > 1 {
      ReduceIsSum(xs, n - 1);
    }
  }

  /** `_sum(xs)`: 0 for an empty array, otherwise the `reduce` without a start value; it agrees with `sum`. */
  function UnliftedSum(xs: seq<real>): (r: real)
    ensures r == Sum(xs)
  {
    if |xs| == 0 then 0.0 else ReduceIsSum(xs, |xs|); ReduceTo(xs, |xs|)
  }

  /** A prefix of a longer sequence sums as it does alone. */
  lemma {:induction false} SumToPrefix(xs: seq<real>, ys: seq<real>, n: nat)
    requires n <= |xs|
    ensures SumTo(xs + ys, n) == SumTo(xs, n)
  {
    if n > 0 {
      SumToPrefix(xs, ys, n - 1);
      assert (xs + ys)[n - 1] == xs[n - 1];
    }
  }

  /** The sum of a concatenation is the sum of the parts. */
  lemma {:induction false} SumConcat(xs: seq<real>, ys: seq<real>)
    ensures Sum(xs + ys) == Sum(xs) + Sum(ys)
    decreases |ys|
  {
    if ys == [] {
      assert xs + ys == xs;
    } else {
      var init := ys[..|ys| - 1];
      var zs := xs + ys;
      assert zs[..|zs| - 1] == xs + init;
      SumConcat(xs, init);
      assert SumTo(zs, |zs| - 1) == Sum(xs + init) by {
        SumToPrefix(xs + init, [ys[|ys| - 1]], |zs| - 1);
        assert xs + init + [ys[|ys| - 1]] == zs;
      }
      assert SumTo(ys, |ys| - 1) == Sum(init) by {
        SumToPrefix(init, [ys[|ys| - 1]], |ys| - 1);
        assert init + [ys[|ys| - 1]] == ys;
      }
    }
  }

  /** The product of the first n elements. */
  function ProductTo(xs: seq<real>, n: nat): real
    requires n <= |xs|
  {
    if n == 0 then 1.0 else ProductTo(xs, n - 1) * xs[n - 1]
  }

  /** The product of all the elements; 1 for none. */
  function Prod(xs: seq<real>): real {
    ProductTo(xs, |xs|)
  }

  /** `product(xs)`: the running product of a `for` loop over the array. */
  method Product(xs: seq<real>) returns (result: real)
    ensures result == Prod(xs)
    ensures |xs| == 0 ==> result == 1.0
  {
    result := 1.0;
    var i := 0;
    var n := |xs|;
    while i < n
      invariant 0 <= i <= n
      invariant result == ProductTo(xs, i)
    {
      result := result * xs[i];
      i := i + 1;
    }
  }

  /** A zero anywhere makes the product zero. */
  lemma {:induction false} ProductWithZero(xs: seq<real>, n: nat, k: nat)
    requires k < n <= |xs| && xs[k] == 0.0
    ensures ProductTo(xs, n) == 0.0
  {
    if k < n - 1 {
      ProductWithZero(xs, n - 1, k);
    }
  }

  /** n! */
  function Factorial(n: nat): (r: nat)
    ensures r >= 1
  {
    if n <= 1 then 1 else n * Factorial(n - 1)
  }

  /** `fact(x)` on an integer: multiplies x, x - 1, ... down to 2; 1 for every x up to 1. */
  method Fact(x: int) returns (t: int)
    ensures x >= 0 ==> t == Factorial(x)
    ensures x <= 1 ==> t == 1
  {
    t := 1;
    var y := x;
    while y > 1
      invariant x <= 1 ==> y == x && t == 1
      invariant x > 1 ==> 1 <= y <= x && t * Factorial(y) == Factorial(x)
      decreases y
    {
      t := t * y;
      y := y - 1;
    }
  }

  /** The numbers 1, 2, ..., n. */
  function OneTo(n: nat): (r: seq<real>)
    ensures |r| == n && forall i :: 0 <= i < n ==> r[i] == (i + 1) as real
  {
    seq(n, (i: int) requires 0 <= i < n => (i + 1) as real)
  }

  /** n! is the product of 1, 2, ..., n, so `fact` agrees with `product` on them. */
  lemma {:induction false} FactorialIsProduct(n: nat)
    ensures Factorial(n) as real == Prod(OneTo(n))
  {
    if n > 0 {
      var f := Factorial(n - 1);
      FactorialIsProduct(n - 1);
      ProdOneToStep(n);
      FactorialStep(n);
      CastMultiplies(n, f);
    }
  }

  lemma {:induction false} FactorialStep(n: nat)
    requires n > 0
    ensures Factorial(n) == n * Factorial(n - 1)
  {
  }

  /** The product of 1, ..., n is n times the product of 1, ..., n - 1. */
  lemma {:induction false} ProdOneToStep(n: nat)
    requires n > 0
    ensures Prod(OneTo(n)) == n as real * Prod(OneTo(n - 1))
  {
    ProductPrefix(OneTo(n), OneTo(n - 1), n - 1);
    assert OneTo(n)[n - 1] == n as real;
  }

  lemma {:induction false} CastMultiplies(a: nat, b: nat)
    ensures (a * b) as real == a as real * b as real
  {
  }

  /** Sequences that agree on a prefix have the same product over it. */
  lemma {:induction false} ProductPrefix(xs: seq<real>, ys: seq<real>, n: nat)
    requires n <= |xs| && n <= |ys| && forall i :: 0 <= i < n ==> xs[i] == ys[i]
    ensures ProductTo(xs, n) == ProductTo(ys, n)
  {
    if n > 0 {
      ProductPrefix(xs, ys, n - 1);
    }
  }

  /**
   * `logaddexp(a, b)`: log(exp(a) + exp(b)), where softplus(d) stands for
   * `Math.log(1 + Math.exp(d))`. A -Infinity operand gives back the other
   * one; NaN and the infinities propagate as the arithmetic does.
   */
  function LogAddExp(a: Num, b: Num, softplus: real -> real): (r: Num)
    ensures a == NegInf ==> r == b
    ensures a != NegInf && b == NegInf ==> r == a
    ensures a.Finite? && b.Finite? ==> r.Finite?
  {
    if a == NegInf then b
    else if b == NegInf then a
    else if Less(b, a) then AddSoftplus(b, a, softplus)
    else AddSoftplus(a, b, softplus)
  }

  /** `Math.log(1 + Math.exp(lo - hi)) + hi` for operands that are not -Infinity. */
  function AddSoftplus(lo: Num, hi: Num, softplus: real -> real): Num
    requires lo != NegInf && hi != NegInf
  {
    if lo.Finite? && hi.Finite? then Finite(softplus(lo.r - hi.r) + hi.r)
    else if lo.NaN? || hi.NaN? || (lo.PosInf? && hi.PosInf?) then NaN
    else PosInf
  }

  /** `logaddexp` is symmetric in its operands. */
  lemma {:induction false} LogAddExpCommutes(a: Num, b: Num, softplus: real -> real)
    ensures LogAddExp(a, b, softplus) == LogAddExp(b, a, softplus)
  {
    if a != NegInf && b != NegInf && a.Finite? && b.Finite? && a.r == b.r {
      assert a == b;
    }
  }

  /** When softplus is non-negative, the result is at least the larger operand. */
  lemma {:induction false} LogAddExpAtLeastMax(a: real, b: real, softplus: real -> real)
    requires forall d: real :: softplus(d) >= 0.0
    ensures var r := LogAddExp(Finite(a), Finite(b), softplus);
      r.Finite? && r.r >= a && r.r >= b
  {
  }

  /**
   * `Math.log(x)`, where log stands for the logarithm of a positive real:
   * -Infinity at 0, NaN below 0 and for NaN and -Infinity.
   */
  function JsLog(x: Num, log: real -> real): (r: Num)
    ensures x == Finite(0.0) ==> r == NegInf
    ensures x.Finite? && x.r > 0.0 ==> r == Finite(log(x.r))
    ensures (x.Finite? && x.r < 0.0) || x.NaN? || x.NegInf? ==> r.NaN?
  {
    match x
    case Finite(v) => if v > 0.0 then Finite(log(v)) else if v == 0.0 then NegInf else NaN
    case PosInf => PosInf
    case _ => NaN
  }

  /** `a / b` on finite numbers: a division by zero gives an infinity, or NaN for 0 / 0. */
  function Quotient(a: real, b: real): (r: Num)
    ensures b != 0.0 ==> r == Finite(a / b)
    ensures b == 0.0 ==> !r.Finite?
  {
    if b != 0.0 then Finite(a / b)
    else if a == 0.0 then NaN
    else if a > 0.0 then PosInf
    else NegInf
  }

  /** `-x` */
  function Negate(x: Num): (r: Num)
    ensures x.Finite? ==> r == Finite(-x.r)
  {
    match x
    case Finite(v) => Finite(-v)
    case PosInf => NegInf
    case NegInf => PosInf
    case NaN => NaN
  }
}
