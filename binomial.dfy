/**
 * The binomial distribution: the exact log-factorial, the score by the
 * log binomial coefficient, and the support. `Math.log` of a positive real is
 * a parameter; sampling, which draws from the beta distribution and from
 * `util.random()`, is not part of this model.
 */
module Binomial {
  import opened Wrappers
  import opened JsNum
  import opened Numeric
  import JsString
  import NumberText
  import Types

  /** log(lo) + log(lo + 1) + ... + log(hi); 0 when the range is empty. */
  function LogsBetween(lo: int, hi: int, log: real -> real): real
    decreases hi - lo + 1
  {
    if hi < lo then 0.0 else LogsBetween(lo, hi - 1, log) + log(hi as real)
  }

  /** log(n!) = log 2 + ... + log n. */
  function LogFactorial(n: nat, log: real -> real): real {
    LogsBetween(2, n, log)
  }

  /** A range of logarithms splits at any point into two adjacent ranges. */
  lemma {:induction false} LogsSplit(lo: int, mid: int, hi: int, log: real -> real)
    requires lo - 1 <= mid <= hi
    ensures LogsBetween(lo, hi, log) == LogsBetween(lo, mid, log) + LogsBetween(mid + 1, hi, log)
    decreases hi - mid
  {
    if hi > mid {
      LogsSplit(lo, mid, hi - 1, log);
    }
  }

  /**
   * `lnfactExact(x)` on an integer: an error for a negative argument,
   * otherwise the sum of the logarithms of x, x - 1, ..., 2.
   */
  method LnFactExact(x: int, log: real -> real) returns (r: Result<real>)
    ensures x < 0 ==> r == Err("lnfactExact called on negative argument " + JsString.IntToString(x))
    ensures x >= 0 ==> r == Ok(LogFactorial(x, log))
  {
    if x < 0 {
      return Err("lnfactExact called on negative argument " + JsString.IntToString(x));
    }
    var y := if x < 1 then 1 else x;
    var t := 0.0;
    while y > 1
      invariant 1 <= y && (x >= 1 ==> y <= x)
      invariant t + LogsBetween(2, y, log) == LogFactorial(x, log)
      decreases y
    {
      t := t + log(y as real);
      y := y - 1;
    }
    return Ok(t);
  }

  /** The check at the head of `score`: a number that is an integer in [0, n]. */
  predicate IsCount(val: Types.Value, n: nat) {
    val.Number? && LessEq(Finite(0.0), val.n) && LessEq(val.n, Finite(n as real)) &&
    val.n.Finite? && NumberText.IsIntegral(val.n.r)
  }

  /** The integer a count stands for. */
  function CountOf(val: Types.Value, n: nat): (v: nat)
    requires IsCount(val, n)
    ensures v <= n && val == Types.Number(Finite(v as real))
  {
    val.n.r.Floor
  }

  /** The smaller and the larger of v and n - v, as `m` and `o`. */
  function SmallerLarger(v: int, n: int): (r: (int, int))
    ensures r.0 <= r.1 && r.0 + r.1 == n
    ensures (r.0 == v && r.1 == n - v) || (r.0 == n - v && r.1 == v)
  {
    if v < n - v then (v, n - v) else (n - v, v)
  }

  /** log of the binomial coefficient: log(n!) - log(v!) - log((n - v)!). */
  function LogChoose(n: nat, v: nat, log: real -> real): real
    requires v <= n
  {
    LogFactorial(n, log) - LogFactorial(v, log) - LogFactorial(n - v, log)
  }

  /** The term for the successes, `val * Math.log(p)`, taken as 0 when there are none. */
  function Successes(v: nat, p: real, log: real -> real): Num {
    if v == 0 then Finite(0.0) else Mul(Finite(v as real), JsLog(Finite(p), log))
  }

  /** The logarithms above the larger of v and n - v, less log of the smaller's factorial, are the log binomial coefficient. */
  lemma {:induction false} PermutationsOfLarger(n: nat, v: nat, log: real -> real)
    requires v <= n
    ensures var mo := SmallerLarger(v, n);
      LogsBetween(mo.1 + 1, n, log) - LogFactorial(mo.0, log) == LogChoose(n, v, log)
  {
    var mo := SmallerLarger(v, n);
    if mo.1 >= 1 {
      LogsSplit(2, mo.1, n, log);
    }
  }

  /** `score(val)`: -Infinity outside [0, n]; otherwise the log of the binomial probability of val successes. */
  method Score(p: real, n: nat, val: Types.Value, log: real -> real) returns (s: Num)
    ensures !IsCount(val, n) ==> s == NegInf
    ensures IsCount(val, n) ==>
      s == Add(Add(Finite(LogChoose(n, CountOf(val, n), log)), Successes(CountOf(val, n), p, log)),
               Successes(n - CountOf(val, n), 1.0 - p, log))
  {
    if !IsCount(val, n) {
      return NegInf;
    }
    var v := CountOf(val, n);
    var mo := SmallerLarger(v, n);
    var m, o := mo.0, mo.1;
    var logNumPermutations := LogsAbove(o, n, log);
    var lm := LnFactExact(m, log);
    logNumPermutations := logNumPermutations - lm.value;
    PermutationsOfLarger(n, v, log);
    assert Finite(logNumPermutations) == Finite(LogChoose(n, CountOf(val, n), log));
    s := Add(Add(Finite(logNumPermutations), Successes(v, p, log)), Successes(n - v, 1.0 - p, log));
  }

  /** The loop of `score` that sums log(o + 1) + ... + log(n). */
  method LogsAbove(o: int, n: nat, log: real -> real) returns (t: real)
    requires o <= n
    ensures t == LogsBetween(o + 1, n, log)
  {
    t := 0.0;
    var i := o + 1;
    while i <= n
      invariant o + 1 <= i <= n + 1
      invariant t == LogsBetween(o + 1, i - 1, log)
    {
      t := t + log(i as real);
      i := i + 1;
    }
  }

  /** With p = 0 any success is impossible: the score is -Infinity rather than NaN. */
  lemma {:induction false} ImpossibleSuccess(n: nat, v: nat, log: real -> real)
    requires 0 < v <= n
    ensures Add(Add(Finite(LogChoose(n, v, log)), Successes(v, 0.0, log)), Successes(n - v, 1.0, log)) == NegInf
  {
  }

  /** With p = 0 and no successes the score is finite: the zero count contributes 0, not 0 * -Infinity. */
  lemma {:induction false} NoSuccessIsFinite(n: nat, log: real -> real)
    ensures Add(Add(Finite(LogChoose(n, 0, log)), Successes(0, 0.0, log)), Successes(n, 1.0, log)).Finite?
  {
    assert Successes(0, 0.0, log) == Finite(0.0);
    assert JsLog(Finite(1.0), log) == Finite(log(1.0));
    assert Successes(n, 1.0, log).Finite?;
  }

  /** `_.range(0, n + 1)`: the counts 0 through n, as numbers. */
  function Support(n: nat): (r: seq<Types.Value>)
    ensures |r| == n + 1 && forall i :: 0 <= i <= n ==> r[i] == Types.Number(Finite(i as real))
  {
    seq(n + 1, (i: int) requires 0 <= i <= n => Types.Number(Finite(i as real)))
  }

  /** The values `score` accepts are exactly the members of the support. */
  lemma {:induction false} CountIffInSupport(n: nat, val: Types.Value)
    ensures IsCount(val, n) <==> val in Support(n)
  {
    if IsCount(val, n) {
      assert Support(n)[CountOf(val, n)] == val;
    }
  }
}
