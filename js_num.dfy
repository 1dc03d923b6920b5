/**
 * JavaScript numbers where their special values matter: finite values are
 * reals (rounding is not modelled), plus the two infinities and NaN.
 */
module JsNum {
  datatype Num = Finite(r: real) | PosInf | NegInf | NaN

  /** `isFinite(x)`. */
  predicate IsFinite(x: Num) {
    x.Finite?
  }

  /** `String(x)` for the non-finite values. */
  function NonFiniteText(x: Num): (s: string)
    requires !x.Finite?
    ensures s == "NaN" <==> x.NaN?
  {
    match x
    case PosInf => "Infinity"
    case NegInf => "-Infinity"
    case NaN => "NaN"
  }

  /** `x + y` */
  function Add(x: Num, y: Num): (r: Num)
    ensures x.Finite? && y.Finite? ==> r == Finite(x.r + y.r)
    ensures x.NaN? || y.NaN? ==> r.NaN?
    ensures r.Finite? ==> x.Finite? && y.Finite?
  {
    match (x, y)
    case (Finite(a), Finite(b)) => Finite(a + b)
    case (NaN, _) => NaN
    case (_, NaN) => NaN
    case (PosInf, NegInf) => NaN
    case (NegInf, PosInf) => NaN
    case (PosInf, _) => PosInf
    case (_, PosInf) => PosInf
    case (NegInf, _) => NegInf
    case (_, NegInf) => NegInf
  }

  /** `x * y`: an infinity times zero is NaN, otherwise signs multiply. */
  function Mul(x: Num, y: Num): (r: Num)
    ensures x.Finite? && y.Finite? ==> r == Finite(x.r * y.r)
    ensures x.NaN? || y.NaN? ==> r.NaN?
    ensures r.Finite? <==> x.Finite? && y.Finite?
    ensures x == Finite(0.0) && !y.Finite? ==> r.NaN?
  {
    if x.Finite? && y.Finite? then Finite(x.r * y.r)
    else if x.NaN? || y.NaN? then NaN
    else if x.Finite? then InfinityTimes(x.r, y)
    else if y.Finite? then InfinityTimes(y.r, x)
    else if x == y then PosInf
    else NegInf
  }

  /** a times an infinity. */
  function InfinityTimes(a: real, inf: Num): Num
    requires inf.PosInf? || inf.NegInf?
  {
    if a == 0.0 then NaN else if (a > 0.0) == inf.PosInf? then PosInf else NegInf
  }

  /** `x < y` (false whenever NaN is involved). */
  predicate Less(x: Num, y: Num) {
    match (x, y)
    case (Finite(a), Finite(b)) => a < b
    case (NegInf, Finite(_)) => true
    case (NegInf, PosInf) => true
    case (Finite(_), PosInf) => true
    case _ => false
  }

  /** `x <= y` (false whenever NaN is involved). */
  predicate LessEq(x: Num, y: Num) {
    Less(x, y) || (x == y && !x.NaN?)
  }

  lemma {:induction false} LessEqIsNotGreater(x: Num, y: Num)
    requires !x.NaN? && !y.NaN?
    ensures LessEq(x, y) <==> !Less(y, x)
  {
  }
}
