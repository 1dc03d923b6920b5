/**
 * Real intervals with open or closed ends, as written in distribution
 * parameter types: `parse` reads text such as `(0, Infinity)`, `toString`
 * writes it back, and `check` tests membership.
 */
module MathInterval {
  import opened Wrappers
  import opened JsString
  import opened JsNum
  import opened NumberText

  datatype Interval = Interval(low: Num, high: Num, lopen: bool, ropen: bool) {
    /** An interval is bounded unless it runs from -Infinity to Infinity. */
    predicate IsBounded() {
      low != NegInf || high != PosInf
    }
  }

  /** `s.slice(1, -1)`: the text without its first and last character. */
  function Inner(s: string): (t: string)
    ensures |s| >= 2 ==> t == s[1..|s| - 1]
    ensures |s| < 2 ==> t == ""
  {
    if |s| >= 2 then s[1..|s| - 1] else ""
  }

  /** Dropping the brackets of a bracketed text gives the text between them back. */
  lemma {:induction false} InnerOfBracketed(open: char, t: string, close: char)
    ensures Inner([open] + t + [close]) == t
  {
    assert ([open] + t + [close])[1..|t| + 1] == t;
  }

  function ParseAll(parts: seq<string>): (xs: seq<Num>)
    ensures |xs| == |parts| && forall i :: 0 <= i < |parts| ==> xs[i] == ParseFloat(parts[i])
  {
    if parts == [] then [] else [ParseFloat(parts[0])] + ParseAll(parts[1..])
  }

  /** The two end points of `s`, when its inner text holds exactly one comma. */
  function EndPoints(s: string): seq<Num> {
    ParseAll(Split(Inner(s), ','))
  }

  function ParseFailure(s: string): string {
    "Failed to parse \"" + s + "\" as an interval."
  }

  function InvalidInterval(s: string): string {
    "Invalid interval \"" + s + "\"."
  }

  /**
   * `parse(str)`: the text must open with `[` or `(`, close with `]` or `)`
   * and hold two numbers separated by a comma, the first not greater than the
   * second.
   */
  function Parse(s: string): (r: Result<Interval>)
  {
    FromEndPoints(s, EndPoints(s))
  }

  /** `parse` once the end points have been read. */
  function FromEndPoints(s: string, endPoints: seq<Num>): (r: Result<Interval>)
    ensures r.Ok? ==> |s| >= 2 && (s[0] == '[' || s[0] == '(') && (s[|s| - 1] == ']' || s[|s| - 1] == ')')
    ensures r.Ok? ==> r.value.lopen == (s[0] == '(') && r.value.ropen == (s[|s| - 1] == ')')
    ensures r.Ok? ==> endPoints == [r.value.low, r.value.high]
    ensures r.Ok? ==> !r.value.low.NaN? && !r.value.high.NaN? && LessEq(r.value.low, r.value.high)
    ensures |endPoints| != 2 || (|s| >= 1 && s[0] != '[' && s[0] != '(') ==> r == Err(ParseFailure(s))
    ensures (r.Err? && |endPoints| == 2 && !endPoints[0].NaN? && !endPoints[1].NaN?
      && |s| >= 2 && (s[0] == '[' || s[0] == '(') && (s[|s| - 1] == ']' || s[|s| - 1] == ')')
      && Less(endPoints[1], endPoints[0])) ==> r == Err(InvalidInterval(s))
  {
    if |endPoints| != 2 || endPoints[0].NaN? || endPoints[1].NaN?
      || |s| == 0 || (s[0] != '[' && s[0] != '(')
      || (s[|s| - 1] != ']' && s[|s| - 1] != ')')
    then Err(ParseFailure(s))
    else
      var low := endPoints[0];
      var high := endPoints[1];
      if Less(high, low) then Err(InvalidInterval(s))
      else
        LessEqIsNotGreater(low, high);
        Ok(Interval(low, high, s[0] == '(', s[|s| - 1] == ')'))
  }

  /** `interval.toString()`. */
  function ToString(i: Interval): string {
    [if i.lopen then '(' else '['] + (NumToString(i.low) + ", " + NumToString(i.high))
      + [if i.ropen then ')' else ']']
  }

  /** `check(interval)(v)`: each end admits its end point exactly when it is closed. */
  predicate Check(i: Interval, v: Num) {
    if !i.lopen && !i.ropen then LessEq(i.low, v) && LessEq(v, i.high)
    else if !i.lopen && i.ropen then LessEq(i.low, v) && Less(v, i.high)
    else if i.lopen && !i.ropen then Less(i.low, v) && LessEq(v, i.high)
    else Less(i.low, v) && Less(v, i.high)
  }

  /** The lower end admits v. */
  predicate AboveLow(i: Interval, v: Num) {
    if i.lopen then Less(i.low, v) else LessEq(i.low, v)
  }

  /** The upper end admits v. */
  predicate BelowHigh(i: Interval, v: Num) {
    if i.ropen then Less(v, i.high) else LessEq(v, i.high)
  }

  /** Membership is the conjunction of the two end tests. */
  lemma {:induction false} CheckIsBothEnds(i: Interval, v: Num)
    ensures Check(i, v) <==> AboveLow(i, v) && BelowHigh(i, v)
  {
  }

  /** NaN lies in no interval. */
  lemma {:induction false} CheckRejectsNaN(i: Interval)
    ensures !Check(i, NaN)
  {
  }

  /** A closed end holds its own end point, an open end does not. */
  lemma {:induction false} EndPointMembership(i: Interval)
    requires !i.low.NaN? && LessEq(i.low, i.high)
    ensures Check(i, i.low) <==> !i.lopen && (i.low != i.high || !i.ropen)
    ensures !i.high.NaN? ==> (Check(i, i.high) <==> !i.ropen && (i.low != i.high || !i.lopen))
  {
  }

  /** The unbounded interval holds every finite number. */
  lemma {:induction false} UnboundedHoldsFinite(i: Interval, x: real)
    requires !i.IsBounded()
    ensures Check(i, Finite(x))
  {
  }

  /** A bounded interval with finite ends holds no infinity. */
  lemma {:induction false} FiniteEndsExcludeInfinity(i: Interval)
    requires i.low.Finite? && i.high.Finite?
    ensures !Check(i, PosInf) && !Check(i, NegInf)
  {
  }

  /** Text between two brackets, with the two end points separated by a comma and a space. */
  lemma {:induction false} Bracketed(o: char, lo: string, hi: string, c: char)
    ensures var s := [o] + (lo + ", " + hi) + [c];
      && |s| >= 2 && s[0] == o && s[|s| - 1] == c
      && Inner(s) == Join([lo, " " + hi], ',')
  {
    var mid := lo + ", " + hi;
    var s := [o] + mid + [c];
    assert s[1..|s| - 1] == mid;
    assert Join([lo, " " + hi], ',') == lo + [','] + (" " + hi);
  }

  /** The text `toString` writes, taken apart: the brackets and the inner text. */
  lemma {:induction false} ToStringParts(i: Interval)
    ensures var s := ToString(i);
      && |s| >= 2
      && s[0] == (if i.lopen then '(' else '[')
      && s[|s| - 1] == (if i.ropen then ')' else ']')
      && Inner(s) == Join([NumToString(i.low), " " + NumToString(i.high)], ',')
  {
    var lo := NumToString(i.low);
    var hi := NumToString(i.high);
    Bracketed(if i.lopen then '(' else '[', lo, hi, if i.ropen then ')' else ']');
  }

  /** The end points read from `toString`'s text are the interval's, for integral or infinite ends. */
  lemma {:induction false} EndPointsOfToString(i: Interval)
    requires Printable(i.low) && Printable(i.high)
    ensures EndPoints(ToString(i)) == [i.low, i.high]
  {
    var lo := NumToString(i.low);
    var hi := NumToString(i.high);
    ToStringParts(i);
    EndPointsOfInner(ToString(i), lo, hi);
    ParseFloatNumToString(i.low);
    ParseFloatNumToString(i.high);
    ParseFloatSkipsSpace(' ', hi);
  }

  /** Inner text `lo, hi` with no further comma gives the two numbers read from lo and from ` hi`. */
  lemma {:induction false} EndPointsOfInner(s: string, lo: string, hi: string)
    requires ',' !in lo && ',' !in hi && Inner(s) == Join([lo, " " + hi], ',')
    ensures EndPoints(s) == [ParseFloat(lo), ParseFloat(" " + hi)]
  {
    SplitJoin([lo, " " + hi], ',');
  }

  /** `parse(interval.toString())` gives the interval back, for integral or infinite ends. */
  lemma {:induction false} ParseToString(i: Interval)
    requires Printable(i.low) && Printable(i.high) && LessEq(i.low, i.high)
    ensures Parse(ToString(i)) == Ok(i)
  {
    ToStringParts(i);
    EndPointsOfToString(i);
    LessEqIsNotGreater(i.low, i.high);
  }
}
