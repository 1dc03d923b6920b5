/**
 * Conversions between JavaScript numbers and text: `parseFloat`, `parseInt`
 * with radix 10, and `String(x)` for integral and non-finite values.
 */
module NumberText {
  import opened JsString
  import opened JsNum
  import opened Wrappers

  /** The characters `parseFloat` and `parseInt` skip before the number. */
  predicate IsSpace(c: char) {
    c == ' ' || c == '\t' || c == '\n' || c == '\r' || c == '\U{000B}' || c == '\U{000C}'
  }

  /** `s` without its leading white space. */
  function TrimStart(s: string): (t: string)
    ensures |t| <= |s| && t == s[|s| - |t|..]
    ensures t == [] || !IsSpace(t[0])
  {
    if s != [] && IsSpace(s[0]) then TrimStart(s[1..]) else s
  }

  /** The number of decimal digits at the start of `s`. */
  function DigitRun(s: string): (n: nat)
    ensures n <= |s|
    ensures forall i :: 0 <= i < n ==> IsDigit(s[i])
    ensures n < |s| ==> !IsDigit(s[n])
  {
    if s != [] && IsDigit(s[0]) then 1 + DigitRun(s[1..]) else 0
  }

  /** The digits at the start of `s`. */
  function LeadingDigits(s: string): (d: string)
    ensures |d| <= |s| && d == s[..|d|]
    ensures forall i :: 0 <= i < |d| ==> IsDigit(d[i])
    ensures |d| < |s| ==> !IsDigit(s[|d|])
  {
    s[..DigitRun(s)]
  }

  function DigitValue(c: char): nat
    requires IsDigit(c)
  {
    c as int - '0' as int
  }

  /** The value of a string of decimal digits, most significant first. */
  function DigitsValue(d: string): nat
    requires forall i :: 0 <= i < |d| ==> IsDigit(d[i])
  {
    if d == [] then 0 else DigitsValue(d[..|d| - 1]) * 10 + DigitValue(d[|d| - 1])
  }

  function Pow10(n: nat): (p: nat)
    ensures p >= 1
  {
    if n == 0 then 1 else 10 * Pow10(n - 1)
  }

  /** `s` starts with `p`. */
  predicate StartsWith(s: string, p: string) {
    |p| <= |s| && s[..|p|] == p
  }

  /** A leading sign, and the text after it. */
  function Sign(t: string): (r: (bool, string))
    ensures |r.1| <= |t|
  {
    if t != [] && t[0] == '-' then (true, t[1..])
    else if t != [] && t[0] == '+' then (false, t[1..])
    else (false, t)
  }

  /**
   * The factor an exponent part `e[+-]digits` at the start of `s` stands for;
   * 1 when `s` does not start with a complete exponent part.
   */
  function ExponentFactor(s: string): (f: real)
    ensures f > 0.0
  {
    if |s| >= 2 && (s[0] == 'e' || s[0] == 'E') then
      var (neg, digits) := Sign(s[1..]);
      var d := LeadingDigits(digits);
      if d == [] then 1.0
      else
        var p := Pow10(DigitsValue(d)) as real;
        if neg then 1.0 / p else p
    else 1.0
  }

  /**
   * The value of the longest prefix of `u` that is an unsigned decimal
   * literal, digits with an optional fraction and exponent, if there is one.
   */
  function UnsignedDecimal(u: string): (m: Option<real>)
  {
    var intDigits := LeadingDigits(u);
    var afterInt := u[|intDigits|..];
    var hasDot := afterInt != [] && afterInt[0] == '.';
    var fracDigits := if hasDot then LeadingDigits(afterInt[1..]) else "";
    if intDigits == [] && fracDigits == [] then None
    else
      var rest := if hasDot then afterInt[1 + |fracDigits|..] else afterInt;
      Some(DecimalValue(intDigits, fracDigits) * ExponentFactor(rest))
  }

  /** The value of `whole.frac` written in decimal digits. */
  function DecimalValue(whole: string, frac: string): real
    requires forall i :: 0 <= i < |whole| ==> IsDigit(whole[i])
    requires forall i :: 0 <= i < |frac| ==> IsDigit(frac[i])
  {
    DigitsValue(whole) as real + DigitsValue(frac) as real / Pow10(|frac|) as real
  }

  /**
   * `parseFloat(s)`: leading white space and a sign are skipped, `Infinity`
   * is recognised, and otherwise the longest decimal prefix is read; text
   * that starts with no number gives NaN.
   */
  function ParseFloat(s: string): (x: Num)
  {
    var signed := Sign(TrimStart(s));
    ReadSigned(signed.0, signed.1)
  }

  /** The number read from `u`, negated when `neg` holds. */
  function ReadSigned(neg: bool, u: string): Num {
    if StartsWith(u, "Infinity") then (if neg then NegInf else PosInf)
    else
      var m := UnsignedDecimal(u);
      if m.None? then NaN else Finite(if neg then -m.value else m.value)
  }

  /**
   * `parseInt(s, 10)`: leading white space and a sign are skipped and the
   * leading digits read; no digits give NaN.
   */
  function ParseInt(s: string): (x: Num)
  {
    var (neg, u) := Sign(TrimStart(s));
    var d := LeadingDigits(u);
    if d == [] then NaN
    else Finite(if neg then -(DigitsValue(d) as real) else DigitsValue(d) as real)
  }

  /** The value is a whole number. */
  predicate IsIntegral(r: real) {
    r == r.Floor as real
  }

  /** Values `String(x)` prints as plain integer digits or as a non-finite name. */
  predicate Printable(x: Num) {
    !x.NaN? && (x.Finite? ==> IsIntegral(x.r))
  }

  /**
   * `String(x)`. Integral values print as their digits and non-finite ones by
   * name; other values print as the integer part, a point and up to 20
   * fractional digits.
   */
  function NumToString(x: Num): (s: string)
    ensures |s| >= 1
    ensures ',' !in s
  {
    match x
    case Finite(r) =>
      if IsIntegral(r) then IntToString(r.Floor)
      else if r < 0.0 then "-" + FractionalText(-r)
      else FractionalText(r)
    case _ => NonFiniteText(x)
  }

  function FractionalText(r: real): (s: string)
    requires r >= 0.0
    ensures |s| >= 1 && ',' !in s
  {
    NatToString(r.Floor) + "." + FractionDigits(r - r.Floor as real, 20)
  }

  function FractionDigits(f: real, n: nat): (s: string)
    requires 0.0 <= f < 1.0
    ensures forall i :: 0 <= i < |s| ==> IsDigit(s[i])
    decreases n
  {
    if n == 0 || f == 0.0 then ""
    else
      var d := (f * 10.0).Floor;
      [('0' as int + d) as char] + FractionDigits(f * 10.0 - d as real, n - 1)
  }

  /** Reading back the digits of a natural number gives the number. */
  lemma {:induction false} DigitsOfNat(n: nat)
    ensures DigitsValue(NatToString(n)) == n
    decreases n
  {
    if n >= 10 {
      DigitsOfNat(n / 10);
      var s := NatToString(n);
      assert s[..|s| - 1] == NatToString(n / 10);
    }
  }

  /** An all-digit string is one digit run and contains nothing else. */
  lemma {:induction false} AllDigitsRun(s: string)
    requires forall i :: 0 <= i < |s| ==> IsDigit(s[i])
    ensures LeadingDigits(s) == s
  {
  }

  /** A string of digits reads as its value, with nothing after it. */
  lemma {:induction false} UnsignedOfDigits(d: string)
    requires |d| >= 1 && forall i :: 0 <= i < |d| ==> IsDigit(d[i])
    ensures UnsignedDecimal(d) == Some(DigitsValue(d) as real)
  {
    AllDigitsRun(d);
    assert d[|d|..] == [];
    assert ExponentFactor([]) == 1.0;
    WholeValue(d);
  }

  /** Digits with an empty fraction are worth their whole part. */
  lemma {:induction false} WholeValue(whole: string)
    requires forall i :: 0 <= i < |whole| ==> IsDigit(whole[i])
    ensures DecimalValue(whole, "") == DigitsValue(whole) as real
  {
    var frac: string := "";
    assert DigitsValue(frac) == 0 && Pow10(|frac|) == 1;
    var w := DigitsValue(whole) as real;
    assert DecimalValue(whole, frac) == w + 0.0 / 1.0;
  }

  /** Text starting with a digit does not start with `Infinity`. */
  lemma {:induction false} NotInfinity(d: string)
    requires |d| >= 1 && IsDigit(d[0])
    ensures !StartsWith(d, "Infinity")
  {
  }

  /** A string of digits, with or without a minus sign, reads as its value. */
  lemma {:induction false} ReadDigits(d: string, neg: bool)
    requires |d| >= 1 && forall i :: 0 <= i < |d| ==> IsDigit(d[i])
    ensures ReadSigned(neg, d) == Finite(if neg then -(DigitsValue(d) as real) else DigitsValue(d) as real)
  {
    UnsignedOfDigits(d);
    NotInfinity(d);
  }

  /** Text that does not start with white space is its own trimmed text. */
  lemma {:induction false} TrimStartNone(s: string)
    requires s == [] || !IsSpace(s[0])
    ensures TrimStart(s) == s
  {
  }

  /** Text that does not start with a sign has none. */
  lemma {:induction false} SignNone(s: string)
    requires s == [] || (s[0] != '-' && s[0] != '+')
    ensures Sign(s) == (false, s)
  {
  }

  /** A string of digits has no leading white space or sign. */
  lemma {:induction false} SignOfDigits(d: string)
    requires |d| >= 1 && IsDigit(d[0])
    ensures Sign(TrimStart(d)) == (false, d)
  {
    TrimStartNone(d);
    SignNone(d);
  }

  /** A minus sign before a string of digits is the sign of the number. */
  lemma {:induction false} SignOfNegDigits(d: string)
    requires |d| >= 1 && IsDigit(d[0])
    ensures Sign(TrimStart("-" + d)) == (true, d)
  {
    var s := "-" + d;
    TrimStartNone(s);
    assert s[1..] == d;
  }

  /** `parseFloat` of a string of digits is their value. */
  lemma {:induction false} ParseFloatDigits(d: string)
    requires |d| >= 1 && forall i :: 0 <= i < |d| ==> IsDigit(d[i])
    ensures ParseFloat(d) == Finite(DigitsValue(d) as real)
    ensures ParseFloat("-" + d) == Finite(-(DigitsValue(d) as real))
  {
    ReadDigits(d, false);
    ReadDigits(d, true);
    SignOfDigits(d);
    SignOfNegDigits(d);
  }

  /** `parseFloat(String(i))` is i for an integer i. */
  lemma {:induction false} ParseFloatInt(i: int)
    ensures ParseFloat(IntToString(i)) == Finite(i as real)
  {
    var n: nat := if i < 0 then -i else i;
    DigitsOfNat(n);
    ParseFloatDigits(NatToString(n));
  }

  /** `Infinity` after the sign reads as an infinity of that sign. */
  lemma {:induction false} ReadInfinity(neg: bool, u: string)
    requires u == "Infinity"
    ensures ReadSigned(neg, u) == if neg then NegInf else PosInf
  {
    assert u[..|"Infinity"|] == u;
  }

  lemma {:induction false} ParseFloatPosInf(s: string)
    requires s == "Infinity"
    ensures ParseFloat(s) == PosInf
  {
    TrimStartNone(s);
    SignNone(s);
    ReadInfinity(false, s);
  }

  lemma {:induction false} ParseFloatNegInf(s: string)
    requires s == "-Infinity"
    ensures ParseFloat(s) == NegInf
  {
    TrimStartNone(s);
    assert Sign(s) == (true, s[1..]);
    ReadInfinity(true, s[1..]);
  }

  /** `parseFloat(String(x))` gives back every integral or infinite x. */
  lemma {:induction false} ParseFloatNumToString(x: Num)
    requires Printable(x)
    ensures ParseFloat(NumToString(x)) == x
  {
    match x
    case Finite(r) =>
      assert NumToString(x) == IntToString(r.Floor);
      ParseFloatInt(r.Floor);
    case PosInf =>
      ParseFloatPosInf(NumToString(x));
    case NegInf =>
      ParseFloatNegInf(NumToString(x));
  }

  /** Leading white space does not change what `parseFloat` reads. */
  lemma {:induction false} ParseFloatSkipsSpace(c: char, s: string)
    requires IsSpace(c)
    ensures ParseFloat([c] + s) == ParseFloat(s)
  {
    assert TrimStart([c] + s) == TrimStart(s) by {
      assert ([c] + s)[1..] == s;
    }
  }

  /** `parseInt` of the digits of a natural number, followed by a non-digit, gives the number. */
  lemma {:induction false} ParseIntNat(n: nat, rest: string)
    requires rest == [] || !IsDigit(rest[0])
    ensures ParseInt(NatToString(n) + rest) == Finite(n as real)
  {
    var d := NatToString(n);
    var s := d + rest;
    assert LeadingDigits(s) == d by {
      assert s[..|d|] == d;
    }
    assert IsDigit(s[0]);
    SignOfDigits(s);
    DigitsOfNat(n);
  }
}
