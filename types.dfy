/**
 * The run-time types of distribution parameters: each type is a membership
 * predicate on JavaScript values together with a name and a description.
 */
module Types {
  import opened Wrappers
  import opened JsNum
  import opened NumberText
  import I = MathInterval

  /** The JavaScript values the checks tell apart; tensors carry their dimensions and data. */
  datatype Value =
    | Number(n: Num)
    | Str(s: string)
    | Bool(b: bool)
    | Arr(elems: seq<Value>)
    | TensorValue(dims: seq<nat>, data: seq<Num>)
    | Object

  datatype Type =
    | Any
    | Int(low: Num)
    | Real(bounds: I.Interval)
    | Array(elementType: Type)
    | Vector(bounds: I.Interval, boundsChecked: bool)
    | VectorOrRealArray(bounds: I.Interval)
    | PosDefMatrix
    | Tensor(bounds: I.Interval, boundsChecked: bool)
    | ProbabilityArray

  /** `util.isInteger`: a number with an integral finite value. */
  predicate IsInteger(v: Value) {
    v.Number? && v.n.Finite? && IsIntegral(v.n.r)
  }

  predicate IsTensor(v: Value) {
    v.TensorValue?
  }

  /** A column vector: a tensor of dimensions [n, 1]. */
  predicate IsVector(v: Value) {
    v.TensorValue? && |v.dims| == 2 && v.dims[1] == 1
  }

  predicate IsMatrix(v: Value) {
    v.TensorValue? && |v.dims| == 2
  }

  /** `int(low)`: the lower bound must be an integer or -Infinity. */
  function MakeInt(low: Num): (r: Result<Type>)
    ensures r.Ok? <==> low == NegInf || (low.Finite? && IsIntegral(low.r))
    ensures r.Ok? ==> r.value == Int(low)
    ensures r.Err? ==> r.msg == "Lower bound expected."
  {
    if !IsInteger(Number(low)) && low != NegInf then Err("Lower bound expected.") else Ok(Int(low))
  }

  const NonNegativeInterval := I.Interval(Finite(0.0), PosInf, false, true)
  const UnboundedInterval := I.Interval(NegInf, PosInf, true, true)
  const ExtendedInterval := I.Interval(NegInf, PosInf, false, false)
  const PositiveInterval := I.Interval(Finite(0.0), PosInf, true, true)
  const UnitInterval := I.Interval(Finite(0.0), Finite(1.0), false, false)

  /** The tolerance of the probability-array sum. */
  const Tolerance: real := 0.00000001

  /** `real(interval).check` */
  predicate RealCheck(bounds: I.Interval, v: Value) {
    v.Number? && I.Check(bounds, v.n)
  }

  /** Every element of `data` lies in `bounds`. */
  predicate AllIn(bounds: I.Interval, data: seq<Num>) {
    forall i :: 0 <= i < |data| ==> I.Check(bounds, data[i])
  }

  /** `vector(interval, performBoundsCheck).check` */
  predicate VectorCheck(bounds: I.Interval, boundsChecked: bool, v: Value) {
    IsVector(v) && (boundsChecked ==> AllIn(bounds, v.data))
  }

  /** An array of numbers that all lie in `bounds`. */
  predicate RealArrayCheck(bounds: I.Interval, v: Value) {
    v.Arr? && forall i :: 0 <= i < |v.elems| ==> RealCheck(bounds, v.elems[i])
  }

  /** `numeric._sum` of an array of finite numbers. */
  function Sum(xs: seq<Value>): real {
    if xs == [] then 0.0
    else Sum(xs[..|xs| - 1]) + (if xs[|xs| - 1].Number? && xs[|xs| - 1].n.Finite? then xs[|xs| - 1].n.r else 0.0)
  }

  function Abs(x: real): real {
    if x < 0.0 then -x else x
  }

  /** `type.check(v)` */
  predicate Check(t: Type, v: Value) {
    match t
    case Any => true
    case Int(low) => IsInteger(v) && LessEq(low, v.n)
    case Real(bounds) => RealCheck(bounds, v)
    case Array(e) => v.Arr? && (e == Any || forall i :: 0 <= i < |v.elems| ==> Check(e, v.elems[i]))
    case Vector(bounds, boundsChecked) => VectorCheck(bounds, boundsChecked, v)
    case VectorOrRealArray(bounds) => VectorCheck(bounds, true, v) || RealArrayCheck(bounds, v)
    case PosDefMatrix => IsMatrix(v) && v.dims[0] == v.dims[1]
    case Tensor(bounds, boundsChecked) => IsTensor(v) && (boundsChecked ==> AllIn(bounds, v.data))
    case ProbabilityArray => RealArrayCheck(NonNegativeInterval, v) && Abs(1.0 - Sum(v.elems)) < Tolerance
  }

  /** `appendInterval(name, interval)` */
  function AppendInterval(name: string, bounds: I.Interval): (d: string)
    ensures bounds.IsBounded() ==> d == name + " " + I.ToString(bounds)
    ensures !bounds.IsBounded() ==> d == name
  {
    if bounds.IsBounded() then name + " " + I.ToString(bounds) else name
  }

  function Name(t: Type): string {
    match t
    case Any => "any"
    case Int(_) => "int"
    case Real(_) => "real"
    case Array(_) => "array"
    case Vector(_, _) => "vector"
    case VectorOrRealArray(_) => "vectorOrRealArray"
    case PosDefMatrix => "posDefMatrix"
    case Tensor(_, _) => "tensor"
    case ProbabilityArray => "probabilityArray"
  }

  /** The `desc` text of a type. */
  function Desc(t: Type): string {
    match t
    case Any => "any"
    case Int(low) => "int (>=" + NumToString(low) + ")"
    case Real(bounds) => AppendInterval("real", bounds)
    case Array(e) => Desc(e) + " array"
    case Vector(bounds, _) => AppendInterval("vector", bounds)
    case VectorOrRealArray(bounds) => AppendInterval("vector or real array", bounds)
    case PosDefMatrix => "positive definite matrix"
    case Tensor(bounds, _) => AppendInterval("tensor", bounds)
    case ProbabilityArray => "real array with elements that sum to one"
  }

  const UnboundedInt := Int(NegInf)
  const NonNegativeInt := Int(Finite(0.0))
  const PositiveInt := Int(Finite(1.0))
  const UnboundedReal := Real(UnboundedInterval)
  const ExtendedReal := Real(ExtendedInterval)
  const PositiveReal := Real(PositiveInterval)
  const UnitIntervalReal := Real(UnitInterval)

  /** The interval texts of the named instances parse to the intervals above. */
  lemma {:induction false} NamedIntervalsParse()
    ensures I.Parse("[0, Infinity)") == Ok(NonNegativeInterval)
    ensures I.Parse("(-Infinity, Infinity)") == Ok(UnboundedInterval)
    ensures I.Parse("[-Infinity, Infinity]") == Ok(ExtendedInterval)
    ensures I.Parse("(0, Infinity)") == Ok(PositiveInterval)
    ensures I.Parse("[0, 1]") == Ok(UnitInterval)
  {
    NamedIntervalTexts();
    I.ParseToString(NonNegativeInterval);
    I.ParseToString(UnboundedInterval);
    I.ParseToString(ExtendedInterval);
    I.ParseToString(PositiveInterval);
    I.ParseToString(UnitInterval);
  }

  /** The texts `toString` writes for the named intervals. */
  lemma {:induction false} NamedIntervalTexts()
    ensures I.ToString(NonNegativeInterval) == "[0, Infinity)"
    ensures I.ToString(UnboundedInterval) == "(-Infinity, Infinity)"
    ensures I.ToString(ExtendedInterval) == "[-Infinity, Infinity]"
    ensures I.ToString(PositiveInterval) == "(0, Infinity)"
    ensures I.ToString(UnitInterval) == "[0, 1]"
  {
    ZeroOneText();
  }

  lemma {:induction false} ZeroOneText()
    ensures NumToString(Finite(0.0)) == "0" && NumToString(Finite(1.0)) == "1"
    ensures NumToString(PosInf) == "Infinity" && NumToString(NegInf) == "-Infinity"
  {
    assert (0.0).Floor == 0 && (1.0).Floor == 1;
  }

  /** `any` accepts every value. */
  lemma {:induction false} AnyChecksAll(v: Value)
    ensures Check(Any, v)
  {
  }

  /** `int(low)` holds exactly the integers from low up. */
  lemma {:induction false} IntChecksIntegersFrom(low: Num, v: Value)
    requires MakeInt(low).Ok?
    ensures Check(MakeInt(low).value, v) <==>
      (v.Number? && v.n.Finite? && IsIntegral(v.n.r) && (low.Finite? ==> low.r <= v.n.r))
  {
  }

  /** A higher lower bound admits fewer integers. */
  lemma {:induction false} IntNarrows(a: Num, b: Num, v: Value)
    requires LessEq(a, b) && Check(Int(b), v)
    ensures Check(Int(a), v)
  {
  }

  /** The named integer types nest: positive within non-negative within unbounded; infinities are in none. */
  lemma {:induction false} NamedIntsNest(v: Value)
    ensures Check(PositiveInt, v) ==> Check(NonNegativeInt, v)
    ensures Check(NonNegativeInt, v) ==> Check(UnboundedInt, v)
    ensures !Check(UnboundedInt, Number(PosInf)) && !Check(UnboundedInt, Number(NegInf))
    ensures Check(NonNegativeInt, Number(Finite(0.0))) && !Check(PositiveInt, Number(Finite(0.0)))
  {
  }

  /** `array(t)` accepts the empty array whatever t is, and no value that is not an array. */
  lemma {:induction false} ArrayAcceptsEmpty(t: Type, v: Value)
    ensures Check(Array(t), Arr([]))
    ensures !v.Arr? ==> !Check(Array(t), v)
  {
  }

  /** An array passes `array(t)` exactly when both of its parts do. */
  lemma {:induction false} ArrayOfConcat(t: Type, a: seq<Value>, b: seq<Value>)
    ensures Check(Array(t), Arr(a + b)) <==> Check(Array(t), Arr(a)) && Check(Array(t), Arr(b))
  {
    if t != Any {
      var ab := a + b;
      if Check(Array(t), Arr(a)) && Check(Array(t), Arr(b)) {
        forall i | 0 <= i < |ab|
          ensures Check(t, ab[i])
        {
          if i >= |a| {
            assert ab[i] == b[i - |a|];
          }
        }
      }
      if Check(Array(t), Arr(ab)) {
        forall i | 0 <= i < |a|
          ensures Check(t, a[i])
        {
          assert ab[i] == a[i];
        }
        forall i | 0 <= i < |b|
          ensures Check(t, b[i])
        {
          assert ab[|a| + i] == b[i];
        }
      }
    }
  }

  /** `vectorOrRealArray(I)` is the union of `vector(I, true)` and `array(real(I))`. */
  lemma {:induction false} VectorOrRealArrayIsUnion(bounds: I.Interval, v: Value)
    ensures Check(VectorOrRealArray(bounds), v)
      <==> Check(Vector(bounds, true), v) || Check(Array(Real(bounds)), v)
  {
  }

  /** `probabilityArray` is `array(real([0, Infinity)))` with a sum within 1e-8 of one. */
  lemma {:induction false} ProbabilityArrayIsNonNegativeRealArray(v: Value)
    ensures Check(ProbabilityArray, v) <==>
      Check(Array(Real(NonNegativeInterval)), v) && Abs(1.0 - Sum(v.elems)) < Tolerance
  {
  }

  /** The elements of a probability array are finite and non-negative. */
  lemma {:induction false} ProbabilityArrayElements(v: Value)
    requires Check(ProbabilityArray, v)
    ensures forall i :: 0 <= i < |v.elems| ==>
      v.elems[i].Number? && v.elems[i].n.Finite? && v.elems[i].n.r >= 0.0
  {
    forall i | 0 <= i < |v.elems|
      ensures v.elems[i].Number? && v.elems[i].n.Finite? && v.elems[i].n.r >= 0.0
    {
      assert RealCheck(NonNegativeInterval, v.elems[i]);
    }
  }

  /** `[]` sums to zero, so it is no probability array; `[1]` and `[0.4, 0.6]` are, `[0.999]` is not. */
  lemma {:induction false} ProbabilityArrayExamples()
    ensures !Check(ProbabilityArray, Arr([]))
    ensures Check(ProbabilityArray, Arr([Number(Finite(1.0))]))
    ensures Check(ProbabilityArray, Arr([Number(Finite(0.4)), Number(Finite(0.6))]))
    ensures !Check(ProbabilityArray, Arr([Number(Finite(0.999))]))
  {
    var one := [Number(Finite(1.0))];
    assert one[..0] == [];
    var pair := [Number(Finite(0.4)), Number(Finite(0.6))];
    assert pair[..1] == [Number(Finite(0.4))] && pair[..1][..0] == [];
    var almost := [Number(Finite(0.999))];
    assert almost[..0] == [];
  }

  /** `posDefMatrix` checks only that the value is a square matrix. */
  lemma {:induction false} PosDefMatrixIsSquare(dims: seq<nat>, data: seq<Num>)
    ensures Check(PosDefMatrix, TensorValue(dims, data)) <==> |dims| == 2 && dims[0] == dims[1]
    ensures !Check(PosDefMatrix, TensorValue([2, 1], data)) && !Check(PosDefMatrix, TensorValue([1, 1, 1], data))
    ensures Check(PosDefMatrix, TensorValue([2, 2], data))
  {
  }

  /** The unbounded reals hold every finite number but no infinity; the extended reals hold both infinities. */
  lemma {:induction false} RealInfinities(x: real)
    ensures Check(UnboundedReal, Number(Finite(x)))
    ensures !Check(UnboundedReal, Number(PosInf)) && !Check(UnboundedReal, Number(NegInf))
    ensures Check(ExtendedReal, Number(PosInf)) && Check(ExtendedReal, Number(NegInf))
    ensures !Check(ExtendedReal, Number(NaN)) && !Check(UnboundedReal, Str("a"))
  {
  }

  /** A bounds-checked vector or tensor holds no element outside its interval. */
  lemma {:induction false} BoundsCheckedData(t: Type, v: Value)
    requires (t.Vector? || t.Tensor?) && t.boundsChecked && Check(t, v)
    ensures v.TensorValue? && forall i :: 0 <= i < |v.data| ==> I.Check(t.bounds, v.data[i])
  {
  }

  /** Only a bounded interval is shown in a description. */
  lemma {:induction false} NamedDescriptions()
    ensures Desc(UnboundedReal) == "real"
    ensures Desc(UnitIntervalReal) == "real [0, 1]"
    ensures Desc(PositiveReal) == "real (0, Infinity)"
    ensures Desc(Array(NonNegativeInt)) == "int (>=0) array"
  {
    ZeroOneText();
  }
}
