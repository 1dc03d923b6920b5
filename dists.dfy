/**
 * The distribution module: making a distribution type from its options and
 * checking the parameters a distribution is built with, reading a
 * distribution back from its JSON form, the uniform distribution over
 * {0, ..., n - 1}, and the marginal distribution of an inference result.
 * The encoders, combination search, histograms and samplers this module
 * shares with the per-distribution modules are those of MultivariateBernoulli,
 * Multinomial, Numeric, Binomial and Discrete.
 */
module Dists {
  import opened Wrappers
  import opened JsNum
  import opened Numeric
  import Types
  import D = Dict
  import Discrete

  // ---------------------------------------------------------------------
  // makeDistributionType and the constructor it builds

  /** A parameter's declared type: none, a type with a `check`, or something else that is not a type. */
  datatype ParamType = Untyped | Typed(t: Types.Type) | NotAType

  datatype ParamSpec = ParamSpec(name: string, ty: ParamType)

  /**
   * The options passed to `makeDistributionType`: `name` and `params` may be
   * absent; `methods` are the method names the options define (with a truthy
   * value), `mixins` the names each mixin defines.
   */
  datatype Options = Options(name: Option<string>, params: Option<seq<ParamSpec>>, methods: set<string>, mixins: seq<set<string>>)

  /** A distribution type: its name, its parameters and the methods its prototype has. */
  datatype DistType = DistType(name: string, params: seq<ParamSpec>, methods: set<string>)

  /** The index of the first parameter whose type is given but is not a type; -1 when there is none. */
  function FirstInvalidType(ps: seq<ParamSpec>): (i: int)
    ensures -1 <= i < |ps|
    ensures i == -1 <==> forall j :: 0 <= j < |ps| ==> !ps[j].ty.NotAType?
    ensures i >= 0 ==> ps[i].ty.NotAType? && forall j :: 0 <= j < i ==> !ps[j].ty.NotAType?
  {
    if ps == [] then -1
    else if ps[0].ty.NotAType? then 0
    else
      var j := FirstInvalidType(ps[1..]);
      if j == -1 then -1 else j + 1
  }

  /** The methods of the prototype: those of every mixin, then those of the options. */
  function Methods(o: Options): (m: set<string>)
    ensures forall x :: x in m <==> x in o.methods || exists i :: 0 <= i < |o.mixins| && x in o.mixins[i]
    decreases |o.mixins|
  {
    if o.mixins == [] then o.methods
    else
      var rest := Methods(o.(mixins := o.mixins[1..]));
      assert forall i :: 0 <= i < |o.mixins| - 1 ==> o.mixins[1..][i] == o.mixins[i + 1];
      o.mixins[0] + rest
  }

  /**
   * `makeDistributionType(options)`: `name` and then `params` are required,
   * every declared parameter type must be a type, and the prototype must end
   * up with `sample` and then `score`.
   */
  function MakeDistributionType(o: Options): (r: Result<DistType>)
    ensures o.name.None? ==> r == Err("makeDistributionType: name is required.")
    ensures o.name.Some? && o.params.None? ==> r == Err("makeDistributionType: params is required.")
    ensures o.name.Some? && o.params.Some? && FirstInvalidType(o.params.value) >= 0 ==>
      r == Err("Invalid type given for parameter " + o.params.value[FirstInvalidType(o.params.value)].name + " of " + o.name.value + ".")
    ensures o.name.Some? && o.params.Some? && FirstInvalidType(o.params.value) == -1 && "sample" !in Methods(o) ==>
      r == Err("makeDistributionType: method \"sample\" not defined for " + o.name.value)
    ensures o.name.Some? && o.params.Some? && FirstInvalidType(o.params.value) == -1 && "sample" in Methods(o) && "score" !in Methods(o) ==>
      r == Err("makeDistributionType: method \"score\" not defined for " + o.name.value)
    ensures r.Ok? <==> (o.name.Some? && o.params.Some? && (forall j :: 0 <= j < |o.params.value| ==> !o.params.value[j].ty.NotAType?) &&
      "sample" in Methods(o) && "score" in Methods(o))
    ensures r.Ok? ==> r.value == DistType(o.name.value, o.params.value, Methods(o))
  {
    if o.name.None? then Err("makeDistributionType: name is required.")
    else if o.params.None? then Err("makeDistributionType: params is required.")
    else
      var i := FirstInvalidType(o.params.value);
      if i >= 0 then Err("Invalid type given for parameter " + o.params.value[i].name + " of " + o.name.value + ".")
      else if "sample" !in Methods(o) then Err("makeDistributionType: method \"sample\" not defined for " + o.name.value)
      else if "score" !in Methods(o) then Err("makeDistributionType: method \"score\" not defined for " + o.name.value)
      else Ok(DistType(o.name.value, o.params.value, Methods(o)))
  }

  /** A distribution: its type and the parameters object it was built with (`undefined` for a type without parameters). */
  datatype Dist = Dist(dtype: DistType, params: Option<D.Dict<Types.Value>>)

  /** Parameter p is present and, when it has a type, passes its check. */
  predicate ParamAccepted(p: ParamSpec, params: D.Dict<Types.Value>) {
    D.Has(params, p.name) && (p.ty.Typed? ==> Types.Check(p.ty.t, D.Get(params, p.name)))
  }

  /** The error for the first parameter from index i on that is missing or fails its type. */
  function CheckParams(dtype: DistType, params: D.Dict<Types.Value>, i: nat): (r: Result<()>)
    requires i <= |dtype.params|
    decreases |dtype.params| - i
  {
    if i == |dtype.params| then Ok(())
    else
      var p := dtype.params[i];
      if !D.Has(params, p.name) then Err("Parameter \"" + p.name + "\" missing from " + dtype.name + " distribution.")
      else if p.ty.Typed? && !Types.Check(p.ty.t, D.Get(params, p.name)) then
        Err("Parameter \"" + p.name + "\" should be of type \"" + Types.Desc(p.ty.t) + "\".")
      else CheckParams(dtype, params, i + 1)
  }

  /** The parameter check passes exactly when every parameter from i on is present and well typed. */
  lemma {:induction false} CheckParamsOk(dtype: DistType, params: D.Dict<Types.Value>, i: nat)
    requires i <= |dtype.params|
    ensures CheckParams(dtype, params, i).Ok? <==> forall j :: i <= j < |dtype.params| ==> ParamAccepted(dtype.params[j], params)
    decreases |dtype.params| - i
  {
    if i < |dtype.params| {
      CheckParamsOk(dtype, params, i + 1);
    }
  }

  /** When the check fails, it names the first parameter that is missing or ill typed. */
  lemma {:induction false} CheckParamsNamesFirst(dtype: DistType, params: D.Dict<Types.Value>, i: nat, k: nat)
    requires i <= k < |dtype.params| && !ParamAccepted(dtype.params[k], params)
    requires forall j :: i <= j < k ==> ParamAccepted(dtype.params[j], params)
    ensures var p := dtype.params[k];
      CheckParams(dtype, params, i) ==
        if !D.Has(params, p.name) then Err("Parameter \"" + p.name + "\" missing from " + dtype.name + " distribution.")
        else Err("Parameter \"" + p.name + "\" should be of type \"" + Types.Desc(p.ty.t) + "\".")
    decreases k - i
  {
    if i < k {
      CheckParamsNamesFirst(dtype, params, i + 1, k);
    }
  }

  /**
   * The constructor of a distribution type: parameters must be supplied
   * when the type has any, and then each must be present and pass its type.
   */
  function Construct(dtype: DistType, params: Option<D.Dict<Types.Value>>): (r: Result<Dist>)
    ensures params.None? && |dtype.params| > 0 ==> r == Err("Parameters not supplied to " + dtype.name + " distribution.")
    ensures r.Ok? <==> ((params.None? && |dtype.params| == 0) ||
      (params.Some? && forall j :: 0 <= j < |dtype.params| ==> ParamAccepted(dtype.params[j], params.value)))
    ensures r.Ok? ==> r.value == Dist(dtype, params)
  {
    if params.None? then
      if |dtype.params| > 0 then Err("Parameters not supplied to " + dtype.name + " distribution.") else Ok(Dist(dtype, params))
    else
      CheckParamsOk(dtype, params.value, 0);
      match CheckParams(dtype, params.value, 0)
      case Ok(_) => Ok(Dist(dtype, params))
      case Err(e) => Err(e)
  }

  // ---------------------------------------------------------------------
  // deserialize and the finiteSupport JSON form

  /** JavaScript truthiness of a value. */
  predicate Truthy(v: Types.Value) {
    match v
    case Number(n) => !n.NaN? && n != Finite(0.0)
    case Str(s) => s != ""
    case Bool(b) => b
    case _ => true
  }

  /** `obj[k]` is truthy; an absent key reads as `undefined`. */
  predicate TruthyField(obj: D.Dict<Types.Value>, k: string) {
    D.Has(obj, k) && Truthy(D.Get(obj, k))
  }

  /** The parameters of the categorical distribution a JSON form stands for. */
  datatype Categorical = Categorical(ps: Types.Value, vs: Types.Value)

  /**
   * `deserialize(JSONString)` where obj is what the JSON text parses to: an
   * error unless both `probs` and `support` are truthy.
   */
  function Deserialize(text: string, obj: D.Dict<Types.Value>): (r: Result<Categorical>)
    ensures r.Ok? <==> TruthyField(obj, "probs") && TruthyField(obj, "support")
    ensures r.Err? ==> r.msg == "Cannot deserialize a non-distribution JSON object: " + text
    ensures r.Ok? ==> r.value == Categorical(D.Get(obj, "probs"), D.Get(obj, "support"))
  {
    if !TruthyField(obj, "probs") || !TruthyField(obj, "support") then
      Err("Cannot deserialize a non-distribution JSON object: " + text)
    else Ok(Categorical(D.Get(obj, "probs"), D.Get(obj, "support")))
  }

  /** The numbers of a sequence of reals, as an array value. */
  function Numbers(xs: seq<real>): (v: Types.Value)
    ensures v.Arr? && |v.elems| == |xs|
    ensures forall i :: 0 <= i < |xs| ==> v.elems[i] == Types.Number(Finite(xs[i]))
  {
    Types.Arr(seq(|xs|, (i: int) requires 0 <= i < |xs| => Types.Number(Finite(xs[i]))))
  }

  /** `toJSON()` of a finite-support distribution: `{probs, support}`, probs being the exponentials of the scores. */
  function ToJson(support: seq<Types.Value>, probs: seq<real>): (obj: D.Dict<Types.Value>)
    ensures D.KeysDistinct(obj)
  {
    [D.Entry("probs", Numbers(probs)), D.Entry("support", Types.Arr(support))]
  }

  /** Reading back the JSON form of any finite-support distribution gives the categorical distribution over its support. */
  lemma {:induction false} DeserializeToJson(text: string, support: seq<Types.Value>, probs: seq<real>)
    ensures Deserialize(text, ToJson(support, probs)) == Ok(Categorical(Numbers(probs), Types.Arr(support)))
  {
    var obj := ToJson(support, probs);
    D.GetAt(obj, 0);
    D.GetAt(obj, 1);
  }

  // ---------------------------------------------------------------------
  // RandomInteger

  /** `_.range(n)`, as numbers. */
  function Range(n: nat): (r: seq<Types.Value>)
    ensures |r| == n && forall i :: 0 <= i < n ==> r[i] == Types.Number(Finite(i as real))
  {
    seq(n, (i: int) requires 0 <= i < n => Types.Number(Finite(i as real)))
  }

  /**
   * RandomInteger's `score(val)`: -log n for an integer in [0, n), -Infinity
   * otherwise. The parameter type `positiveInt` makes n at least 1.
   */
  function RandomIntegerScore(n: nat, val: Types.Value, log: real -> real): (s: Num)
    requires n >= 1
    ensures Discrete.InSupport(val, n) ==> s == Finite(-log(n as real))
    ensures !Discrete.InSupport(val, n) ==> s == NegInf
  {
    if Discrete.InSupport(val, n) then Negate(JsLog(Finite(n as real), log)) else NegInf
  }

  /** `inSupport` holds exactly for the members of `_.range(n)`. */
  lemma {:induction false} InSupportIffInRange(n: nat, val: Types.Value)
    ensures Discrete.InSupport(val, n) <==> val in Range(n)
  {
    var ps := seq(n, (i: int) => 0.0);
    Discrete.InSupportIffInRange(ps, val);
    assert Discrete.Support(ps) == Range(n);
  }

  /** The score is finite exactly on the support, and the same for every member of it. */
  lemma {:induction false} RandomIntegerScoreOnSupport(n: nat, val: Types.Value, log: real -> real)
    requires n >= 1
    ensures RandomIntegerScore(n, val, log) != NegInf <==> val in Range(n)
    ensures val in Range(n) ==> RandomIntegerScore(n, val, log) == RandomIntegerScore(n, Range(n)[0], log)
  {
    InSupportIffInRange(n, val);
    InSupportIffInRange(n, Range(n)[0]);
  }

  /** RandomInteger's `sample()` for the draw u: `Math.floor(u * n)`. */
  function RandomIntegerSample(n: nat, u: real): (k: int)
    ensures 0.0 <= u < 1.0 && n >= 1 ==> 0 <= k < n
  {
    if 0.0 <= u < 1.0 && n >= 1 then
      assert 0.0 <= u * n as real < n as real by {
        assert (1.0 - u) * n as real > 0.0;
      }
      (u * n as real).Floor
    else (u * n as real).Floor
  }

  /** A draw in [0, 1) samples a member of the support. */
  lemma {:induction false} SampleInSupport(n: nat, u: real)
    requires 0.0 <= u < 1.0 && n >= 1
    ensures Types.Number(Finite(RandomIntegerSample(n, u) as real)) in Range(n)
  {
    var k := RandomIntegerSample(n, u);
    assert Range(n)[k] == Types.Number(Finite(k as real));
  }

  // ---------------------------------------------------------------------
  // Marginal

  /** An entry of a marginal distribution: a value and its probability. */
  datatype Outcome<V> = Outcome(val: V, prob: real)

  /** The probabilities, in the enumeration order of the keys. */
  function Probs<V>(dist: D.Dict<Outcome<V>>): (ps: seq<real>)
    ensures |ps| == |dist| && forall i :: 0 <= i < |dist| ==> ps[i] == dist[i].val.prob
  {
    seq(|dist|, (i: int) requires 0 <= i < |dist| => dist[i].val.prob)
  }

  /** The values, in the enumeration order of the keys. */
  function Values<V>(dist: D.Dict<Outcome<V>>): (vs: seq<V>)
    ensures |vs| == |dist| && forall i :: 0 <= i < |dist| ==> vs[i] == dist[i].val.val
  {
    seq(|dist|, (i: int) requires 0 <= i < |dist| => dist[i].val.val)
  }

  datatype Marginal<V> = Marginal(dist: D.Dict<Outcome<V>>, supp: seq<V>)

  function Abs(x: real): real {
    if x < 0.0 then -x else x
  }

  /**
   * The Marginal constructor: the probabilities must sum to 1 within 1e-8;
   * the support lists the values.
   */
  function MakeMarginal<V>(dist: D.Dict<Outcome<V>>): (r: Result<Marginal<V>>)
    ensures r.Ok? <==> Abs(1.0 - Sum(Probs(dist))) < 0.00000001
    ensures r.Err? ==> r.msg == "AssertionError: Expected marginal distribution to be normalized."
    ensures r.Ok? ==> r.value.dist == dist && r.value.supp == Values(dist)
  {
    if Abs(1.0 - Sum(Probs(dist))) < 0.00000001 then Ok(Marginal(dist, Values(dist)))
    else Err("AssertionError: Expected marginal distribution to be normalized.")
  }

  /** The position an inverse-CDF draw picks among the outcomes. */
  function PickedOutcome<V>(dist: D.Dict<Outcome<V>>, u: real): (i: nat)
    requires |dist| > 0
    ensures i < |dist| && i == Discrete.Pick(Probs(dist), u)
  {
    Discrete.PickIn(Probs(dist), u)
  }

  /**
   * Marginal's `sample()` for the draw u: the first entry whose running sum
   * of probabilities exceeds u, else the last entry; reading the last entry
   * of an empty distribution is a TypeError.
   */
  method MarginalSample<V>(dist: D.Dict<Outcome<V>>, u: real) returns (r: Result<V>)
    ensures |dist| == 0 ==> r.Err?
    ensures |dist| > 0 ==> r == Ok(dist[PickedOutcome(dist, u)].val.val)
  {
    var ps := Probs(dist);
    Discrete.PickIsSampled(ps, u);
    var probAccum := 0.0;
    var i := 0;
    while i < |dist|
      invariant 0 <= i <= |dist|
      invariant probAccum == SumTo(ps, i)
      invariant Discrete.PickFrom(ps, u, i) == Discrete.Pick(ps, u)
    {
      probAccum := probAccum + dist[i].val.prob;
      assert probAccum == Discrete.RunningSum(ps, i);
      if u < probAccum {
        return Ok(dist[i].val.val);
      }
      i := i + 1;
    }
    if |dist| == 0 {
      return Err("TypeError: Cannot read property 'val' of undefined");
    }
    return Ok(dist[|dist| - 1].val.val);
  }

  /** Every sample is a value of the support. */
  lemma {:induction false} MarginalSampleInSupport<V>(dist: D.Dict<Outcome<V>>, u: real)
    requires |dist| > 0
    ensures dist[PickedOutcome(dist, u)].val.val in Values(dist)
  {
    assert Values(dist)[PickedOutcome(dist, u)] == dist[PickedOutcome(dist, u)].val.val;
  }

  /**
   * A marginal that passes the normalisation assertion is never empty, and
   * every draw samples a value of its support.
   */
  lemma {:induction false} MarginalSamplesSupport<V>(dist: D.Dict<Outcome<V>>)
    requires MakeMarginal(dist).Ok?
    ensures |dist| > 0 && |MakeMarginal(dist).value.supp| == |dist|
    ensures forall u: real :: dist[PickedOutcome(dist, u)].val.val in MakeMarginal(dist).value.supp
  {
    if |dist| == 0 {
      assert false;
    }
    forall u: real ensures dist[PickedOutcome(dist, u)].val.val in MakeMarginal(dist).value.supp {
      MarginalSampleInSupport(dist, u);
    }
  }

  /** The keys are the serialisations of the values they hold. */
  predicate KeyedBy<V>(dist: D.Dict<Outcome<V>>, serialize: V -> string) {
    D.KeysDistinct(dist) && forall i :: 0 <= i < |dist| ==> dist[i].key == serialize(dist[i].val.val)
  }

  /** Marginal's `score(val)`, key being `util.serialize(val)`: the log of the probability stored under key, -Infinity when there is none. */
  function MarginalScore<V>(dist: D.Dict<Outcome<V>>, key: string, log: real -> real): (s: Num)
    ensures !D.Has(dist, key) ==> s == NegInf
  {
    if D.Has(dist, key) then JsLog(Finite(D.Get(dist, key).prob), log) else NegInf
  }

  /** An outcome with positive probability scores the log of its probability. */
  lemma {:induction false} ScoreOfOutcome<V>(dist: D.Dict<Outcome<V>>, serialize: V -> string, i: nat, log: real -> real)
    requires KeyedBy(dist, serialize) && i < |dist| && dist[i].val.prob > 0.0
    ensures MarginalScore(dist, serialize(dist[i].val.val), log) == Finite(log(dist[i].val.prob))
  {
    D.GetAt(dist, i);
  }

  /** A value no entry serialises to scores -Infinity. */
  lemma {:induction false} ScoreOutsideSupport<V>(dist: D.Dict<Outcome<V>>, serialize: V -> string, v: V, log: real -> real)
    requires KeyedBy(dist, serialize) && forall i :: 0 <= i < |dist| ==> serialize(dist[i].val.val) != serialize(v)
    ensures MarginalScore(dist, serialize(v), log) == NegInf
  {
    forall i | 0 <= i < |dist|
      ensures D.Keys(dist)[i] != serialize(v)
    {
    }
  }
}
