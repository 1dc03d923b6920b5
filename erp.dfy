/**
 * Elementary random primitives (ERPs) of the older runtime: an ERP is an
 * object with `sample(params)` and `score(params, val)` and, optionally,
 * `support(params)`. This module models the constructor's check, fixing the
 * parameters of an ERP, serialisability, the categorical and multiplexing
 * ERPs, and the naming of the exported ERPs. The uniform draws of
 * `util.random()` are parameters; `JSON.stringify` is a parameter, only ever
 * compared for equality.
 */
module Erp {
  import opened Wrappers
  import opened JsNum
  import opened Numeric
  import Types
  import D = Dict
  import Discrete
  import Dists

  type Params = seq<Types.Value>

  /**
   * An ERP object: its own `sample`, `score` and `support` (absent when
   * undefined), its own `parameterized` flag (absent when it inherits the
   * prototype's `true`) and its name.
   */
  datatype Erp = Erp(
    sample: Option<Params -> Types.Value>,
    score: Option<(Params, Types.Value) -> Num>,
    support: Option<Params -> seq<Types.Value>>,
    parameterized: Option<bool>,
    name: Option<string>)

  /** An object that can be an ERP: it implements both `sample` and `score`. */
  predicate Implements(e: Erp) {
    e.sample.Some? && e.score.Some?
  }

  /** `new ERP(obj)`: asserts that `sample` and `score` exist, then copies obj's own properties. */
  function NewErp(obj: Erp): (r: Result<Erp>)
    ensures r.Ok? <==> Implements(obj)
    ensures r.Ok? ==> r.value == obj
    ensures r.Err? ==> r.msg == "AssertionError: ERP must implement sample and score."
  {
    if obj.sample.Some? && obj.score.Some? then Ok(obj)
    else Err("AssertionError: ERP must implement sample and score.")
  }

  /** `this.parameterized`: the own flag, or the prototype's `true`. */
  predicate Parameterized(e: Erp) {
    if e.parameterized.Some? then e.parameterized.value else true
  }

  /** `isSerializeable()`: the ERP has a support and is not parameterized. */
  predicate IsSerializeable(e: Erp) {
    e.support.Some? && !Parameterized(e)
  }

  /**
   * `withParameters(params)`: a copy of the ERP whose sampler, scorer and
   * (when there is one) support ignore the parameters they are called with
   * and use params instead; the copy is not parameterized.
   */
  function WithParameters(e: Erp, params: Params): (r: Erp)
    requires Implements(e)
    ensures Implements(r) && NewErp(e).Ok?
    ensures forall ps :: r.sample.value(ps) == e.sample.value(params)
    ensures forall ps, v :: r.score.value(ps, v) == e.score.value(params, v)
    ensures r.support.Some? <==> e.support.Some?
    ensures r.support.Some? ==> forall ps :: r.support.value(ps) == e.support.value(params)
    ensures !Parameterized(r) && r.name == e.name
  {
    var sampler := e.sample.value;
    var scorer := e.score.value;
    var support := if e.support.Some? then Some((ps: Params) => e.support.value(params)) else None;
    Erp(Some((ps: Params) => sampler(params)), Some((ps: Params, val: Types.Value) => scorer(params, val)),
        support, Some(false), e.name)
  }

  /** Fixing the parameters makes an ERP serialisable exactly when it has a support. */
  lemma {:induction false} WithParametersSerializeable(e: Erp, params: Params)
    requires Implements(e)
    ensures IsSerializeable(WithParameters(e, params)) <==> e.support.Some?
  {
  }

  /** An ERP built without its own `parameterized` flag is parameterized, so never serialisable. */
  lemma {:induction false} NewErpNotSerializeable(obj: Erp)
    requires Implements(obj) && obj.parameterized.None?
    ensures !IsSerializeable(NewErp(obj).value)
  {
  }

  // ---------------------------------------------------------------------
  // binomial support

  /** `_.range(n).concat([n])`: 0, 1, ..., n. */
  function BinomialSupport(n: nat): (r: seq<Types.Value>)
    ensures |r| == n + 1 && forall i :: 0 <= i <= n ==> r[i] == Types.Number(Finite(i as real))
  {
    Dists.Range(n) + [Types.Number(Finite(n as real))]
  }

  // ---------------------------------------------------------------------
  // the categorical table

  /**
   * The table of the first n values, keyed by their serialisation: each
   * value is written under its key in turn, so a later equal value replaces
   * an earlier one.
   */
  function TableUpTo(vs: seq<Types.Value>, ps: seq<real>, key: Types.Value -> string, n: nat): (t: D.Dict<Dists.Outcome<Types.Value>>)
    requires n <= |vs| == |ps|
    ensures D.KeysDistinct(t)
    ensures forall k :: D.Has(t, k) <==> !KeyAbsent(vs, key, k, 0, n)
    ensures forall j :: 0 <= j < n && KeyAbsent(vs, key, key(vs[j]), j + 1, n) ==>
      D.Has(t, key(vs[j])) && D.Get(t, key(vs[j])) == Dists.Outcome(vs[j], ps[j])
  {
    if n == 0 then []
    else
      var t0 := TableUpTo(vs, ps, key, n - 1);
      TableStep(vs, ps, key, n, t0);
      D.Put(t0, key(vs[n - 1]), Dists.Outcome(vs[n - 1], ps[n - 1]))
  }

  /** Writing the n-th value keeps the description of the table true for one more value. */
  lemma {:induction false} TableStep(vs: seq<Types.Value>, ps: seq<real>, key: Types.Value -> string, n: nat, t0: D.Dict<Dists.Outcome<Types.Value>>)
    requires 0 < n <= |vs| == |ps| && D.KeysDistinct(t0)
    requires forall k :: D.Has(t0, k) <==> !KeyAbsent(vs, key, k, 0, n - 1)
    requires forall j :: 0 <= j < n - 1 && KeyAbsent(vs, key, key(vs[j]), j + 1, n - 1) ==>
      D.Has(t0, key(vs[j])) && D.Get(t0, key(vs[j])) == Dists.Outcome(vs[j], ps[j])
    ensures var t := D.Put(t0, key(vs[n - 1]), Dists.Outcome(vs[n - 1], ps[n - 1]));
      (forall k :: D.Has(t, k) <==> !KeyAbsent(vs, key, k, 0, n)) &&
      (forall j :: 0 <= j < n && KeyAbsent(vs, key, key(vs[j]), j + 1, n) ==>
        D.Has(t, key(vs[j])) && D.Get(t, key(vs[j])) == Dists.Outcome(vs[j], ps[j]))
  {
    var t := D.Put(t0, key(vs[n - 1]), Dists.Outcome(vs[n - 1], ps[n - 1]));
    forall k ensures D.Has(t, k) <==> !KeyAbsent(vs, key, k, 0, n) {
      KeyAbsentSplit(vs, key, k, n);
    }
    forall j | 0 <= j < n && KeyAbsent(vs, key, key(vs[j]), j + 1, n)
      ensures D.Has(t, key(vs[j])) && D.Get(t, key(vs[j])) == Dists.Outcome(vs[j], ps[j])
    {
      if j < n - 1 {
        assert key(vs[n - 1]) != key(vs[j]);
        assert KeyAbsent(vs, key, key(vs[j]), j + 1, n - 1);
      }
    }
  }

  lemma {:induction false} KeyAbsentSplit(vs: seq<Types.Value>, key: Types.Value -> string, k: string, n: nat)
    requires 0 < n <= |vs|
    ensures KeyAbsent(vs, key, k, 0, n) <==> KeyAbsent(vs, key, k, 0, n - 1) && key(vs[n - 1]) != k
  {
  }

  /** The whole table. */
  function Table(vs: seq<Types.Value>, ps: seq<real>, key: Types.Value -> string): D.Dict<Dists.Outcome<Types.Value>>
    requires |vs| == |ps|
  {
    TableUpTo(vs, ps, key, |vs|)
  }

  /** No index in [from, to) has a value with key k. */
  predicate KeyAbsent(vs: seq<Types.Value>, key: Types.Value -> string, k: string, from: nat, to: nat)
    requires to <= |vs|
  {
    forall l :: from <= l < to ==> key(vs[l]) != k
  }

  /** With distinct keys, every value's entry is its own. */
  lemma {:induction false} DistinctKeysTable(vs: seq<Types.Value>, ps: seq<real>, key: Types.Value -> string, i: nat)
    requires |vs| == |ps| && i < |vs|
    requires forall a, b :: 0 <= a < b < |vs| ==> key(vs[a]) != key(vs[b])
    ensures D.Has(Table(vs, ps, key), key(vs[i])) && D.Get(Table(vs, ps, key), key(vs[i])) == Dists.Outcome(vs[i], ps[i])
  {
  }

  /** A value listed twice keeps only the probability of its last listing. */
  lemma {:induction false} DuplicateKeepsLast(a: Types.Value, p: real, q: real, key: Types.Value -> string)
    ensures D.Get(Table([a, a], [p, q], key), key(a)) == Dists.Outcome(a, q)
  {
  }

  /** The categorical score of val, key being its serialisation: the log of the probability in the table, -Infinity when absent. */
  function CategoricalScore(vs: seq<Types.Value>, ps: seq<real>, key: Types.Value -> string, val: Types.Value, log: real -> real): (s: Num)
    requires |vs| == |ps|
    ensures (forall i :: 0 <= i < |vs| ==> key(vs[i]) != key(val)) ==> s == NegInf
  {
    Dists.MarginalScore(Table(vs, ps, key), key(val), log)
  }

  /** With distinct keys, a listed value of positive probability scores the log of its probability. */
  lemma {:induction false} CategoricalScoreOfListed(vs: seq<Types.Value>, ps: seq<real>, key: Types.Value -> string, i: nat, log: real -> real)
    requires |vs| == |ps| && i < |vs| && ps[i] > 0.0
    requires forall a, b :: 0 <= a < b < |vs| ==> key(vs[a]) != key(vs[b])
    ensures CategoricalScore(vs, ps, key, vs[i], log) == Finite(log(ps[i]))
  {
    DistinctKeysTable(vs, ps, key, i);
  }

  /**
   * The categorical sampler for the draw u: the only value when there is
   * one; otherwise the value at the index `multinomialSample(ps)` picks,
   * which for no values at all is index -1, reading `undefined`.
   */
  function CategoricalSample(vs: seq<Types.Value>, ps: seq<real>, u: real): (r: Option<Types.Value>)
    requires |vs| == |ps|
    ensures |vs| == 1 ==> r == Some(vs[0])
    ensures |vs| == 0 <==> r.None?
    ensures r.Some? ==> r.value in vs
    ensures |vs| > 1 ==> r == Some(vs[Discrete.PickIn(ps, u * Sum(ps))])
  {
    if |vs| == 1 then Some(vs[0])
    else if |vs| == 0 then None
    else Some(vs[Discrete.PickIn(ps, u * Sum(ps))])
  }

  // ---------------------------------------------------------------------
  // makeMultiplexERP

  /** `_.indexOf(xs, x)`: the first position of x, -1 when it does not occur. */
  function IndexOf(xs: seq<string>, x: string): (i: int)
    ensures -1 <= i < |xs|
    ensures i == -1 <==> x !in xs
    ensures i >= 0 ==> xs[i] == x && forall j :: 0 <= j < i ==> xs[j] != x
  {
    if xs == [] then -1
    else if xs[0] == x then 0
    else
      var j := IndexOf(xs[1..], x);
      assert forall l :: 0 <= l < |xs| - 1 ==> xs[1..][l] == xs[l + 1];
      if j == -1 then -1 else j + 1
  }

  /** The serialisations of the values. */
  function Stringified(vs: seq<Types.Value>, stringify: Types.Value -> string): (ss: seq<string>)
    ensures |ss| == |vs| && forall i :: 0 <= i < |vs| ==> ss[i] == stringify(vs[i])
  {
    seq(|vs|, (i: int) requires 0 <= i < |vs| => stringify(vs[i]))
  }

  /** Every ERP implements `sample` and `score`. */
  predicate AllImplement(erps: seq<Erp>) {
    forall i :: 0 <= i < |erps| ==> Implements(erps[i])
  }

  /**
   * The position `selectERP(params)` uses, p0 being `params[0]` (absent when
   * params is empty, whose serialisation `undefined` matches no string): the
   * first position whose value serialises like p0; -1 when there is none.
   */
  function Selected(vs: seq<Types.Value>, p0: Option<Types.Value>, stringify: Types.Value -> string): (i: int)
    ensures -1 <= i < |vs|
    ensures i == -1 <==> p0.None? || forall j :: 0 <= j < |vs| ==> stringify(vs[j]) != stringify(p0.value)
    ensures i >= 0 ==> stringify(vs[i]) == stringify(p0.value) && forall j :: 0 <= j < i ==> stringify(vs[j]) != stringify(p0.value)
  {
    if p0.None? then -1
    else
      var ss := Stringified(vs, stringify);
      var i := IndexOf(ss, stringify(p0.value));
      assert i == -1 <==> forall j :: 0 <= j < |vs| ==> ss[j] != stringify(p0.value);
      i
  }

  /** `selectERP(params)`: the ERP at the selected position; `undefined` when there is none or erps is shorter. */
  function SelectErp(vs: seq<Types.Value>, erps: seq<Erp>, p0: Option<Types.Value>, stringify: Types.Value -> string): (r: Option<Erp>)
    ensures r.Some? <==> 0 <= Selected(vs, p0, stringify) < |erps|
    ensures r.Some? ==> r.value == erps[Selected(vs, p0, stringify)]
  {
    var i := Selected(vs, p0, stringify);
    if i == -1 || i >= |erps| then None else Some(erps[i])
  }

  /** The selected ERP belongs to the first value that serialises like the parameter, and no earlier one does. */
  lemma {:induction false} SelectsFirstMatch(vs: seq<Types.Value>, erps: seq<Erp>, p0: Types.Value, stringify: Types.Value -> string, i: nat)
    requires i < |vs| && i < |erps| && stringify(vs[i]) == stringify(p0)
    requires forall j :: 0 <= j < i ==> stringify(vs[j]) != stringify(p0)
    ensures SelectErp(vs, erps, Some(p0), stringify) == Some(erps[i])
  {
    var s := Selected(vs, Some(p0), stringify);
    assert s != -1;
    assert !(s < i) && !(s > i);
  }

  /** `score(params, val)`: -Infinity when no ERP is selected, else the selected ERP's score with no parameters. */
  function MultiplexScore(vs: seq<Types.Value>, erps: seq<Erp>, p0: Option<Types.Value>, val: Types.Value, stringify: Types.Value -> string): (s: Num)
    requires AllImplement(erps)
    ensures SelectErp(vs, erps, p0, stringify).None? ==> s == NegInf
    ensures 0 <= Selected(vs, p0, stringify) < |erps| ==> s == erps[Selected(vs, p0, stringify)].score.value([], val)
  {
    var i := Selected(vs, p0, stringify);
    if i == -1 || i >= |erps| then NegInf else erps[i].score.value([], val)
  }

  /** A parameter no value serialises like scores -Infinity everywhere. */
  lemma {:induction false} UnmatchedParameterScoresNegInf(vs: seq<Types.Value>, erps: seq<Erp>, p0: Types.Value, val: Types.Value, stringify: Types.Value -> string)
    requires AllImplement(erps)
    requires forall i :: 0 <= i < |vs| ==> stringify(vs[i]) != stringify(p0)
    ensures MultiplexScore(vs, erps, Some(p0), val, stringify) == NegInf
  {
  }

  /** `sample(params)`: the assertion fails when no ERP is selected. */
  function MultiplexSample(vs: seq<Types.Value>, erps: seq<Erp>, p0: Option<Types.Value>, stringify: Types.Value -> string): (r: Result<Types.Value>)
    requires AllImplement(erps)
    ensures r.Err? <==> SelectErp(vs, erps, p0, stringify).None?
    ensures r.Ok? ==> r.value == erps[Selected(vs, p0, stringify)].sample.value([])
  {
    var i := Selected(vs, p0, stringify);
    if i == -1 || i >= |erps| then Err("AssertionError") else Ok(erps[i].sample.value([]))
  }

  /** `support(params)`: reading `support` of no ERP, or calling a missing one, is a TypeError. */
  function MultiplexSupport(vs: seq<Types.Value>, erps: seq<Erp>, p0: Option<Types.Value>, stringify: Types.Value -> string): (r: Result<seq<Types.Value>>)
    ensures r.Ok? <==> SelectErp(vs, erps, p0, stringify).Some? && SelectErp(vs, erps, p0, stringify).value.support.Some?
    ensures r.Ok? ==> r.value == SelectErp(vs, erps, p0, stringify).value.support.value([])
  {
    match SelectErp(vs, erps, p0, stringify)
    case None => Err("TypeError")
    case Some(e) => if e.support.Some? then Ok(e.support.value([])) else Err("TypeError")
  }

  /**
   * The multiplexed ERP's three functions agree on which ERP they use: when
   * `sample` fails no ERP is selected, so every value scores -Infinity and
   * `support` fails too; otherwise all three delegate to the selected ERP.
   */
  lemma {:induction false} MultiplexAgrees(vs: seq<Types.Value>, erps: seq<Erp>, p0: Option<Types.Value>, val: Types.Value, stringify: Types.Value -> string)
    requires AllImplement(erps)
    ensures MultiplexSample(vs, erps, p0, stringify).Err? ==>
      MultiplexScore(vs, erps, p0, val, stringify) == NegInf && MultiplexSupport(vs, erps, p0, stringify).Err?
    ensures MultiplexSample(vs, erps, p0, stringify).Ok? ==>
      var e := SelectErp(vs, erps, p0, stringify).value;
      && MultiplexSample(vs, erps, p0, stringify) == Ok(e.sample.value([]))
      && MultiplexScore(vs, erps, p0, val, stringify) == e.score.value([], val)
      && (MultiplexSupport(vs, erps, p0, stringify).Ok? <==> e.support.Some?)
  {
  }

  // ---------------------------------------------------------------------
  // setErpNames

  datatype Export = ErpExport(erp: Erp) | OtherExport

  /** `isErp(x)`: an object with `score` and `sample` functions. */
  predicate IsErp(x: Export) {
    x.ErpExport? && Implements(x.erp)
  }

  /** The key ends in `ERP`. */
  predicate EndsInErp(key: string) {
    |key| >= 3 && key[|key| - 3..] == "ERP"
  }

  /** `key.replace(/ERP$/, '')`. */
  function StripErp(key: string): (r: string)
    ensures EndsInErp(key) ==> key == r + "ERP"
    ensures !EndsInErp(key) ==> r == key
  {
    if EndsInErp(key) then key[..|key| - 3] else key
  }

  /** A key ending in ERP loses exactly that suffix. */
  lemma {:induction false} StripErpOfSuffixed(k: string)
    ensures StripErp(k + "ERP") == k
  {
    var key := k + "ERP";
    assert key[|key| - 3..] == "ERP";
    assert key[..|key| - 3] == k;
  }

  /**
   * `setErpNames(exports)`: every ERP among the exports is named after its
   * key without the trailing `ERP`; nothing else changes.
   */
  function SetErpNames(exports: D.Dict<Export>): (r: D.Dict<Export>)
    ensures |r| == |exports|
    ensures forall i :: 0 <= i < |exports| ==> r[i].key == exports[i].key
    ensures forall i :: 0 <= i < |exports| && IsErp(exports[i].val) ==>
      r[i].val == ErpExport(exports[i].val.erp.(name := Some(StripErp(exports[i].key))))
    ensures forall i :: 0 <= i < |exports| && !IsErp(exports[i].val) ==> r[i] == exports[i]
  {
    seq(|exports|, (i: int) requires 0 <= i < |exports| =>
      var e := exports[i];
      if IsErp(e.val) then D.Entry(e.key, ErpExport(e.val.erp.(name := Some(StripErp(e.key))))) else e)
  }

  /** Naming keeps the keys, and an ERP exported as `<name>ERP` is named `<name>`. */
  lemma {:induction false} NamedAfterKey(exports: D.Dict<Export>, i: nat, base: string)
    requires i < |exports| && IsErp(exports[i].val) && exports[i].key == base + "ERP"
    ensures D.Keys(SetErpNames(exports)) == D.Keys(exports)
    ensures SetErpNames(exports)[i].val.erp.name == Some(base)
  {
    StripErpOfSuffixed(base);
  }
}
