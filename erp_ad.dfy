/**
 * The later ERP module, built over tensors: telling a parameters object
 * apart from other values, making an ERP type from its options, and reading
 * an ERP back from its JSON form. Its randomInteger, binomial support,
 * combination search, histograms, discrete sampler and categorical table
 * are those of Dists, Erp, Multinomial and Discrete.
 */
module ErpAd {
  import opened Wrappers
  import Types
  import D = Dict
  import Dists

  // ---------------------------------------------------------------------
  // isParams

  /** The kinds of JavaScript value `isParams` tells apart; tensors and lifted (AD) numbers are objects. */
  datatype JsValue =
    | Undefined | Null | Boolean | Number | String | Function
    | ArrayObject | TensorObject | Lifted | PlainObject

  /** `typeof x`. */
  function TypeOf(x: JsValue): string {
    match x
    case Undefined => "undefined"
    case Boolean => "boolean"
    case Number => "number"
    case String => "string"
    case Function => "function"
    case _ => "object"
  }

  /** `isParams(x)`: an object that is not an array, not a lifted number and not null. */
  predicate IsParams(x: JsValue) {
    TypeOf(x) == "object" && !x.ArrayObject? && !x.Lifted? && !x.Null?
  }

  /** The values taken for parameters are plain objects and tensors, and nothing else. */
  lemma {:induction false} IsParamsIff(x: JsValue)
    ensures IsParams(x) <==> x.PlainObject? || x.TensorObject?
  {
  }

  // ---------------------------------------------------------------------
  // makeErpType

  /** An object's own properties, each mapped to whether its value is truthy. */
  type Props = map<string, bool>

  /** The methods `makeErpType` copies from its options onto the prototype. */
  const MethodNames: set<string> := {"sample", "score", "support", "print", "driftKernel", "base", "transform"}

  /** The prototype every ERP type inherits from by default: `toJSON`, `inspect`, `isContinuous: false` and `constructor`. */
  const ErpPrototype: Props := map["toJSON" := true, "inspect" := true, "isContinuous" := false, "constructor" := true]

  /** The options of `makeErpType`; `parent` and `mixins` may be left out. */
  datatype ErpTypeOptions = ErpTypeOptions(name: Option<string>, parent: Option<Props>, mixins: Option<seq<Props>>, own: Props)

  /** An ERP type: its name, the own properties of its prototype and the prototype it inherits from. */
  datatype ErpType = ErpType(name: string, proto: Props, parent: Props)

  /** `_.pick(options, methodNames)`. */
  function Pick(own: Props): (p: Props)
    ensures forall k :: k in p <==> k in own && k in MethodNames
    ensures forall k :: k in p ==> p[k] == own[k]
  {
    map k | k in own && k in MethodNames :: own[k]
  }

  /** Copying the own properties of the first n layers, one after the other, onto an empty object. */
  function ExtendUpTo(layers: seq<Props>, n: nat): Props
    requires n <= |layers|
  {
    if n == 0 then map[] else ExtendUpTo(layers, n - 1) + layers[n - 1]
  }

  /** The last of the first n layers that has property k; -1 when none has it. */
  function Owner(layers: seq<Props>, k: string, n: nat): (i: int)
    requires n <= |layers|
    ensures -1 <= i < n
    ensures i >= 0 ==> k in layers[i] && forall j :: i < j < n ==> k !in layers[j]
    ensures i == -1 ==> forall j :: 0 <= j < n ==> k !in layers[j]
  {
    if n == 0 then -1 else if k in layers[n - 1] then n - 1 else Owner(layers, k, n - 1)
  }

  /** A property copied in turn from each layer holds the value of the last layer that has it. */
  lemma {:induction false} ExtendOwner(layers: seq<Props>, k: string, n: nat)
    requires n <= |layers|
    ensures k in ExtendUpTo(layers, n) <==> Owner(layers, k, n) >= 0
    ensures Owner(layers, k, n) >= 0 ==> ExtendUpTo(layers, n)[k] == layers[Owner(layers, k, n)][k]
  {
    if n > 0 {
      ExtendOwner(layers, k, n - 1);
    }
  }

  /** The layers copied onto the prototype: the mixins in order, then the picked methods. */
  function Layers(o: ErpTypeOptions): seq<Props> {
    (if o.mixins.Some? then o.mixins.value else []) + [Pick(o.own)]
  }

  /** The parent prototype: the one given, or the ERP base prototype. */
  function Parent(o: ErpTypeOptions): Props {
    if o.parent.Some? then o.parent.value else ErpPrototype
  }

  /**
   * Whether `erp.prototype[k]` is truthy, read off the options: the value of
   * the last layer that has k, otherwise the parent's.
   */
  predicate Provides(o: ErpTypeOptions, k: string) {
    var layers := Layers(o);
    var i := Owner(layers, k, |layers|);
    if i >= 0 then layers[i][k] else k in Parent(o) && Parent(o)[k]
  }

  /** `erp.prototype[k]` on the type's prototype chain. */
  predicate Truthy(t: ErpType, k: string) {
    if k in t.proto then t.proto[k] else k in t.parent && t.parent[k]
  }

  /**
   * `makeErpType(options)`: the name is required; the prototype takes the
   * mixins' and then the option methods' own properties over the parent's,
   * and must end up with a truthy `sample` and then `score`.
   */
  function MakeErpType(o: ErpTypeOptions): (r: Result<ErpType>)
    ensures o.name.None? ==> r == Err("makeErpType: name is required.")
    ensures o.name.Some? && !Provides(o, "sample") ==>
      r == Err("makeErpType: method \"sample\" not defined for " + o.name.value)
    ensures o.name.Some? && Provides(o, "sample") && !Provides(o, "score") ==>
      r == Err("makeErpType: method \"score\" not defined for " + o.name.value)
    ensures r.Ok? <==> o.name.Some? && Provides(o, "sample") && Provides(o, "score")
    ensures r.Ok? ==> (r.value.name == o.name.value && r.value.parent == Parent(o) &&
      forall k :: Truthy(r.value, k) <==> Provides(o, k))
  {
    if o.name.None? then Err("makeErpType: name is required.")
    else
      var layers := Layers(o);
      var t := ErpType(o.name.value, ExtendUpTo(layers, |layers|), Parent(o));
      assert forall k :: Truthy(t, k) <==> Provides(o, k) by {
        forall k ensures Truthy(t, k) <==> Provides(o, k) {
          ExtendOwner(layers, k, |layers|);
        }
      }
      if !Truthy(t, "sample") then Err("makeErpType: method \"sample\" not defined for " + o.name.value)
      else if !Truthy(t, "score") then Err("makeErpType: method \"score\" not defined for " + o.name.value)
      else Ok(t)
  }

  /** A method given in the options wins over every mixin and the parent, even when its value is falsy. */
  lemma {:induction false} OptionsWin(o: ErpTypeOptions, k: string)
    requires k in o.own && k in MethodNames
    ensures Provides(o, k) == o.own[k]
  {
    var layers := Layers(o);
    assert layers[|layers| - 1] == Pick(o.own);
  }

  /** A property that no mixin has, and that the options lack or is not a method name, comes from the parent. */
  lemma {:induction false} OnlyMethodsPicked(o: ErpTypeOptions, k: string)
    requires (k !in MethodNames || k !in o.own) && (o.mixins.None? || forall i :: 0 <= i < |o.mixins.value| ==> k !in o.mixins.value[i])
    ensures Provides(o, k) <==> k in Parent(o) && Parent(o)[k]
  {
    var layers := Layers(o);
    assert forall j :: 0 <= j < |layers| ==> k !in layers[j] by {
      forall j | 0 <= j < |layers| ensures k !in layers[j] {
        if j == |layers| - 1 {
          assert layers[j] == Pick(o.own);
        } else {
          assert layers[j] == o.mixins.value[j];
        }
      }
    }
  }

  /** With no mixins and no `sample` among the options, the ERP base prototype supplies none and the type is refused. */
  lemma {:induction false} BaseProvidesNoSampler(o: ErpTypeOptions)
    requires o.name.Some? && o.parent.None? && o.mixins.None? && "sample" !in o.own
    ensures MakeErpType(o) == Err("makeErpType: method \"sample\" not defined for " + o.name.value)
  {
    OnlyMethodsPicked(o, "sample");
  }

  // ---------------------------------------------------------------------
  // deserialize

  /**
   * `deserialize(JSONString)` where obj is what the JSON text parses to: the
   * check of the distribution module, with the message naming an ERP.
   */
  function Deserialize(text: string, obj: D.Dict<Types.Value>): (r: Result<Dists.Categorical>)
    ensures r.Ok? <==> Dists.Deserialize(text, obj).Ok?
    ensures r.Ok? ==> r == Dists.Deserialize(text, obj)
    ensures r.Err? ==> r.msg == "Cannot deserialize a non-ERP JSON object: " + text
  {
    if Dists.TruthyField(obj, "probs") && Dists.TruthyField(obj, "support") then
      Ok(Dists.Categorical(D.Get(obj, "probs"), D.Get(obj, "support")))
    else Err("Cannot deserialize a non-ERP JSON object: " + text)
  }
}
