/**
 * The dictionary that holds guide parameters or their gradients: parameter
 * names mapped to tensors, updated in place by addition, scaling and
 * clipping. A tensor is modelled as its flat sequence of entries.
 */
module ParamStruct {
  import opened Dict

  type Tensor = seq<real>

  /** Element-wise `x + y`. */
  function TensorAdd(x: Tensor, y: Tensor): (z: Tensor)
    requires |x| == |y|
    ensures |z| == |x| && forall i :: 0 <= i < |x| ==> z[i] == x[i] + y[i]
  {
    seq(|x|, i requires 0 <= i < |x| => x[i] + y[i])
  }

  /** Element-wise `x * s`. */
  function TensorScale(x: Tensor, s: real): (z: Tensor)
    ensures |z| == |x| && forall i :: 0 <= i < |x| ==> z[i] == x[i] * s
  {
    seq(|x|, i requires 0 <= i < |x| => x[i] * s)
  }

  /** Element-wise `x / s`. */
  function TensorDiv(x: Tensor, s: real): (z: Tensor)
    requires s != 0.0
    ensures |z| == |x| && forall i :: 0 <= i < |x| ==> z[i] == x[i] / s
  {
    seq(|x|, i requires 0 <= i < |x| => x[i] / s)
  }

  /** `t.mul(t).sumreduce()`. */
  function SumSq(t: Tensor): real {
    SumSqTo(t, |t|)
  }

  /** The sum of the squares of the first `n` entries. */
  function SumSqTo(t: Tensor, n: nat): real
    requires n <= |t|
  {
    if n == 0 then 0.0 else SumSqTo(t, n - 1) + t[n - 1] * t[n - 1]
  }

  /** The squared L2 norm, summed over the tensors in key order. */
  function NormSq(g: Dict<Tensor>): real {
    NormSqTo(g, |g|)
  }

  /** The squared norm of the first `n` tensors. */
  function NormSqTo(g: Dict<Tensor>, n: nat): real
    requires n <= |g|
  {
    if n == 0 then 0.0 else NormSqTo(g, n - 1) + SumSq(g[n - 1].val)
  }

  /** Every key of `h` that `g` also has holds a tensor of the same size in both. */
  predicate Compatible(g: Dict<Tensor>, h: Dict<Tensor>) {
    forall i :: 0 <= i < |h| && Has(g, h[i].key) ==> |Get(g, h[i].key)| == |h[i].val|
  }

  /** What `addEq(g, h)` leaves under key `a`. */
  function Merged(g: Dict<Tensor>, h: Dict<Tensor>, a: string): Tensor
    requires Has(g, a) || Has(h, a)
    requires Has(g, a) && Has(h, a) ==> |Get(g, a)| == |Get(h, a)|
  {
    if Has(g, a) && Has(h, a) then TensorAdd(Get(g, a), Get(h, a))
    else if Has(g, a) then Get(g, a)
    else Get(h, a)
  }

  /** One step of `addEq`: entry `e` of `h` added into `g`. */
  function AddOne(g: Dict<Tensor>, e: Entry<Tensor>): Dict<Tensor>
    requires KeysDistinct(g)
    requires Has(g, e.key) ==> |Get(g, e.key)| == |e.val|
  {
    if !Has(g, e.key) then Put(g, e.key, e.val)
    else Put(g, e.key, TensorAdd(Get(g, e.key), e.val))
  }

  lemma {:induction false} CompatibleAt(g: Dict<Tensor>, h: Dict<Tensor>, a: string)
    requires KeysDistinct(h) && Compatible(g, h) && Has(g, a) && Has(h, a)
    ensures |Get(g, a)| == |Get(h, a)|
  {
    var i := Find(h, a);
    assert h[i].key == a;
  }

  /** `r` is what adding `h` into `g` gives. */
  ghost predicate MergeOf(r: Dict<Tensor>, g: Dict<Tensor>, h: Dict<Tensor>) {
    && KeysDistinct(r)
    && MergeKeys(r, g, h)
    && SharedSizesAgree(g, h)
    && MergeVals(r, g, h)
    && |r| >= |g| && Keys(r)[..|g|] == Keys(g)
  }

  ghost predicate MergeKeys(r: Dict<Tensor>, g: Dict<Tensor>, h: Dict<Tensor>) {
    forall a :: Has(r, a) <==> Has(g, a) || Has(h, a)
  }

  ghost predicate SharedSizesAgree(g: Dict<Tensor>, h: Dict<Tensor>) {
    forall a :: Has(g, a) && Has(h, a) ==> |Get(g, a)| == |Get(h, a)|
  }

  ghost predicate MergeVals(r: Dict<Tensor>, g: Dict<Tensor>, h: Dict<Tensor>)
    requires SharedSizesAgree(g, h) && MergeKeys(r, g, h)
  {
    forall a :: Has(r, a) ==> Get(r, a) == Merged(g, h, a)
  }

  /**
   * `addEq(g, h)`: the keys of `g` followed by the new keys of `h`; a shared
   * key holds the sum, any other key the tensor of the side that has it.
   */
  function AddAll(g: Dict<Tensor>, h: Dict<Tensor>): (r: Dict<Tensor>)
    requires KeysDistinct(g) && KeysDistinct(h) && Compatible(g, h)
    ensures MergeOf(r, g, h)
    decreases |h|
  {
    if h == [] then g
    else
      var h0 := h[..|h| - 1];
      assert KeysDistinct(h0) && Compatible(g, h0);
      var r0 := AddAll(g, h0);
      AddOneStep(g, h, r0);
      AddOne(r0, h[|h| - 1])
  }

  lemma {:induction false} SizesAgree(g: Dict<Tensor>, h: Dict<Tensor>)
    requires KeysDistinct(h) && Compatible(g, h)
    ensures SharedSizesAgree(g, h)
  {
    forall a | Has(g, a) && Has(h, a)
      ensures |Get(g, a)| == |Get(h, a)|
    {
      CompatibleAt(g, h, a);
    }
  }

  lemma {:induction false} AddOneStep(g: Dict<Tensor>, h: Dict<Tensor>, r0: Dict<Tensor>)
    requires KeysDistinct(g) && KeysDistinct(h) && Compatible(g, h) && |h| > 0
    requires MergeOf(r0, g, h[..|h| - 1])
    ensures Has(r0, h[|h| - 1].key) ==> |Get(r0, h[|h| - 1].key)| == |h[|h| - 1].val|
    ensures MergeOf(AddOne(r0, h[|h| - 1]), g, h)
  {
    var h0 := h[..|h| - 1];
    var e := h[|h| - 1];
    SizesAgree(g, h);
    LastKey(h);
    var r := AddOne(r0, e);
    StepKeys(g, h, r0);
    StepVals(g, h, r0);
  }

  lemma {:induction false} StepKeys(g: Dict<Tensor>, h: Dict<Tensor>, r0: Dict<Tensor>)
    requires KeysDistinct(g) && KeysDistinct(h) && Compatible(g, h) && |h| > 0
    requires MergeOf(r0, g, h[..|h| - 1])
    ensures Has(r0, h[|h| - 1].key) ==> |Get(r0, h[|h| - 1].key)| == |h[|h| - 1].val|
    ensures MergeKeys(AddOne(r0, h[|h| - 1]), g, h)
  {
    var e := h[|h| - 1];
    LastKey(h);
    if Has(r0, e.key) {
      assert Has(g, e.key);
      CompatibleAt(g, h, e.key);
    }
  }

  lemma {:induction false} StepVals(g: Dict<Tensor>, h: Dict<Tensor>, r0: Dict<Tensor>)
    requires KeysDistinct(g) && KeysDistinct(h) && Compatible(g, h) && |h| > 0
    requires MergeOf(r0, g, h[..|h| - 1])
    requires SharedSizesAgree(g, h)
    requires Has(r0, h[|h| - 1].key) ==> |Get(r0, h[|h| - 1].key)| == |h[|h| - 1].val|
    requires MergeKeys(AddOne(r0, h[|h| - 1]), g, h)
    ensures MergeVals(AddOne(r0, h[|h| - 1]), g, h)
  {
    var h0 := h[..|h| - 1];
    var e := h[|h| - 1];
    LastKey(h);
    var r := AddOne(r0, e);
    forall a | Has(r, a)
      ensures Get(r, a) == Merged(g, h, a)
    {
      if a != e.key {
        if Has(h, a) {
          DropLast(h, a);
        }
      }
    }
  }

  /** Every tensor multiplied by `s`. */
  function ScaleAll(g: Dict<Tensor>, s: real): (r: Dict<Tensor>)
    ensures |r| == |g|
  {
    seq(|g|, i requires 0 <= i < |g| => Entry(g[i].key, TensorScale(g[i].val, s)))
  }

  /** Every tensor divided by `s`. */
  function DivideAll(g: Dict<Tensor>, s: real): (r: Dict<Tensor>)
    requires s != 0.0
    ensures |r| == |g|
    ensures forall i :: 0 <= i < |g| ==> r[i] == Entry(g[i].key, TensorDiv(g[i].val, s))
  {
    seq(|g|, i requires 0 <= i < |g| => Entry(g[i].key, TensorDiv(g[i].val, s)))
  }

  /** Scaling and dividing keep the keys. */
  lemma {:induction false} ScalingKeepsKeys(g: Dict<Tensor>, s: real)
    ensures Keys(ScaleAll(g, s)) == Keys(g)
    ensures s != 0.0 ==> Keys(DivideAll(g, s)) == Keys(g)
  {
  }

  /** Dividing by `s` is scaling by `1/s`. */
  lemma {:induction false} DivideIsScale(g: Dict<Tensor>, s: real)
    requires s != 0.0
    ensures DivideAll(g, s) == ScaleAll(g, 1.0 / s)
  {
    forall i | 0 <= i < |g|
      ensures DivideAll(g, s)[i] == ScaleAll(g, 1.0 / s)[i]
    {
      var t := g[i].val;
      var a, b := TensorDiv(t, s), TensorScale(t, 1.0 / s);
      forall j | 0 <= j < |t|
        ensures a[j] == b[j]
      {
        assert t[j] / s == t[j] * (1.0 / s);
      }
      assert a == b;
    }
  }

  /** Entries whose squares are c times those of `t` have c times its sum of squares. */
  lemma {:induction false} SumSqTimes(t: Tensor, u: Tensor, c: real, n: nat)
    requires n <= |t| && n <= |u|
    requires forall i :: 0 <= i < n ==> u[i] * u[i] == c * (t[i] * t[i])
    ensures SumSqTo(u, n) == c * SumSqTo(t, n)
  {
    if n > 0 {
      SumSqTimes(t, u, c, n - 1);
      AddScaled(c, SumSqTo(u, n - 1), SumSqTo(t, n - 1), t[n - 1] * t[n - 1], u[n - 1] * u[n - 1],
        SumSqTo(u, n), SumSqTo(t, n));
    } else {
      TimesZero(c);
    }
  }

  lemma {:induction false} SumSqScale(t: Tensor, s: real, n: nat)
    requires n <= |t|
    ensures SumSqTo(TensorScale(t, s), n) == s * s * SumSqTo(t, n)
  {
    var u := TensorScale(t, s);
    forall i | 0 <= i < n
      ensures u[i] * u[i] == (s * s) * (t[i] * t[i])
    {
      SquareOfScaled(t[i], s);
    }
    SumSqTimes(t, u, s * s, n);
  }

  lemma {:induction false} SquareOfScaled(x: real, s: real)
    ensures (x * s) * (x * s) == s * s * (x * x)
  {
  }

  /** Tensors whose sums of squares are c times those of `g` have c times its squared norm. */
  lemma {:induction false} NormSqTimes(g: Dict<Tensor>, h: Dict<Tensor>, c: real, n: nat)
    requires n <= |g| && n <= |h|
    requires forall i :: 0 <= i < n ==> SumSq(h[i].val) == c * SumSq(g[i].val)
    ensures NormSqTo(h, n) == c * NormSqTo(g, n)
  {
    if n > 0 {
      NormSqTimes(g, h, c, n - 1);
      AddScaled(c, NormSqTo(h, n - 1), NormSqTo(g, n - 1), SumSq(g[n - 1].val), SumSq(h[n - 1].val),
        NormSqTo(h, n), NormSqTo(g, n));
    } else {
      TimesZero(c);
    }
  }

  /** Scaling every tensor by `s` scales the squared norm by `s*s`. */
  lemma {:induction false} NormSqScale(g: Dict<Tensor>, s: real, n: nat)
    requires n <= |g|
    ensures NormSqTo(ScaleAll(g, s), n) == s * s * NormSqTo(g, n)
  {
    var h := ScaleAll(g, s);
    forall i | 0 <= i < n
      ensures SumSq(h[i].val) == (s * s) * SumSq(g[i].val)
    {
      assert h[i].val == TensorScale(g[i].val, s);
      SumSqScale(g[i].val, s, |g[i].val|);
    }
    NormSqTimes(g, h, s * s, n);
  }

  /** `f(0) + ... + f(n-1)`. */
  function SumOf(f: nat -> real, n: nat): real {
    if n == 0 then 0.0 else SumOf(f, n - 1) + f(n - 1)
  }

  /** Multiplying every term by `c` multiplies the sum by `c`. */
  lemma {:induction false} SumOfTimes(f: nat -> real, h: nat -> real, c: real, n: nat)
    requires forall i :: 0 <= i < n ==> h(i) == c * f(i)
    ensures SumOf(h, n) == c * SumOf(f, n)
  {
    if n > 0 {
      SumOfTimes(f, h, c, n - 1);
      AddScaled(c, SumOf(h, n - 1), SumOf(f, n - 1), f(n - 1), h(n - 1), SumOf(h, n), SumOf(f, n));
    } else {
      TimesZero(c);
    }
  }

  /** Adding c-multiples gives the c-multiple of the sum. */
  lemma {:induction false} AddScaled(c: real, x: real, y: real, a: real, b: real, sx: real, sy: real)
    requires x == c * y && b == c * a && sx == x + b && sy == y + a
    ensures sx == c * sy
  {
  }

  lemma {:induction false} TimesZero(c: real)
    ensures c * 0.0 == 0.0
  {
  }

  /**
   * Clipping a dictionary whose norm `n` exceeds the threshold leaves it with
   * norm exactly `threshold`.
   */
  lemma {:induction false} ClipReachesThreshold(g: Dict<Tensor>, threshold: real, n: real)
    requires 0.0 <= threshold < n && n * n == NormSq(g)
    ensures NormSq(ScaleAll(g, threshold / n)) == threshold * threshold
  {
    var c := threshold / n;
    NormSqScale(g, c, |g|);
    assert c * n == threshold;
    calc {
      c * c * NormSq(g);
      == c * c * (n * n);
      == (c * n) * (c * n);
      == threshold * threshold;
    }
  }

  /**
   * `select(g, h)`: exactly the keys of `h`, in its order, each holding the
   * tensor `g` has under that key.
   */
  function Select(g: Dict<Tensor>, h: Dict<Tensor>): (r: Dict<Tensor>)
    requires forall i :: 0 <= i < |h| ==> Has(g, h[i].key)
    ensures Keys(r) == Keys(h)
    ensures KeysDistinct(h) ==> KeysDistinct(r)
    ensures forall i :: 0 <= i < |r| ==> r[i].val == Get(g, r[i].key)
  {
    seq(|h|, i requires 0 <= i < |h| => Entry(h[i].key, Get(g, h[i].key)))
  }

  /** `norm(g)` before its square root: the loop summing squared entries. */
  method NormSquared(g: Dict<Tensor>) returns (normsq: real)
    ensures normsq == NormSq(g)
  {
    normsq := 0.0;
    var i := 0;
    while i < |g|
      invariant 0 <= i <= |g|
      invariant normsq == NormSqTo(g, i)
    {
      normsq := normsq + SumSq(g[i].val);
      i := i + 1;
    }
  }

  /** A dictionary `g` that the operations below update in place. */
  class Params {
    var entries: Dict<Tensor>

    ghost predicate Valid()
      reads this
    {
      KeysDistinct(entries)
    }

    constructor(init: Dict<Tensor>)
      requires KeysDistinct(init)
      ensures Valid() && entries == init
    {
      entries := init;
    }

    /** `addEq(g, h)`: each entry of `h` is added into `g`, key by key. */
    method AddEq(h: Dict<Tensor>)
      requires Valid() && KeysDistinct(h) && Compatible(entries, h)
      modifies this
      ensures Valid() && entries == AddAll(old(entries), h)
    {
      ghost var g := entries;
      var i := 0;
      while i < |h|
        invariant 0 <= i <= |h|
        invariant KeysDistinct(h[..i]) && Compatible(g, h[..i])
        invariant entries == AddAll(g, h[..i])
      {
        var e := h[i];
        var h1 := h[..i + 1];
        assert h1[..i] == h[..i] && h1[i] == e;
        assert KeysDistinct(h1) && Compatible(g, h1);
        LastKey(h1);
        if Has(g, e.key) {
          CompatibleAt(g, h1, e.key);
        }
        if !Has(entries, e.key) {
          entries := Put(entries, e.key, e.val);
        } else {
          entries := Put(entries, e.key, TensorAdd(Get(entries, e.key), e.val));
        }
        i := i + 1;
      }
      assert h[..i] == h;
    }

    /** `mulEq(g, s)`: every tensor multiplied in place by `s`. */
    method MulEq(s: real)
      requires Valid()
      modifies this
      ensures Valid() && entries == ScaleAll(old(entries), s)
    {
      ghost var g := entries;
      var i := 0;
      while i < |entries|
        invariant 0 <= i <= |entries| && |entries| == |g|
        invariant forall j :: 0 <= j < i ==> entries[j] == Entry(g[j].key, TensorScale(g[j].val, s))
        invariant forall j :: i <= j < |g| ==> entries[j] == g[j]
      {
        entries := entries[i := Entry(entries[i].key, TensorScale(entries[i].val, s))];
        i := i + 1;
      }
      assert entries == ScaleAll(g, s);
      ScalingKeepsKeys(g, s);
    }

    /** `divEq(g, s)`: every tensor divided in place by `s`. */
    method DivEq(s: real)
      requires Valid() && s != 0.0
      modifies this
      ensures Valid() && entries == DivideAll(old(entries), s)
    {
      ghost var g := entries;
      var i := 0;
      while i < |entries|
        invariant 0 <= i <= |entries| && |entries| == |g|
        invariant forall j :: 0 <= j < i ==> entries[j] == Entry(g[j].key, TensorDiv(g[j].val, s))
        invariant forall j :: i <= j < |g| ==> entries[j] == g[j]
      {
        entries := entries[i := Entry(entries[i].key, TensorDiv(entries[i].val, s))];
        i := i + 1;
      }
      assert entries == DivideAll(g, s);
      ScalingKeepsKeys(g, s);
    }

    /**
     * `clip(g, threshold, normOfG)`: scale by `threshold/normOfG` when the
     * given norm exceeds the threshold, otherwise leave `g` alone.
     */
    method Clip(threshold: real, normOfG: real)
      requires Valid() && (normOfG > threshold ==> normOfG != 0.0)
      modifies this
      ensures Valid()
      ensures normOfG > threshold ==> entries == ScaleAll(old(entries), threshold / normOfG)
      ensures normOfG <= threshold ==> entries == old(entries)
    {
      if normOfG > threshold {
        MulEq(threshold / normOfG);
      }
    }

    /**
     * `deepCopy(g)`: a new dictionary with the same keys in the same order,
     * each holding a clone of `g`'s tensor.
     */
    method DeepCopy() returns (c: Params)
      requires Valid()
      ensures fresh(c) && c.Valid() && c.entries == entries
    {
      c := new Params(entries);
    }
  }

  /** Updating a deep copy in place leaves the original as it was. */
  method CopyIsIndependent(g: Params, s: real) returns (c: Params)
    requires g.Valid()
    ensures fresh(c) && c.Valid()
    ensures c.entries == ScaleAll(g.entries, s) && g.entries == old(g.entries)
  {
    c := g.DeepCopy();
    c.MulEq(s);
  }
}
