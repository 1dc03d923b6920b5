/**
 * The older gradient dictionary: each parameter name maps to an array of
 * tensors, and the operations work array by array, tensor by tensor.
 */
module ParamGrad {
  import opened Dict
  import PS = ParamStruct

  type Grads = Dict<seq<PS.Tensor>>

  /** Tensors at the same position have the same size (where both arrays have one). */
  predicate TensorSizesAgree(gs: seq<PS.Tensor>, hs: seq<PS.Tensor>) {
    forall j :: 0 <= j < |gs| && j < |hs| ==> |gs[j]| == |hs[j]|
  }

  /** Tensor sizes agree under every key the two dictionaries share. */
  predicate ShapesFit(g: Grads, h: Grads) {
    forall i :: 0 <= i < |h| && Has(g, h[i].key) ==> TensorSizesAgree(Get(g, h[i].key), h[i].val)
  }

  /** The array lengths agree under every shared key among the first `m` keys of `h`. */
  predicate LengthsAgree(g: Grads, h: Grads, m: nat) {
    forall i :: 0 <= i < m && i < |h| && Has(g, h[i].key) ==> |Get(g, h[i].key)| == |h[i].val|
  }

  /**
   * The position in `h` at which `addEq` fails its length assertion: the first
   * shared key whose arrays differ in length, or `|h|` when there is none.
   */
  function FirstMismatch(g: Grads, h: Grads, from: nat): (m: nat)
    requires from <= |h| && LengthsAgree(g, h, from)
    ensures from <= m <= |h| && LengthsAgree(g, h, m)
    ensures m < |h| ==> Has(g, h[m].key) && |Get(g, h[m].key)| != |h[m].val|
    decreases |h| - from
  {
    if from == |h| then from
    else if Has(g, h[from].key) && |Get(g, h[from].key)| != |h[from].val| then from
    else AgreeStep(g, h, from); FirstMismatch(g, h, from + 1)
  }

  /** A shared key whose lengths agree extends the agreeing prefix by one. */
  lemma {:induction false} AgreeStep(g: Grads, h: Grads, from: nat)
    requires from < |h| && LengthsAgree(g, h, from)
    requires Has(g, h[from].key) ==> |Get(g, h[from].key)| == |h[from].val|
    ensures LengthsAgree(g, h, from + 1)
  {
  }

  /** Position-wise sum of two arrays of tensors. */
  function ArrayAdd(gs: seq<PS.Tensor>, hs: seq<PS.Tensor>): (r: seq<PS.Tensor>)
    requires |gs| == |hs| && TensorSizesAgree(gs, hs)
    ensures |r| == |gs| && forall j :: 0 <= j < |gs| ==> r[j] == PS.TensorAdd(gs[j], hs[j])
  {
    seq(|gs|, j requires 0 <= j < |gs| => PS.TensorAdd(gs[j], hs[j]))
  }

  /** What `addEq(g, h)` leaves under key `a`. */
  function Merged(g: Grads, h: Grads, a: string): seq<PS.Tensor>
    requires Has(g, a) || Has(h, a)
    requires Has(g, a) && Has(h, a) ==> |Get(g, a)| == |Get(h, a)| && TensorSizesAgree(Get(g, a), Get(h, a))
  {
    if Has(g, a) && Has(h, a) then ArrayAdd(Get(g, a), Get(h, a))
    else if Has(g, a) then Get(g, a)
    else Get(h, a)
  }

  /** One key of `addEq`: adopt `h`'s array for a new name, add element-wise otherwise. */
  function AddOne(g: Grads, e: Entry<seq<PS.Tensor>>): Grads
    requires KeysDistinct(g)
    requires Has(g, e.key) ==> |Get(g, e.key)| == |e.val| && TensorSizesAgree(Get(g, e.key), e.val)
  {
    if !Has(g, e.key) then Put(g, e.key, e.val)
    else Put(g, e.key, ArrayAdd(Get(g, e.key), e.val))
  }

  ghost predicate SharedFit(g: Grads, h: Grads) {
    forall a :: Has(g, a) && Has(h, a) ==> |Get(g, a)| == |Get(h, a)| && TensorSizesAgree(Get(g, a), Get(h, a))
  }

  /** `r` is what adding all of `h` into `g` gives. */
  ghost predicate MergeOf(r: Grads, g: Grads, h: Grads) {
    && KeysDistinct(r)
    && (forall a :: Has(r, a) <==> Has(g, a) || Has(h, a))
    && SharedFit(g, h)
    && (forall a :: Has(r, a) ==> Get(r, a) == Merged(g, h, a))
  }

  lemma {:induction false} FitAt(g: Grads, h: Grads, a: string)
    requires KeysDistinct(h) && ShapesFit(g, h) && LengthsAgree(g, h, |h|) && Has(g, a) && Has(h, a)
    ensures |Get(g, a)| == |Get(h, a)| && TensorSizesAgree(Get(g, a), Get(h, a))
  {
    var i := Find(h, a);
    assert h[i].key == a;
  }

  /**
   * `addEq(g, h)` when no length assertion fails: a shared name holds the
   * element-wise sums, any other name the array of the side that has it.
   */
  function AddAll(g: Grads, h: Grads): (r: Grads)
    requires KeysDistinct(g) && KeysDistinct(h) && ShapesFit(g, h) && LengthsAgree(g, h, |h|)
    ensures MergeOf(r, g, h)
    decreases |h|
  {
    if h == [] then g
    else
      var h0 := h[..|h| - 1];
      assert KeysDistinct(h0) && ShapesFit(g, h0) && LengthsAgree(g, h0, |h0|);
      var r0 := AddAll(g, h0);
      AddOneStep(g, h, r0);
      AddOne(r0, h[|h| - 1])
  }

  lemma {:induction false} AddOneStep(g: Grads, h: Grads, r0: Grads)
    requires KeysDistinct(g) && KeysDistinct(h) && ShapesFit(g, h) && LengthsAgree(g, h, |h|) && |h| > 0
    requires MergeOf(r0, g, h[..|h| - 1])
    ensures var e := h[|h| - 1];
      Has(r0, e.key) ==> |Get(r0, e.key)| == |e.val| && TensorSizesAgree(Get(r0, e.key), e.val)
    ensures MergeOf(AddOne(r0, h[|h| - 1]), g, h)
  {
    SharedFitOf(g, h);
    LastFits(g, h, r0);
    StepVals(g, h, r0);
  }

  lemma {:induction false} SharedFitOf(g: Grads, h: Grads)
    requires KeysDistinct(h) && ShapesFit(g, h) && LengthsAgree(g, h, |h|)
    ensures SharedFit(g, h)
  {
    forall a | Has(g, a) && Has(h, a)
      ensures |Get(g, a)| == |Get(h, a)| && TensorSizesAgree(Get(g, a), Get(h, a))
    {
      FitAt(g, h, a);
    }
  }

  lemma {:induction false} LastFits(g: Grads, h: Grads, r0: Grads)
    requires KeysDistinct(g) && KeysDistinct(h) && ShapesFit(g, h) && LengthsAgree(g, h, |h|) && |h| > 0
    requires MergeOf(r0, g, h[..|h| - 1])
    ensures var e := h[|h| - 1];
      Has(r0, e.key) ==> |Get(r0, e.key)| == |e.val| && TensorSizesAgree(Get(r0, e.key), e.val)
  {
    var e := h[|h| - 1];
    LastKey(h);
    if Has(r0, e.key) {
      assert Has(g, e.key);
      FitAt(g, h, e.key);
    }
  }

  lemma {:induction false} StepVals(g: Grads, h: Grads, r0: Grads)
    requires KeysDistinct(g) && KeysDistinct(h) && |h| > 0
    requires MergeOf(r0, g, h[..|h| - 1]) && SharedFit(g, h)
    requires var e := h[|h| - 1];
      Has(r0, e.key) ==> |Get(r0, e.key)| == |e.val| && TensorSizesAgree(Get(r0, e.key), e.val)
    ensures var r := AddOne(r0, h[|h| - 1]);
      && (forall a :: Has(r, a) <==> Has(g, a) || Has(h, a))
      && forall a :: Has(r, a) ==> Get(r, a) == Merged(g, h, a)
  {
    var e := h[|h| - 1];
    LastKey(h);
    var r := AddOne(r0, e);
    forall a | Has(r, a)
      ensures Get(r, a) == Merged(g, h, a)
    {
      if a != e.key && Has(h, a) {
        DropLast(h, a);
      }
    }
  }

  lemma {:induction false} Prefix(g: Grads, h: Grads, n: nat)
    requires KeysDistinct(h) && ShapesFit(g, h) && n <= |h| && LengthsAgree(g, h, n)
    ensures KeysDistinct(h[..n]) && ShapesFit(g, h[..n]) && LengthsAgree(g, h[..n], n)
  {
  }

  lemma {:induction false} AddAllUnfold(g: Grads, h: Grads)
    requires KeysDistinct(g) && KeysDistinct(h) && ShapesFit(g, h) && LengthsAgree(g, h, |h|) && |h| > 0
    ensures var h0 := h[..|h| - 1];
      && KeysDistinct(h0) && ShapesFit(g, h0) && LengthsAgree(g, h0, |h0|)
      && AddAll(g, h) == AddOne(AddAll(g, h0), h[|h| - 1])
  {
  }

  /** The state of `addEq`'s loop after the first `i` names of `h`. */
  ghost predicate AddedUpTo(g: Grads, h: Grads, i: nat, entries: Grads) {
    && KeysDistinct(g) && KeysDistinct(h) && ShapesFit(g, h)
    && i <= FirstMismatch(g, h, 0) && LengthsAgree(g, h, i)
    && KeysDistinct(h[..i]) && ShapesFit(g, h[..i]) && LengthsAgree(g, h[..i], i)
    && entries == AddAll(g, h[..i])
  }

  lemma {:induction false} InvariantGivesKey(g: Grads, h: Grads, i: nat, entries: Grads)
    requires AddedUpTo(g, h, i, entries) && i < |h|
    ensures KeysDistinct(entries)
    ensures Has(entries, h[i].key) <==> Has(g, h[i].key)
    ensures Has(entries, h[i].key) ==> Get(entries, h[i].key) == Get(g, h[i].key)
    ensures Has(entries, h[i].key) ==> TensorSizesAgree(Get(entries, h[i].key), h[i].val)
  {
    var h1 := h[..i + 1];
    assert h1[..i] == h[..i] && h1[i] == h[i];
    LastKey(h1);
  }

  lemma {:induction false} AddEqStep(g: Grads, h: Grads, i: nat, entries: Grads, fits: bool, r: Grads)
    requires AddedUpTo(g, h, i, entries) && i < |h|
    requires KeysDistinct(entries)
    requires Has(entries, h[i].key) <==> Has(g, h[i].key)
    requires Has(entries, h[i].key) ==> Get(entries, h[i].key) == Get(g, h[i].key)
    requires Has(entries, h[i].key) ==> TensorSizesAgree(Get(entries, h[i].key), h[i].val)
    requires fits <==> !Has(entries, h[i].key) || |Get(entries, h[i].key)| == |h[i].val|
    requires fits ==> r == AddOne(entries, h[i])
    ensures !fits ==> i == FirstMismatch(g, h, 0)
    ensures fits ==> AddedUpTo(g, h, i + 1, r)
  {
    var m := FirstMismatch(g, h, 0);
    var h1 := h[..i + 1];
    assert h1[..i] == h[..i] && h1[i] == h[i];
    if fits {
      assert LengthsAgree(g, h, i + 1);
      Prefix(g, h, i + 1);
      AddAllUnfold(g, h1);
    }
  }

  /** Every tensor of every array multiplied by `s`. */
  function ScaleAll(g: Grads, s: real): (r: Grads)
    ensures |r| == |g|
  {
    seq(|g|, i requires 0 <= i < |g| => Entry(g[i].key, ScaleArray(g[i].val, s)))
  }

  function ScaleArray(gs: seq<PS.Tensor>, s: real): (r: seq<PS.Tensor>)
    ensures |r| == |gs| && forall j :: 0 <= j < |gs| ==> r[j] == PS.TensorScale(gs[j], s)
  {
    seq(|gs|, j requires 0 <= j < |gs| => PS.TensorScale(gs[j], s))
  }

  /** Every tensor of every array divided by `s`. */
  function DivideAll(g: Grads, s: real): (r: Grads)
    requires s != 0.0
    ensures |r| == |g|
  {
    seq(|g|, i requires 0 <= i < |g| => Entry(g[i].key, DivideArray(g[i].val, s)))
  }

  function DivideArray(gs: seq<PS.Tensor>, s: real): (r: seq<PS.Tensor>)
    requires s != 0.0
    ensures |r| == |gs| && forall j :: 0 <= j < |gs| ==> r[j] == PS.TensorDiv(gs[j], s)
  {
    seq(|gs|, j requires 0 <= j < |gs| => PS.TensorDiv(gs[j], s))
  }

  /** The squared norm of the first `n` tensors of one array. */
  function ArraySumSq(gs: seq<PS.Tensor>, n: nat): real
    requires n <= |gs|
  {
    if n == 0 then 0.0 else ArraySumSq(gs, n - 1) + PS.SumSq(gs[n - 1])
  }

  /** The squared L2 norm of the first `n` arrays, in key order. */
  function NormSqTo(g: Grads, n: nat): real
    requires n <= |g|
  {
    if n == 0 then 0.0 else NormSqTo(g, n - 1) + ArraySumSq(g[n - 1].val, |g[n - 1].val|)
  }

  /** The squared L2 norm of all the tensors. */
  function NormSq(g: Grads): real {
    NormSqTo(g, |g|)
  }

  /** Tensor `j` of `hs` has c times the sum of squares of tensor `j` of `gs`. */
  ghost predicate TensorScaled(gs: seq<PS.Tensor>, hs: seq<PS.Tensor>, c: real, j: int) {
    0 <= j < |gs| && j < |hs| && PS.SumSq(hs[j]) == c * PS.SumSq(gs[j])
  }

  /** Array `i` of `h` has c times the squared sum of array `i` of `g`. */
  ghost predicate ArrayScaled(g: Grads, h: Grads, c: real, i: int) {
    0 <= i < |g| && i < |h| && ArraySumSq(h[i].val, |h[i].val|) == c * ArraySumSq(g[i].val, |g[i].val|)
  }

  /** Arrays whose tensors have c times the sums of squares of `gs` have c times its sum. */
  lemma {:induction false} ArraySumSqTimes(gs: seq<PS.Tensor>, hs: seq<PS.Tensor>, c: real, n: nat)
    requires n <= |gs| && n <= |hs|
    requires forall j :: 0 <= j < n ==> TensorScaled(gs, hs, c, j)
    ensures ArraySumSq(hs, n) == c * ArraySumSq(gs, n)
  {
    if n > 0 {
      assert TensorScaled(gs, hs, c, n - 1);
      ArraySumSqTimes(gs, hs, c, n - 1);
      PS.AddScaled(c, ArraySumSq(hs, n - 1), ArraySumSq(gs, n - 1), PS.SumSq(gs[n - 1]), PS.SumSq(hs[n - 1]),
        ArraySumSq(hs, n), ArraySumSq(gs, n));
    } else {
      PS.TimesZero(c);
    }
  }

  lemma {:induction false} ArraySumSqScale(gs: seq<PS.Tensor>, s: real, n: nat)
    requires n <= |gs|
    ensures ArraySumSq(ScaleArray(gs, s), n) == s * s * ArraySumSq(gs, n)
  {
    TensorSumsScale(gs, s, s * s, n);
    ArraySumSqTimes(gs, ScaleArray(gs, s), s * s, n);
  }

  lemma {:induction false} TensorSumsScale(gs: seq<PS.Tensor>, s: real, c: real, n: nat)
    requires n <= |gs| && c == s * s
    ensures forall j :: 0 <= j < n ==> TensorScaled(gs, ScaleArray(gs, s), c, j)
  {
    var hs := ScaleArray(gs, s);
    forall j | 0 <= j < n
      ensures TensorScaled(gs, hs, c, j)
    {
      PS.SumSqScale(gs[j], s, |gs[j]|);
    }
  }

  /** The squared sums of the arrays of `g`, position by position. */
  function EntryNorms(g: Grads): nat -> real {
    (i: nat) => if i < |g| then ArraySumSq(g[i].val, |g[i].val|) else 0.0
  }

  lemma {:induction false} NormSqToIsSum(g: Grads, n: nat)
    requires n <= |g|
    ensures NormSqTo(g, n) == PS.SumOf(EntryNorms(g), n)
  {
    if n > 0 {
      NormSqToIsSum(g, n - 1);
    }
  }

  /** Entries whose arrays have c times the squared sums of those of `g` have c times its squared norm. */
  lemma {:induction false} NormSqTimes(g: Grads, h: Grads, c: real, n: nat)
    requires n <= |g| && n <= |h|
    requires forall i :: 0 <= i < n ==> ArrayScaled(g, h, c, i)
    ensures NormSqTo(h, n) == c * NormSqTo(g, n)
  {
    EntryNormsScaled(g, h, c, n);
    PS.SumOfTimes(EntryNorms(g), EntryNorms(h), c, n);
    NormSqToIsSum(g, n);
    NormSqToIsSum(h, n);
  }

  lemma {:induction false} EntryNormsScaled(g: Grads, h: Grads, c: real, n: nat)
    requires forall i :: 0 <= i < n ==> ArrayScaled(g, h, c, i)
    ensures forall i :: 0 <= i < n ==> EntryNorms(h)(i) == c * EntryNorms(g)(i)
  {
    forall i | 0 <= i < n
      ensures EntryNorms(h)(i) == c * EntryNorms(g)(i)
    {
      assert ArrayScaled(g, h, c, i);
    }
  }

  /** Scaling every tensor by `s` scales the squared norm by `s*s`. */
  lemma {:induction false} NormSqScale(g: Grads, s: real, n: nat)
    requires n <= |g|
    ensures NormSqTo(ScaleAll(g, s), n) == s * s * NormSqTo(g, n)
  {
    ArraySumsScale(g, s, s * s, n);
    NormSqTimes(g, ScaleAll(g, s), s * s, n);
  }

  lemma {:induction false} ArraySumsScale(g: Grads, s: real, c: real, n: nat)
    requires n <= |g| && c == s * s
    ensures forall i :: 0 <= i < n ==> ArrayScaled(g, ScaleAll(g, s), c, i)
  {
    var h := ScaleAll(g, s);
    forall i | 0 <= i < n
      ensures ArrayScaled(g, h, c, i)
    {
      assert h[i].val == ScaleArray(g[i].val, s);
      ArraySumSqScale(g[i].val, s, |g[i].val|);
    }
  }

  /**
   * The assertion after clipping holds: when the given norm is the true norm
   * and exceeds the threshold, the clipped gradients have norm `threshold`.
   */
  lemma {:induction false} ClipReachesThreshold(g: Grads, threshold: real, n: real)
    requires 0.0 <= threshold < n && n * n == NormSq(g)
    ensures NormSq(ScaleAll(g, threshold / n)) == threshold * threshold
  {
    var c := threshold / n;
    NormSqScale(g, c, |g|);
    assert c * n == threshold;
    calc {
      c * c * NormSq(g);
      == c * c * (n * n);
      == (c * n) * (c * n);
      == threshold * threshold;
    }
  }

  /** `norm(g)` before its square root: the nested loop summing squared entries. */
  method NormSquared(g: Grads) returns (normsq: real)
    ensures normsq == NormSq(g)
  {
    normsq := 0.0;
    var i := 0;
    while i < |g|
      invariant 0 <= i <= |g|
      invariant normsq == NormSqTo(g, i)
    {
      var gs := g[i].val;
      var j := 0;
      while j < |gs|
        invariant 0 <= j <= |gs|
        invariant normsq == NormSqTo(g, i) + ArraySumSq(gs, j)
      {
        normsq := normsq + PS.SumSq(gs[j]);
        j := j + 1;
      }
      i := i + 1;
    }
  }

  /** The inner loop of `addEq`: `gs[i].addeq(hs[i])` for every position. */
  method AddArrays(gs: seq<PS.Tensor>, hs: seq<PS.Tensor>) returns (r: seq<PS.Tensor>)
    requires |gs| == |hs| && TensorSizesAgree(gs, hs)
    ensures r == ArrayAdd(gs, hs)
  {
    r := gs;
    var j := 0;
    while j < |r|
      invariant 0 <= j <= |r| == |gs|
      invariant forall l :: 0 <= l < j ==> r[l] == PS.TensorAdd(gs[l], hs[l])
      invariant forall l :: j <= l < |r| ==> r[l] == gs[l]
    {
      r := r[j := PS.TensorAdd(r[j], hs[j])];
      j := j + 1;
    }
  }

  /** The inner loop of `mulEq`: `gs[i].muleq(s)` for every position. */
  method ScaleArrayInPlace(gs: seq<PS.Tensor>, s: real) returns (r: seq<PS.Tensor>)
    ensures r == ScaleArray(gs, s)
  {
    r := gs;
    var j := 0;
    while j < |r|
      invariant 0 <= j <= |r| == |gs|
      invariant forall l :: 0 <= l < j ==> r[l] == PS.TensorScale(gs[l], s)
      invariant forall l :: j <= l < |r| ==> r[l] == gs[l]
    {
      r := r[j := PS.TensorScale(r[j], s)];
      j := j + 1;
    }
  }

  /** The inner loop of `divEq`: `gs[i].diveq(s)` for every position. */
  method DivideArrayInPlace(gs: seq<PS.Tensor>, s: real) returns (r: seq<PS.Tensor>)
    requires s != 0.0
    ensures r == DivideArray(gs, s)
  {
    r := gs;
    var j := 0;
    while j < |r|
      invariant 0 <= j <= |r| == |gs|
      invariant forall l :: 0 <= l < j ==> r[l] == PS.TensorDiv(gs[l], s)
      invariant forall l :: j <= l < |r| ==> r[l] == gs[l]
    {
      r := r[j := PS.TensorDiv(r[j], s)];
      j := j + 1;
    }
  }

  /**
   * One name of `addEq`: adopt `e`'s array when the name is new, otherwise
   * check the lengths (`fits`) and add position by position.
   */
  method AddKey(g: Grads, e: Entry<seq<PS.Tensor>>) returns (fits: bool, r: Grads)
    requires KeysDistinct(g)
    requires Has(g, e.key) ==> TensorSizesAgree(Get(g, e.key), e.val)
    ensures fits <==> !Has(g, e.key) || |Get(g, e.key)| == |e.val|
    ensures fits ==> r == AddOne(g, e)
  {
    if !Has(g, e.key) {
      return true, Put(g, e.key, e.val);
    }
    var gs := Get(g, e.key);
    if |gs| != |e.val| {
      return false, g;
    }
    gs := AddArrays(gs, e.val);
    return true, Put(g, e.key, gs);
  }

  /** A gradient dictionary `g` that the operations below update in place. */
  class Params {
    var entries: Grads

    ghost predicate Valid()
      reads this
    {
      KeysDistinct(entries)
    }

    constructor(init: Grads)
      requires KeysDistinct(init)
      ensures Valid() && entries == init
    {
      entries := init;
    }

    /**
     * `addEq(g, h)`: name by name, adopt `h`'s array or add it tensor by
     * tensor. The length assertion fails (`ok` false) at the first shared name
     * whose arrays differ in length, after the names before it were added.
     */
    method AddEq(h: Grads) returns (ok: bool)
      requires Valid() && KeysDistinct(h) && ShapesFit(entries, h)
      modifies this
      ensures Valid()
      ensures var m := FirstMismatch(old(entries), h, 0);
        && (ok <==> m == |h|)
        && KeysDistinct(h[..m]) && ShapesFit(old(entries), h[..m]) && LengthsAgree(old(entries), h[..m], m)
        && entries == AddAll(old(entries), h[..m])
    {
      ghost var g := entries;
      ghost var m := FirstMismatch(g, h, 0);
      var i := 0;
      while i < |h|
        invariant AddedUpTo(g, h, i, entries)
      {
        var e := h[i];
        InvariantGivesKey(g, h, i, entries);
        var fits, r := AddKey(entries, e);
        AddEqStep(g, h, i, entries, fits, r);
        if !fits {
          return false;
        }
        entries := r;
        i := i + 1;
      }
      assert h[..i] == h;
      return true;
    }

    /** `mulEq(g, s)`: every tensor of every array multiplied in place by `s`. */
    method MulEq(s: real)
      requires Valid()
      modifies this
      ensures Valid() && entries == ScaleAll(old(entries), s)
    {
      ghost var g := entries;
      var i := 0;
      while i < |entries|
        invariant 0 <= i <= |entries| && |entries| == |g|
        invariant forall k :: 0 <= k < i ==> entries[k] == Entry(g[k].key, ScaleArray(g[k].val, s))
        invariant forall k :: i <= k < |g| ==> entries[k] == g[k]
      {
        var gs := ScaleArrayInPlace(entries[i].val, s);
        entries := entries[i := Entry(entries[i].key, gs)];
        i := i + 1;
      }
      assert entries == ScaleAll(g, s);
      assert Keys(entries) == Keys(g);
    }

    /** `divEq(g, s)`: every tensor of every array divided in place by `s`. */
    method DivEq(s: real)
      requires Valid() && s != 0.0
      modifies this
      ensures Valid() && entries == DivideAll(old(entries), s)
    {
      ghost var g := entries;
      var i := 0;
      while i < |entries|
        invariant 0 <= i <= |entries| && |entries| == |g|
        invariant forall k :: 0 <= k < i ==> entries[k] == Entry(g[k].key, DivideArray(g[k].val, s))
        invariant forall k :: i <= k < |g| ==> entries[k] == g[k]
      {
        var gs := DivideArrayInPlace(entries[i].val, s);
        entries := entries[i := Entry(entries[i].key, gs)];
        i := i + 1;
      }
      assert entries == DivideAll(g, s);
      assert Keys(entries) == Keys(g);
    }

    /**
     * `clip(g, threshold, normOfG)` given the true norm: scale by
     * `threshold/normOfG` when it exceeds the threshold, after which the norm
     * is the threshold (the assertion that ends `clip`).
     */
    method Clip(threshold: real, normOfG: real)
      requires Valid() && 0.0 <= threshold && 0.0 <= normOfG && normOfG * normOfG == NormSq(entries)
      modifies this
      ensures Valid()
      ensures normOfG > threshold ==> entries == ScaleAll(old(entries), threshold / normOfG)
      ensures normOfG > threshold ==> NormSq(entries) == threshold * threshold
      ensures normOfG <= threshold ==> entries == old(entries)
    {
      if normOfG > threshold {
        ClipReachesThreshold(entries, threshold, normOfG);
        MulEq(threshold / normOfG);
      }
    }

    /**
     * `copy(g)`: a new dictionary holding, under each name, a new array with
     * the same tensors.
     */
    method Copy() returns (c: Params)
      requires Valid()
      ensures fresh(c) && c.Valid() && c.entries == entries
    {
      c := new Params(entries);
    }

    /**
     * `deepCopy(g)`: a new dictionary holding, under each name, a new array
     * of clones of the tensors.
     */
    method DeepCopy() returns (c: Params)
      requires Valid()
      ensures fresh(c) && c.Valid() && c.entries == entries
    {
      c := new Params(entries);
    }
  }

  /** Updating a deep copy in place leaves the original as it was. */
  method DeepCopyIsIndependent(g: Params, s: real) returns (c: Params)
    requires g.Valid()
    ensures fresh(c) && c.Valid()
    ensures c.entries == ScaleAll(g.entries, s) && g.entries == old(g.entries)
  {
    c := g.DeepCopy();
    c.MulEq(s);
  }
}
