/**
 * The helpers esmangle's passes share: array and string utilities, the
 * copy of a node's location record, the test of whether an expression
 * statement may be the completion value of a script, the literal nodes
 * built for constant values, and the test of whether the last expression of
 * a sequence can be pulled out of it.
 */
module EsmangleCommon {
  import opened Wrappers
  import opened JsNum

  // ---------------------------------------------------------------------
  // arrayLast, arrayEmpty

  /** `arrayLast`: the last element, `undefined` for an empty array. */
  function ArrayLast<T>(a: seq<T>): (r: Option<T>)
    ensures r.Some? <==> |a| > 0
    ensures r.Some? ==> r.value == a[|a| - 1]
  {
    if |a| == 0 then None else Some(a[|a| - 1])
  }

  /** `arrayEmpty`. */
  predicate ArrayEmpty<T>(a: seq<T>) {
    |a| == 0
  }

  /** An array is empty exactly when it has no last element, and pushing makes the pushed element last. */
  lemma {:induction false} ArrayLastAndEmpty<T>(a: seq<T>, x: T)
    ensures ArrayEmpty(a) <==> ArrayLast(a).None?
    ensures !ArrayEmpty(a + [x]) && ArrayLast(a + [x]) == Some(x)
  {
  }

  // ---------------------------------------------------------------------
  // stringRepeat

  const TwoTo31: int := 0x8000_0000
  const TwoTo32: int := 0x1_0000_0000

  /** Truncation toward zero, as the bitwise operators apply it. */
  function Trunc(r: real): int {
    if r >= 0.0 then r.Floor else -((-r).Floor)
  }

  /** `x | 0`: NaN and the infinities become 0, a finite value is truncated and wrapped to a signed 32-bit integer. */
  function ToInt32(x: Num): (n: int)
    ensures -TwoTo31 <= n < TwoTo31
  {
    if !x.Finite? then 0
    else
      var m := Trunc(x.r) % TwoTo32;
      if m >= TwoTo31 then m - TwoTo32 else m
  }

  /** A small non-negative count passes through `| 0` unchanged. */
  lemma {:induction false} ToInt32Small(k: nat)
    requires k < TwoTo31
    ensures ToInt32(Finite(k as real)) == k
  {
    assert (k as real).Floor == k;
  }

  /** s concatenated k times; no copies when k is not positive. */
  function Repeat(s: string, k: int): string
    decreases k
  {
    if k <= 0 then "" else Repeat(s, k - 1) + s
  }

  lemma {:induction false} RepeatLength(s: string, k: nat)
    ensures |Repeat(s, k)| == |s| * k
  {
    if k > 0 {
      RepeatLength(s, k - 1);
    }
  }

  lemma {:induction false} RepeatAdd(s: string, a: nat, b: nat)
    ensures Repeat(s, a + b) == Repeat(s, a) + Repeat(s, b)
    decreases b
  {
    if b > 0 {
      RepeatAdd(s, a, b - 1);
    }
  }

  /** Repeating a doubled string h times repeats the string 2h times. */
  lemma {:induction false} RepeatDoubled(s: string, h: nat)
    ensures Repeat(s + s, h) == Repeat(s, h + h)
  {
    if h > 0 {
      RepeatDoubled(s, h - 1);
      assert Repeat(s, h + h) == Repeat(s, h + h - 1) + s;
    }
  }

  /** One step of the doubling loop: the low bit of n contributes one copy of the current string, the rest doubles it. */
  lemma {:induction false} RepeatHalved(s: string, n: nat)
    ensures Repeat(s, n) == (if n % 2 == 1 then s else "") + Repeat(s + s, n / 2)
  {
    var h := n / 2;
    RepeatDoubled(s, h);
    if n % 2 == 1 {
      assert n == 1 + (h + h);
      RepeatAdd(s, 1, h + h);
    } else {
      assert n == h + h;
    }
  }

  /** The loop step keeps `result + Repeat(s, n)` fixed. */
  lemma {:induction false} RepeatStep(result: string, s: string, n: nat)
    ensures (if n % 2 == 1 then result + s else result) + Repeat(s + s, n / 2) == result + Repeat(s, n)
  {
    RepeatHalved(s, n);
    if n % 2 == 1 {
      assert (result + s) + Repeat(s + s, n / 2) == result + (s + Repeat(s + s, n / 2));
    } else {
      assert "" + Repeat(s + s, n / 2) == Repeat(s + s, n / 2);
    }
  }

  /**
   * `stringRepeat`: the count goes through `| 0`, then the loop halves it,
   * doubling the string each step and appending the current string
   * whenever the low bit is set.
   */
  method StringRepeat(str: string, num: Num) returns (result: string)
    ensures result == Repeat(str, ToInt32(num))
  {
    result := "";
    var n := ToInt32(num);
    var s := str;
    while n > 0
      invariant n >= 0 || (n == ToInt32(num) && result == "")
      invariant n >= 0 ==> result + Repeat(s, n) == Repeat(str, ToInt32(num))
      decreases n
    {
      RepeatStep(result, s, n);
      if n % 2 == 1 {
        result := result + s;
      }
      n := n / 2;
      s := s + s;
    }
  }

  /** Non-positive counts, and counts that wrap to negative 32-bit values, give the empty string. */
  lemma {:induction false} RepeatNonPositive(s: string, num: Num)
    requires ToInt32(num) <= 0
    ensures Repeat(s, ToInt32(num)) == ""
  {
  }

  // ---------------------------------------------------------------------
  // deepCopy

  /** JavaScript numbers with the negative zero that `isNegative` tells apart. */
  datatype Number = Num(n: JsNum.Num) | MinusZero

  /** The JavaScript values a location record and a literal can hold; an object is its own properties in order. */
  datatype Value =
    | Undefined
    | Null
    | Bool(b: bool)
    | Number(x: Number)
    | Str(s: string)
    | RegExp(source: string)
    | Arr(items: seq<Value>)
    | Obj(props: seq<Prop>)

  datatype Prop = Prop(key: string, val: Value)

  /** `key.lastIndexOf('__', 0) === 0`. */
  predicate Hidden(key: string) {
    |key| >= 2 && key[0] == '_' && key[1] == '_'
  }

  /** The properties `deepCopy` keeps, in their original order. */
  function Visible(props: seq<Prop>): (r: seq<Prop>)
    ensures |r| <= |props|
    ensures forall p :: p in r ==> p in props && !Hidden(p.key)
  {
    if props == [] then []
    else
      var last := props[|props| - 1];
      Visible(props[..|props| - 1]) + (if Hidden(last.key) then [] else [last])
  }

  /** Every property whose key is not hidden is kept. */
  lemma {:induction false} VisibleKeepsAll(props: seq<Prop>, p: Prop)
    requires p in props && !Hidden(p.key)
    ensures p in Visible(props)
  {
    if p != props[|props| - 1] {
      assert props == props[..|props| - 1] + [props[|props| - 1]];
      VisibleKeepsAll(props[..|props| - 1], p);
    }
  }

  /** The copy of a property value: objects and arrays are copied recursively, a regular expression is rebuilt from its pattern, other values are shared. */
  function DeepCopy(v: Value): Value
  {
    match v
    case Arr(items) => Arr(seq(|items|, i requires 0 <= i < |items| => DeepCopy(items[i])))
    case Obj(props) => Obj(CopyEach(v, Visible(props)))
    case RegExp(source) => RegExp(source)
    case _ => v
  }

  /** The properties ps, taken from object `v`, with their values copied. */
  function CopyEach(v: Value, ps: seq<Prop>): (r: seq<Prop>)
    requires v.Obj? && forall p :: p in ps ==> p in v.props
    ensures |r| == |ps|
    decreases v, |ps|
  {
    if ps == [] then []
    else
      var last := ps[|ps| - 1];
      assert last in v.props;
      assert last.val < v;
      CopyEach(v, ps[..|ps| - 1]) + [Prop(last.key, DeepCopy(last.val))]
  }

  /** The j-th copied property has the j-th key and the copy of the j-th value. */
  lemma {:induction false} CopyEachAt(v: Value, ps: seq<Prop>, j: nat)
    requires v.Obj? && forall p :: p in ps ==> p in v.props
    requires j < |ps|
    ensures CopyEach(v, ps)[j] == Prop(ps[j].key, DeepCopy(ps[j].val))
    decreases |ps|
  {
    if j < |ps| - 1 {
      var init := ps[..|ps| - 1];
      assert init[j] == ps[j];
      CopyEachAt(v, init, j);
    }
  }

  /** No property anywhere inside v is hidden. */
  predicate Clean(v: Value) {
    match v
    case Arr(items) => forall i :: 0 <= i < |items| ==> Clean(items[i])
    case Obj(props) => forall i :: 0 <= i < |props| ==> !Hidden(props[i].key) && CleanIn(v, props[i])
    case _ => true
  }

  predicate CleanIn(v: Value, p: Prop)
    requires v.Obj? && p in v.props
    decreases v, 0
  {
    Clean(p.val)
  }

  /** The copy holds no hidden property at any depth. */
  lemma {:induction false} DeepCopyIsClean(v: Value)
    ensures Clean(DeepCopy(v))
  {
    match v
    case Arr(items) =>
      forall i | 0 <= i < |items| ensures Clean(DeepCopy(items[i])) {
        DeepCopyIsClean(items[i]);
      }
    case Obj(props) =>
      var kept := Visible(props);
      var c := DeepCopy(v);
      forall i | 0 <= i < |kept| ensures !Hidden(c.props[i].key) && CleanIn(c, c.props[i]) {
        CopyEachAt(v, kept, i);
        VisibleAt(props, i);
        DeepCopyIsClean(kept[i].val);
      }
    case _ =>
  }

  /** A value with nothing hidden inside is copied to an equal value. */
  lemma {:induction false} DeepCopyOfClean(v: Value)
    requires Clean(v)
    ensures DeepCopy(v) == v
  {
    match v
    case Arr(items) =>
      forall i | 0 <= i < |items| ensures DeepCopy(items[i]) == items[i] {
        DeepCopyOfClean(items[i]);
      }
    case Obj(props) =>
      VisibleOfClean(props);
      forall i | 0 <= i < |props| ensures CopyEach(v, props)[i] == props[i] {
        assert CleanIn(v, props[i]);
        CopyEachAt(v, props, i);
        DeepCopyOfClean(props[i].val);
      }
    case _ =>
  }

  /** A kept property is not hidden. */
  lemma {:induction false} VisibleAt(props: seq<Prop>, i: nat)
    requires i < |Visible(props)|
    ensures !Hidden(Visible(props)[i].key)
  {
    var init := props[..|props| - 1];
    if i < |Visible(init)| {
      VisibleAt(init, i);
    }
  }

  lemma {:induction false} VisibleOfClean(props: seq<Prop>)
    requires forall i :: 0 <= i < |props| ==> !Hidden(props[i].key)
    ensures Visible(props) == props
  {
    if props != [] {
      var init, last := props[..|props| - 1], props[|props| - 1];
      forall i | 0 <= i < |init|
        ensures !Hidden(init[i].key)
      {
        assert init[i] == props[i];
      }
      VisibleOfClean(init);
      assert Visible(props) == Visible(init) + [last];
      assert props == init + [last];
    }
  }

  /** One more property is kept exactly when its key is not hidden. */
  lemma {:induction false} VisibleStep(props: seq<Prop>, i: nat)
    requires i < |props|
    ensures Hidden(props[i].key) ==> Visible(props[..i + 1]) == Visible(props[..i])
    ensures !Hidden(props[i].key) ==> Visible(props[..i + 1]) == Visible(props[..i]) + [props[i]]
  {
    assert props[..i + 1][..i] == props[..i];
    assert Visible(props[..i]) + [] == Visible(props[..i]);
  }

  /** Copying one more property appends its copy. */
  lemma {:induction false} CopyEachSnoc(v: Value, ps: seq<Prop>, p: Prop)
    requires v.Obj? && p in v.props && forall q :: q in ps ==> q in v.props
    ensures CopyEach(v, ps + [p]) == CopyEach(v, ps) + [Prop(p.key, DeepCopy(p.val))]
  {
    assert (ps + [p])[..|ps|] == ps;
  }

  /** Copying a copy changes nothing. */
  lemma {:induction false} DeepCopyIdempotent(v: Value)
    ensures DeepCopy(DeepCopy(v)) == DeepCopy(v)
  {
    DeepCopyIsClean(v);
    DeepCopyOfClean(DeepCopy(v));
  }

  /** An array copies to an array of the same length, an object to one whose keys are the visible keys in order. */
  lemma {:induction false} DeepCopyShape(v: Value)
    ensures v.Arr? ==> DeepCopy(v).Arr? && |DeepCopy(v).items| == |v.items|
    ensures v.Obj? ==> (DeepCopy(v).Obj? &&
      |DeepCopy(v).props| == |Visible(v.props)| &&
      forall i :: 0 <= i < |Visible(v.props)| ==> DeepCopy(v).props[i].key == Visible(v.props)[i].key)
  {
    if v.Obj? {
      forall i | 0 <= i < |Visible(v.props)| ensures DeepCopy(v).props[i].key == Visible(v.props)[i].key {
        CopyEachAt(v, Visible(v.props), i);
      }
    }
  }

  /** `deepCopyInternal` filling the result object: the keys of `props` in order, hidden ones skipped, each value copied. */
  method CopyProps(ghost v: Value, props: seq<Prop>) returns (result: seq<Prop>)
    requires v.Obj? && props == v.props
    ensures result == DeepCopy(v).props
    decreases v, 1
  {
    result := [];
    var i := 0;
    while i < |props|
      invariant 0 <= i <= |props|
      invariant result == CopyVisible(v, i)
    {
      if !Hidden(props[i].key) {
        var val := CopyValue(props[i].val);
        result := result + [Prop(props[i].key, val)];
      }
      i := i + 1;
    }
    CopyVisibleIsDeepCopy(v);
  }

  /** Copying the visible properties one by one gives the properties of the deep copy. */
  lemma {:induction false} CopyVisibleIsDeepCopy(v: Value)
    requires v.Obj?
    ensures CopyVisible(v, |v.props|) == DeepCopy(v).props
  {
    CopyVisibleIsCopyEach(v, |v.props|);
    assert v.props[..|v.props|] == v.props;
  }

  /** The copies of the visible properties among the first n of object v, in order. */
  function CopyVisible(v: Value, n: nat): seq<Prop>
    requires v.Obj? && n <= |v.props|
    decreases v, n
  {
    if n == 0 then []
    else
      var p := v.props[n - 1];
      CopyVisible(v, n - 1) + (if Hidden(p.key) then [] else [Prop(p.key, DeepCopy(p.val))])
  }

  /** Copying the visible properties one by one is `CopyEach` over the visible ones. */
  lemma {:induction false} CopyVisibleIsCopyEach(v: Value, n: nat)
    requires v.Obj? && n <= |v.props|
    ensures forall q :: q in Visible(v.props[..n]) ==> q in v.props
    ensures CopyVisible(v, n) == CopyEach(v, Visible(v.props[..n]))
  {
    VisibleWithin(v, n);
    if n > 0 {
      CopyVisibleIsCopyEach(v, n - 1);
      CopyVisibleStep(v, n);
    }
  }

  /** The visible properties among the first n are properties of v. */
  lemma {:induction false} VisibleWithin(v: Value, n: nat)
    requires v.Obj? && n <= |v.props|
    ensures forall q :: q in Visible(v.props[..n]) ==> q in v.props
  {
    forall q | q in Visible(v.props[..n])
      ensures q in v.props
    {
      assert q in v.props[..n];
    }
  }

  /** The step of `CopyVisibleIsCopyEach`. */
  lemma {:induction false} CopyVisibleStep(v: Value, n: nat)
    requires v.Obj? && 0 < n <= |v.props|
    requires forall q :: q in Visible(v.props[..n - 1]) ==> q in v.props
    requires CopyVisible(v, n - 1) == CopyEach(v, Visible(v.props[..n - 1]))
    ensures forall q :: q in Visible(v.props[..n]) ==> q in v.props
    ensures CopyVisible(v, n) == CopyEach(v, Visible(v.props[..n]))
  {
    var p := v.props[n - 1];
    var before := Visible(v.props[..n - 1]);
    VisibleWithin(v, n);
    VisibleStep(v.props, n - 1);
    if Hidden(p.key) {
      assert CopyVisible(v, n) == CopyVisible(v, n - 1) + [];
    } else {
      CopyEachSnoc(v, before, p);
    }
  }

  /** The copy of one property value, the branch inside `deepCopyInternal`'s loop. */
  method CopyValue(val: Value) returns (r: Value)
    ensures r == DeepCopy(val)
    decreases val, 2
  {
    match val
    case Arr(items) =>
      var copied := [];
      var i := 0;
      while i < |items|
        invariant 0 <= i <= |items|
        invariant copied == seq(i, j requires 0 <= j < i => DeepCopy(items[j]))
      {
        var c := CopyValue(items[i]);
        copied := copied + [c];
        i := i + 1;
      }
      r := Arr(copied);
    case Obj(props) =>
      var ps := CopyProps(val, props);
      r := Obj(ps);
    case RegExp(source) =>
      r := RegExp(source);
    case _ =>
      r := val;
  }

  /**
   * `deepCopy` of a location record: an array starts from `[]`, anything
   * else from `{}`. Values other than objects and arrays have no own
   * enumerable keys, so they copy to an empty object.
   */
  method DeepCopyTop(obj: Value) returns (r: Value)
    requires !obj.Str?
    ensures obj.Arr? || obj.Obj? ==> r == DeepCopy(obj)
    ensures !obj.Arr? && !obj.Obj? ==> r == Obj([])
  {
    if obj.Arr? || obj.Obj? {
      r := CopyValue(obj);
    } else {
      r := Obj([]);
    }
  }

  // ---------------------------------------------------------------------
  // mayBeCompletionValue

  datatype AncestorKind = FunctionExpression | FunctionDeclaration | BlockStatement | Program | SwitchCase | OtherKind

  /**
   * An ancestor of the node: its identity, its kind, and for a block,
   * program or switch case the identity of the last statement of its body
   * or consequent (`None` when that list is empty).
   */
  datatype Ancestor = Ancestor(id: nat, kind: AncestorKind, last: Option<nat>)

  /** The node `ancestors[i]` is examined against: the next ancestor down, or the statement itself below the innermost one. */
  function ChildId(ancestors: seq<Ancestor>, nodeId: nat, i: nat): nat
    requires i < |ancestors|
  {
    if i == |ancestors| - 1 then nodeId else ancestors[i + 1].id
  }

  /** The walk goes past `ancestors[i]`: it is not a function, and if it is a statement list its child is the last statement. */
  predicate Passes(ancestors: seq<Ancestor>, nodeId: nat, i: nat)
    requires i < |ancestors|
  {
    match ancestors[i].kind
    case FunctionExpression => false
    case FunctionDeclaration => false
    case BlockStatement => ancestors[i].last == Some(ChildId(ancestors, nodeId, i))
    case Program => ancestors[i].last == Some(ChildId(ancestors, nodeId, i))
    case SwitchCase => ancestors[i].last == Some(ChildId(ancestors, nodeId, i))
    case OtherKind => true
  }

  /** A statement may give the script's completion value unless it is an expression statement that some ancestor stops. */
  predicate MayBeCompletion(isExpressionStatement: bool, nodeId: nat, ancestors: seq<Ancestor>) {
    !isExpressionStatement || forall i :: 0 <= i < |ancestors| ==> Passes(ancestors, nodeId, i)
  }

  /** `mayBeCompletionValue`: the walk from the innermost ancestor outward. */
  method MayBeCompletionValue(isExpressionStatement: bool, nodeId: nat, ancestors: seq<Ancestor>) returns (r: bool)
    ensures r == MayBeCompletion(isExpressionStatement, nodeId, ancestors)
  {
    if !isExpressionStatement {
      return true;
    }
    var i := |ancestors| - 1;
    var node := nodeId;
    while i >= 0
      invariant -1 <= i < |ancestors|
      invariant i < |ancestors| - 1 ==> node == ancestors[i + 1].id
      invariant i == |ancestors| - 1 ==> node == nodeId
      invariant forall j :: i < j < |ancestors| ==> Passes(ancestors, nodeId, j)
      decreases i
    {
      var ancestor := ancestors[i];
      assert node == ChildId(ancestors, nodeId, i);
      match ancestor.kind {
        case FunctionExpression =>
          assert !Passes(ancestors, nodeId, i);
          return false;
        case FunctionDeclaration =>
          assert !Passes(ancestors, nodeId, i);
          return false;
        case BlockStatement =>
          if !ArrayLastIs(ancestor.last, node) {
            assert !Passes(ancestors, nodeId, i);
            return false;
          }
        case Program =>
          if !ArrayLastIs(ancestor.last, node) {
            assert !Passes(ancestors, nodeId, i);
            return false;
          }
        case SwitchCase =>
          if !ArrayLastIs(ancestor.last, node) {
            assert !Passes(ancestors, nodeId, i);
            return false;
          }
        case OtherKind =>
      }
      i := i - 1;
      node := ancestor.id;
    }
    return true;
  }

  /** `arrayLast(list) === node`, with an empty list's `undefined` never equal to a node. */
  function ArrayLastIs(last: Option<nat>, node: nat): (b: bool)
    ensures b <==> last == Some(node)
  {
    last.Some? && last.value == node
  }

  /** Any statement that is not an expression statement may be the completion value. */
  lemma {:induction false} NonExpressionMayBeCompletion(nodeId: nat, ancestors: seq<Ancestor>)
    ensures MayBeCompletion(false, nodeId, ancestors)
  {
  }

  /** A function anywhere above an expression statement stops it from being the completion value. */
  lemma {:induction false} FunctionAncestorStops(nodeId: nat, ancestors: seq<Ancestor>, i: nat)
    requires i < |ancestors|
    requires ancestors[i].kind.FunctionExpression? || ancestors[i].kind.FunctionDeclaration?
    ensures !MayBeCompletion(true, nodeId, ancestors)
  {
    assert !Passes(ancestors, nodeId, i);
  }

  /** A block, program or switch case above an expression statement whose last statement is not the path down to it stops it too. */
  lemma {:induction false} NotLastStops(nodeId: nat, ancestors: seq<Ancestor>, i: nat)
    requires i < |ancestors|
    requires ancestors[i].kind in {BlockStatement, Program, SwitchCase}
    requires ancestors[i].last != Some(ChildId(ancestors, nodeId, i))
    ensures !MayBeCompletion(true, nodeId, ancestors)
  {
    assert !Passes(ancestors, nodeId, i);
  }

  /** The last statement of a program, with nothing between, may be the completion value. */
  lemma {:induction false} LastOfProgramMayBeCompletion(nodeId: nat, programId: nat)
    ensures MayBeCompletion(true, nodeId, [Ancestor(programId, Program, Some(nodeId))])
  {
  }

  // ---------------------------------------------------------------------
  // isNegative, generateFromValue

  /** `isNegative`: not NaN, and below zero or the negative zero. */
  predicate IsNegative(x: Number) {
    x.MinusZero? || (x.Num? && Less(x.n, Finite(0.0)))
  }

  /** Unary minus on numbers; it flips the sign of zero too. */
  function Negate(x: Number): Number {
    match x
    case MinusZero => Num(Finite(0.0))
    case Num(Finite(r)) => if r == 0.0 then MinusZero else Num(Finite(-r))
    case Num(PosInf) => Num(NegInf)
    case Num(NegInf) => Num(PosInf)
    case Num(NaN) => Num(NaN)
  }

  /** Negation undoes itself, and it never leaves a negative value negative. */
  lemma {:induction false} NegateInvolutive(x: Number)
    ensures Negate(Negate(x)) == x
    ensures IsNegative(x) ==> !IsNegative(Negate(x)) && Negate(x) != Num(NaN)
  {
  }

  /** NaN, the infinity above and the numbers at or above positive zero are not negative. */
  lemma {:induction false} IsNegativeCases(x: Number)
    ensures x == Num(NaN) ==> !IsNegative(x)
    ensures x == Num(NegInf) || x == MinusZero ==> IsNegative(x)
    ensures x == Num(PosInf) || x == Num(Finite(0.0)) ==> !IsNegative(x)
  {
  }

  datatype UnaryOp = Minus | Void
  datatype BinaryOp = Divide

  /** The expression nodes `generateFromValue` builds. */
  datatype Expr =
    | Literal(value: Value)
    | Unary(op: UnaryOp, argument: Expr)
    | Binary(bop: BinaryOp, left: Expr, right: Expr)

  const Zero: Value := Number(Num(Finite(0.0)))

  /** `generateFromValue`: NaN as `0 / 0`, a negative number as minus its negation, `undefined` as `void 0`, anything else as a literal. */
  function GenerateFromValue(value: Value): Expr {
    if value.Number? && value.x == Num(NaN) then Binary(Divide, Literal(Zero), Literal(Zero))
    else if value.Number? && IsNegative(value.x) then Unary(Minus, Literal(Number(Negate(value.x))))
    else if value.Undefined? then Unary(Void, Literal(Zero))
    else Literal(value)
  }

  /** The value of a constant expression of the forms built here, `None` outside them. */
  function EvalConst(e: Expr): Option<Value> {
    match e
    case Literal(v) => Some(v)
    case Unary(Minus, Literal(Number(x))) => Some(Number(Negate(x)))
    case Unary(Void, Literal(_)) => Some(Undefined)
    case Binary(Divide, Literal(Number(Num(Finite(a)))), Literal(Number(Num(Finite(b))))) =>
      if a == 0.0 && b == 0.0 then Some(Number(Num(NaN))) else None
    case _ => None
  }

  /** Every generated node evaluates back to the value it was generated from. */
  lemma {:induction false} GenerateFromValueRoundTrip(value: Value)
    ensures EvalConst(GenerateFromValue(value)) == Some(value)
  {
    if value.Number? {
      NegateInvolutive(value.x);
    }
  }

  /** A generated number literal is never NaN and never negative: the sign, if any, is the unary minus. */
  lemma {:induction false} GeneratedLiteralsAreNonNegative(value: Value)
    ensures GenerateFromValue(value).Literal? && GenerateFromValue(value).value.Number? ==>
      !IsNegative(GenerateFromValue(value).value.x) && GenerateFromValue(value).value.x != Num(NaN)
    ensures GenerateFromValue(value).Unary? && GenerateFromValue(value).op == Minus ==>
      value.Number? && IsNegative(value.x) && GenerateFromValue(value).argument.value.Number? &&
      !IsNegative(GenerateFromValue(value).argument.value.x)
  {
  }

  // ---------------------------------------------------------------------
  // isReference, canExtractSequence

  datatype NodeType = Identifier | MemberExpression | CallExpression | UnaryExpression | UpdateExpression | OtherType

  /** The last expression of a sequence: its type and, for an identifier, its name. */
  datatype SeqLast = SeqLast(typ: NodeType, name: string)

  /** The node holding the sequence: its type and, for a unary expression, its operator. */
  datatype SeqParent = SeqParent(typ: NodeType, operator: string)

  const EvalName: string := "eval"
  const DeleteOp: string := "delete"
  const TypeofOp: string := "typeof"

  /** `isReference`. */
  predicate IsReference(t: NodeType) {
    t == Identifier || t == MemberExpression
  }

  /**
   * `canExtractSequence(last, parent, scope)`. `staticRef` stands for
   * `scope.resolve(last)` finding a reference that is static; a failed
   * resolution counts as false.
   */
  function CanExtractSequence(last: SeqLast, parent: SeqParent, staticRef: bool): bool {
    if parent.typ == CallExpression then
      if last.typ == Identifier then
        if last.name == EvalName then false else staticRef
      else last.typ != MemberExpression
    else if parent.typ == UnaryExpression then
      if parent.operator == DeleteOp then !IsReference(last.typ)
      else if parent.operator == TypeofOp && last.typ == Identifier then staticRef
      else true
    else if parent.typ == UpdateExpression then !IsReference(last.typ)
    else true
  }

  /**
   * What pulling `x` out of `(a, x)` could change: a call of `eval` would
   * become a direct eval, a method call would lose its receiver, a call or
   * `typeof` of a name not statically resolved could see another binding,
   * and `delete` or an update of a reference would act on a value instead.
   */
  predicate ChangesMeaning(last: SeqLast, parent: SeqParent, staticRef: bool) {
    || (parent.typ == CallExpression && last.typ == Identifier && last.name == EvalName)
    || (parent.typ == CallExpression && last.typ == MemberExpression)
    || (parent.typ == CallExpression && last.typ == Identifier && !staticRef)
    || (parent.typ == UnaryExpression && parent.operator == TypeofOp && last.typ == Identifier && !staticRef)
    || (parent.typ == UnaryExpression && parent.operator == DeleteOp && IsReference(last.typ))
    || (parent.typ == UpdateExpression && IsReference(last.typ))
  }

  /** A sequence is kept exactly when extracting its last expression could change the program's meaning. */
  lemma {:induction false} CanExtractIffMeaningKept(last: SeqLast, parent: SeqParent, staticRef: bool)
    ensures !CanExtractSequence(last, parent, staticRef) <==> ChangesMeaning(last, parent, staticRef)
  {
  }

  /** Outside calls, unary and update expressions, any last expression can be extracted. */
  lemma {:induction false} OtherParentsExtract(last: SeqLast, parent: SeqParent, staticRef: bool)
    requires parent.typ !in {CallExpression, UnaryExpression, UpdateExpression}
    ensures CanExtractSequence(last, parent, staticRef)
  {
  }
}
