/**
 * The continuation-passing-style transform of compiled WebPPL code: every
 * function gets a continuation as its first parameter, and every
 * expression that is not atomic passes its value to a continuation instead
 * of returning it.
 *
 * The fresh-name generator is a counter threaded through the transform:
 * each operation takes the next free number and gives back the next free
 * number after it, in the order the transform draws names. The
 * meta-continuations, functions that build the rest of the output from an
 * atomic expression, are Dafny function values of the same shape. Every
 * operation carries a recursion bound `fuel`; it is used up by a chain of
 * nested calls no longer than the bound, and running out is an error.
 */
module CpsTransform {
  import opened Wrappers
  import opened JsAst
  import opened JsString
  import Syntax
  import Linearize

  /** An output node and the next free name number. */
  datatype Out = Out(node: Node, next: nat)

  /** A meta-continuation: builds the rest of the output from an expression. */
  type MetaK = (Node, nat) -> Result<Out>
  /** A meta-continuation for a list of expressions. */
  type MetaKs = (seq<Node>, nat) -> Result<Out>
  /** A meta-continuation for a declared name. */
  type MetaName = (string, nat) -> Result<Out>

  const OutOfFuel := "recursion bound reached"

  /** The fresh name `genvar(name)` returns when the counter is at n. */
  function Fresh(name: string, n: nat): (r: string)
    ensures |r| > 1 + |name| && r[0] == '_' && r[1..1 + |name|] == name
  {
    "_" + name + NatToString(n)
  }

  /** `buildFunction(params, body, id)`: a function whose block holds the one expression statement `body;`. */
  function BuildFunction(params: seq<string>, body: Node, id: Option<string>): Node {
    FunctionExpr(id, params, [ExpressionStmt(body)])
  }

  /** `buildContinuationCall(k, arg)`. */
  function KCall(k: Node, arg: Node): Node {
    Call(k, [arg])
  }

  /** A `Property` node for each key and value, as far as both lists go. */
  function Zip(keys: seq<Node>, values: seq<Node>): (r: seq<Node>)
    ensures |keys| == |values| ==> |r| == |keys| && forall j :: 0 <= j < |r| ==> r[j] == Property(keys[j], values[j])
  {
    if keys == [] || values == [] then []
    else [Property(keys[0], values[0])] + Zip(keys[1..], values[1..])
  }

  /** `isAtomic(node)` for every element of a list, stopping at the first that is not atomic. */
  function AllAtomic(es: seq<Node>): Result<bool>
    decreases SizeSeq(es), 1
  {
    if es == [] then Ok(true)
    else
      match IsAtomic(es[0])
      case Err(m) => Err(m)
      case Ok(b) => if b then AllAtomic(es[1..]) else Ok(false)
  }

  /** `isAtomic(property.key) && isAtomic(property.value)` for every property of an object literal. */
  function AllPropertiesAtomic(ps: seq<Node>): Result<bool>
    decreases SizeSeq(ps), 1
  {
    if ps == [] then Ok(true)
    else
      match ps[0]
      case Property(key, value) =>
        (match Both(IsAtomic(key), IsAtomic(value))
         case Err(m) => Err(m)
         case Ok(b) => if b then AllPropertiesAtomic(ps[1..]) else Ok(false))
      case _ => Err("TypeError: isAtomic of undefined")
  }

  /** Two atomicity tests joined by `&&`: the second is only made when the first holds. */
  function Both(a: Result<bool>, b: Result<bool>): (r: Result<bool>)
    ensures a == Ok(false) ==> r == Ok(false)
    ensures a == Ok(true) ==> r == b
    ensures a.Err? ==> r == a
  {
    match a
    case Err(m) => Err(m)
    case Ok(x) => if x then b else Ok(false)
  }

  /**
   * `isAtomic(node)`: whether the node can be evaluated without calling a
   * compound function; unknown node kinds are rejected.
   */
  function IsAtomic(n: Node): Result<bool>
    decreases Size(n), 0
  {
    match n
    case ArrayExpr(es) => AllAtomic(es)
    case Binary(_, l, r) => Both(IsAtomic(l), IsAtomic(r))
    case Call(callee, args) => Both(Syntax.IsPrimitive(callee), AllAtomic(args))
    case Conditional(t, c, a) => Both(IsAtomic(t), Both(IsAtomic(c), IsAtomic(a)))
    case FunctionExpr(_, _, _) => Ok(true)
    case Identifier(_) => Ok(true)
    case Literal(_) => Ok(true)
    case Logical(_, l, r) => Both(IsAtomic(l), IsAtomic(r))
    case Member(o, p, _) => Both(IsAtomic(o), IsAtomic(p))
    case ObjectExpr(ps) => AllPropertiesAtomic(ps)
    case Unary(_, a) => IsAtomic(a)
    case _ => Err("isAtomic")
  }

  /**
   * The callees of the calls n evaluates before any function it builds is
   * called: calls inside function expressions are not among them.
   */
  function OuterCallees(n: Node): seq<Node>
    decreases n
  {
    match n
    case ArrayExpr(es) => OuterCalleesOfAll(es)
    case Binary(_, l, r) => OuterCallees(l) + OuterCallees(r)
    case Call(callee, args) => [callee] + OuterCalleesOfAll(args)
    case Conditional(t, c, a) => OuterCallees(t) + OuterCallees(c) + OuterCallees(a)
    case Logical(_, l, r) => OuterCallees(l) + OuterCallees(r)
    case Member(o, p, _) => OuterCallees(o) + OuterCallees(p)
    case ObjectExpr(ps) => OuterCalleesOfAll(ps)
    case Property(key, value) => OuterCallees(key) + OuterCallees(value)
    case Unary(_, a) => OuterCallees(a)
    case _ => []
  }

  function OuterCalleesOfAll(es: seq<Node>): seq<Node>
    decreases es
  {
    if es == [] then [] else OuterCallees(es[0]) + OuterCalleesOfAll(es[1..])
  }

  /** Every callee in the list is a primitive (a method of a named object or a fixed property). */
  predicate AllPrimitive(cs: seq<Node>) {
    forall j :: 0 <= j < |cs| ==> Syntax.IsPrimitive(cs[j]) == Ok(true)
  }

  /** Primitive callees of a + b are those of a and of b. */
  lemma {:induction false} AllPrimitiveAppend(a: seq<Node>, b: seq<Node>)
    ensures AllPrimitive(a + b) <==> AllPrimitive(a) && AllPrimitive(b)
  {
    if AllPrimitive(a) && AllPrimitive(b) {
      forall j | 0 <= j < |a + b|
        ensures Syntax.IsPrimitive((a + b)[j]) == Ok(true)
      {
        if j >= |a| {
          assert (a + b)[j] == b[j - |a|];
        }
      }
    }
    if AllPrimitive(a + b) {
      forall j | 0 <= j < |a|
        ensures Syntax.IsPrimitive(a[j]) == Ok(true)
      {
        assert (a + b)[j] == a[j];
      }
      forall j | 0 <= j < |b|
        ensures Syntax.IsPrimitive(b[j]) == Ok(true)
      {
        assert (a + b)[|a| + j] == b[j];
      }
    }
  }

  /** Whenever `isAtomic` answers, it says whether every call made before a nested function runs is primitive. */
  lemma {:induction false} AtomicMeansPrimitiveCalls(n: Node)
    requires IsAtomic(n).Ok?
    ensures IsAtomic(n).value <==> AllPrimitive(OuterCallees(n))
    decreases Size(n), 1
  {
    match n
    case ArrayExpr(es) => AllAtomicMeans(es);
    case Binary(_, l, r) => PairMeans(l, r);
    case Call(callee, args) =>
      AllPrimitiveAppend([callee], OuterCalleesOfAll(args));
      assert ([callee] + OuterCalleesOfAll(args))[0] == callee;
      if Syntax.IsPrimitive(callee) == Ok(true) {
        AllAtomicMeans(args);
      }
    case Conditional(t, c, a) =>
      AtomicMeansPrimitiveCalls(t);
      AllPrimitiveAppend(OuterCallees(t) + OuterCallees(c), OuterCallees(a));
      AllPrimitiveAppend(OuterCallees(t), OuterCallees(c));
      if IsAtomic(t) == Ok(true) {
        PairMeans(c, a);
        AllPrimitiveAppend(OuterCallees(c), OuterCallees(a));
      }
    case Logical(_, l, r) => PairMeans(l, r);
    case Member(o, p, _) => PairMeans(o, p);
    case ObjectExpr(ps) => AllPropertiesMeans(ps);
    case Unary(_, a) => AtomicMeansPrimitiveCalls(a);
    case FunctionExpr(_, _, _) =>
    case Identifier(_) =>
    case Literal(_) =>
  }

  lemma {:induction false} PairMeans(l: Node, r: Node)
    requires Both(IsAtomic(l), IsAtomic(r)).Ok?
    ensures Both(IsAtomic(l), IsAtomic(r)).value <==> AllPrimitive(OuterCallees(l) + OuterCallees(r))
    decreases Size(l) + Size(r), 2
  {
    AtomicMeansPrimitiveCalls(l);
    AllPrimitiveAppend(OuterCallees(l), OuterCallees(r));
    if IsAtomic(l) == Ok(true) {
      AtomicMeansPrimitiveCalls(r);
    }
  }

  lemma {:induction false} AllAtomicMeans(es: seq<Node>)
    requires AllAtomic(es).Ok?
    ensures AllAtomic(es).value <==> AllPrimitive(OuterCalleesOfAll(es))
    decreases SizeSeq(es), 2
  {
    if es != [] {
      AtomicMeansPrimitiveCalls(es[0]);
      AllPrimitiveAppend(OuterCallees(es[0]), OuterCalleesOfAll(es[1..]));
      if IsAtomic(es[0]) == Ok(true) {
        AllAtomicMeans(es[1..]);
      }
    }
  }

  lemma {:induction false} AllPropertiesMeans(ps: seq<Node>)
    requires AllPropertiesAtomic(ps).Ok?
    ensures AllPropertiesAtomic(ps).value <==> AllPrimitive(OuterCalleesOfAll(ps))
    decreases SizeSeq(ps), 2
  {
    if ps != [] {
      var p := ps[0];
      assert p.Property?;
      AllPrimitiveAppend(OuterCallees(p), OuterCalleesOfAll(ps[1..]));
      PairMeans(p.key, p.value);
      if Both(IsAtomic(p.key), IsAtomic(p.value)) == Ok(true) {
        AllPropertiesMeans(ps[1..]);
      }
    }
  }

  /** `cpsFunction(id, params, body)`: a fresh continuation parameter in front, the linearised body in CPS. */
  function CpsFunction(id: Option<string>, params: seq<string>, body: seq<Node>, n: nat, fuel: nat): Result<Out>
    decreases fuel
  {
    if fuel == 0 then Err(OutOfFuel)
    else
      var k := Fresh("k", n);
      match Linearize.Linearize(body)
      case Err(m) => Err(m)
      case Ok(lin) =>
        match CpsSequence(lin, 0, Identifier(k), n + 1, fuel - 1)
        case Err(m) => Err(m)
        case Ok(Out(b, next)) => Ok(Out(BuildFunction([k] + params, b, id), next))
  }

  /** `bindContinuation(k, metaK)`: a named continuation is used as it is; any other is bound to a fresh name once. */
  function BindContinuation(k: Node, metaK: MetaK, n: nat): Result<Out> {
    if k.Identifier? then metaK(k, n)
    else
      var k0 := Fresh("k", n);
      match metaK(Identifier(k0), n + 1)
      case Err(m) => Err(m)
      case Ok(Out(b, next)) => Ok(Out(Call(BuildFunction([k0], b, None), [k]), next))
  }

  /** `atomize(node, metaK)`: metaK applied to an atomic form of the node, with the work the node needs done first. */
  function Atomize(n: Node, metaK: MetaK, next: nat, fuel: nat): Result<Out>
    decreases fuel
  {
    if fuel == 0 then Err(OutOfFuel)
    else
      match IsAtomic(n)
      case Err(m) => Err(m)
      case Ok(atomic) =>
        if atomic then
          if n.FunctionExpr? then
            match CpsFunction(n.id, n.params, n.body, next, fuel - 1)
            case Err(m) => Err(m)
            case Ok(Out(f, next')) => metaK(f, next')
          else metaK(n, next)
        else
          match n
          case ArrayExpr(es) =>
            AtomizeStar(es, (els: seq<Node>, m: nat) => metaK(ArrayExpr(els), m), next, fuel - 1)
          case Binary(_, _, _) => AtomizeByName(n, metaK, next, fuel - 1)
          case Call(_, _) => AtomizeByName(n, metaK, next, fuel - 1)
          case Conditional(_, _, _) => AtomizeByName(n, metaK, next, fuel - 1)
          case Member(o, p, computed) =>
            Atomize(o, (o': Node, m: nat) =>
              Atomize(p, (p': Node, m': nat) => metaK(Member(o', p', computed), m'), m, fuel - 1), next, fuel - 1)
          case _ => Err("atomize")
  }

  /** A compound expression is given a fresh `result` name, which metaK receives, and is put in CPS with that continuation. */
  function AtomizeByName(n: Node, metaK: MetaK, next: nat, fuel: nat): Result<Out>
    decreases fuel
  {
    if fuel == 0 then Err(OutOfFuel)
    else
      var x := Fresh("result", next);
      match metaK(Identifier(x), next + 1)
      case Err(m) => Err(m)
      case Ok(Out(b, next')) => Cps(n, BuildFunction([x], b, None), next', fuel - 1)
  }

  /** `atomizeStar(es, metaK)`: every element atomised from left to right, then metaK on the list. */
  function AtomizeStar(es: seq<Node>, metaK: MetaKs, next: nat, fuel: nat): Result<Out>
    decreases fuel
  {
    if fuel == 0 then Err(OutOfFuel) else AtomizeFrom(es, 0, metaK, next, fuel - 1)
  }

  /** The `loop(i)` of `atomizeStar`: element i is replaced by its atomic form before the next is taken. */
  function AtomizeFrom(es: seq<Node>, i: nat, metaK: MetaKs, next: nat, fuel: nat): Result<Out>
    requires i <= |es|
    decreases fuel
  {
    if fuel == 0 then Err(OutOfFuel)
    else if i == |es| then metaK(es, next)
    else Atomize(es[i], (e: Node, m: nat) => AtomizeFrom(es[i := e], i + 1, metaK, m, fuel - 1), next, fuel - 1)
  }

  /** `cps(node, k)`: the expression in CPS, its value passed to the continuation k. */
  function Cps(n: Node, k: Node, next: nat, fuel: nat): Result<Out>
    decreases fuel
  {
    if fuel == 0 then Err(OutOfFuel)
    else
      match n
      case Identifier(_) => Ok(Out(KCall(k, n), next))
      case Literal(_) => Ok(Out(KCall(k, n), next))
      case ArrayExpr(es) =>
        AtomizeStar(es, (els: seq<Node>, m: nat) => Ok(Out(KCall(k, ArrayExpr(els)), m)), next, fuel - 1)
      case Assignment(op, l, r) =>
        Atomize(l, (l': Node, m: nat) =>
          Atomize(r, (r': Node, m': nat) => Ok(Out(KCall(k, Assignment(op, l', r')), m')), m, fuel - 1), next, fuel - 1)
      case Binary(op, l, r) =>
        Atomize(l, (l': Node, m: nat) =>
          Atomize(r, (r': Node, m': nat) => Ok(Out(KCall(k, Binary(op, l', r')), m')), m, fuel - 1), next, fuel - 1)
      case Call(callee, args) =>
        (match Syntax.IsPrimitive(callee)
         case Err(m) => Err(m)
         case Ok(primitive) =>
           Atomize(callee, (c: Node, m: nat) =>
             AtomizeStar(args, (xs: seq<Node>, m': nat) =>
               Ok(Out(if primitive then KCall(k, Call(c, xs)) else Call(c, [k] + xs), m')), m, fuel - 1), next, fuel - 1))
      case Conditional(t, c, a) =>
        BindContinuation(k, (k': Node, m: nat) =>
          Atomize(t, (t': Node, m': nat) => CpsBranches(t', c, a, k', m', fuel - 1), m, fuel - 1), next)
      case FunctionExpr(id, params, body) =>
        (match CpsFunction(id, params, body, next, fuel - 1)
         case Err(m) => Err(m)
         case Ok(Out(f, next')) => Ok(Out(KCall(k, f), next')))
      case Logical(op, l, r) =>
        Atomize(l, (l': Node, m: nat) =>
          if op == "||" then CpsBranches(l', l', r, k, m, fuel - 1)
          else if op == "&&" then CpsBranches(l', r, l', k, m, fuel - 1)
          else Err("cps: unhandled logical operator " + op), next, fuel - 1)
      case Member(o, p, computed) =>
        Atomize(o, (o': Node, m: nat) =>
          Atomize(p, (p': Node, m': nat) => Ok(Out(KCall(k, Member(o', p', computed)), m')), m, fuel - 1), next, fuel - 1)
      case ObjectExpr(ps) =>
        if exists j :: 0 <= j < |ps| && !ps[j].Property? then Err("TypeError: property without a key")
        else
          var keys := seq(|ps|, j requires 0 <= j < |ps| => ps[j].key);
          var values := seq(|ps|, j requires 0 <= j < |ps| => ps[j].value);
          AtomizeStar(values, (vs: seq<Node>, m: nat) => Ok(Out(KCall(k, ObjectExpr(Zip(keys, vs))), m)), next, fuel - 1)
      case Unary(op, a) =>
        Atomize(a, (a': Node, m: nat) => Ok(Out(KCall(k, Unary(op, a')), m)), next, fuel - 1)
      case _ => Err("can't cps")
  }

  /** `test ? cps(consequent, k) : cps(alternate, k)`, the consequent put in CPS first. */
  function CpsBranches(t: Node, c: Node, a: Node, k: Node, next: nat, fuel: nat): Result<Out>
    decreases fuel
  {
    if fuel == 0 then Err(OutOfFuel)
    else
      match Cps(c, k, next, fuel - 1)
      case Err(m) => Err(m)
      case Ok(Out(c', next')) =>
        match Cps(a, k, next', fuel - 1)
        case Err(m) => Err(m)
        case Ok(Out(a', next'')) => Ok(Out(Conditional(t, c', a'), next''))
  }

  /**
   * `cpsDeclarations(declarations, i, metaK)`: the initial values from
   * declarator i on, each bound to its name by a continuation; a function
   * value takes the declared name as its own.
   */
  function CpsDeclarations(ds: seq<Node>, i: nat, metaK: MetaName, next: nat, fuel: nat): Result<Out>
    decreases fuel
  {
    if fuel == 0 then Err(OutOfFuel)
    else if i >= |ds| || !ds[i].Declarator? then Err("expected declarator")
    else
      var id := ds[i].name;
      var init := if ds[i].init.FunctionExpr? then ds[i].init.(id := Some(id)) else ds[i].init;
      if i + 1 == |ds| then
        match metaK(id, next)
        case Err(m) => Err(m)
        case Ok(Out(c, next')) => Cps(init, c, next', fuel - 1)
      else
        match CpsDeclarations(ds, i + 1, metaK, next, fuel - 1)
        case Err(m) => Err(m)
        case Ok(Out(c, next')) => Cps(init, BuildFunction([id], c, None), next', fuel - 1)
  }

  /** `cps(identifier('undefined'), k)`. */
  function CpsUndefined(k: Node, next: nat): Result<Out> {
    Ok(Out(KCall(k, Identifier("undefined")), next))
  }

  /** The `if` clause of `cpsSequence`: both branches must be blocks. */
  function CpsIf(t: Node, c: Node, e: Option<Node>, k: Node, next: nat, fuel: nat): Result<Out>
    decreases fuel
  {
    if fuel == 0 then Err(OutOfFuel)
    else if !c.Block? || e.None? || !e.value.Block? then Err("TypeError: Cannot read property 'length' of undefined")
    else
      BindContinuation(k, (k': Node, m: nat) =>
        Atomize(t, (t': Node, m': nat) =>
          match CpsSequence(c.body, 0, k', m', fuel - 1)
          case Err(msg) => Err(msg)
          case Ok(Out(c', m'')) =>
            match CpsSequence(e.value.body, 0, k', m'', fuel - 1)
            case Err(msg) => Err(msg)
            case Ok(Out(e', m''')) => Ok(Out(Conditional(t', c', e'), m''')), m, fuel - 1), next)
  }

  /** `cpsSequence(nodes, i, k)`: the statements from i on in CPS, ending in k. */
  function CpsSequence(nodes: seq<Node>, i: nat, k: Node, next: nat, fuel: nat): Result<Out>
    requires i <= |nodes|
    decreases fuel
  {
    if fuel == 0 then Err(OutOfFuel)
    else if i == |nodes| then CpsUndefined(k, next)
    else
      var last := i + 1 == |nodes|;
      match nodes[i]
      case Block(body) =>
        if last then CpsSequence(body, 0, k, next, fuel - 1)
        else
          var dummy := Fresh("dummy", next);
          (match CpsSequence(nodes, i + 1, k, next + 1, fuel - 1)
           case Err(m) => Err(m)
           case Ok(Out(rest, next')) => CpsSequence(body, 0, BuildFunction([dummy], rest, None), next', fuel - 1))
      case Empty =>
        if last then CpsUndefined(k, next) else CpsSequence(nodes, i + 1, k, next, fuel - 1)
      case ExpressionStmt(e) =>
        if last then Cps(e, k, next, fuel - 1)
        else
          var dummy := Fresh("dummy", next);
          (match CpsSequence(nodes, i + 1, k, next + 1, fuel - 1)
           case Err(m) => Err(m)
           case Ok(Out(rest, next')) => Cps(e, BuildFunction([dummy], rest, None), next', fuel - 1))
      case If(t, c, e) => CpsIf(t, c, e, k, next, fuel - 1)
      case Return(a) => Cps(a, k, next, fuel - 1)
      case VarDecl(ds) =>
        CpsDeclarations(ds, 0, (id: string, m: nat) =>
          match CpsSequence(nodes, i + 1, k, m, fuel - 1)
          case Err(msg) => Err(msg)
          case Ok(Out(rest, m')) => Ok(Out(BuildFunction([id], rest, None), m')), next, fuel - 1)
      case _ => if last then Err("last one") else Err("unknown deal")
  }

  /** The function of `cpsMain`: a function expression is put in CPS, anything else is rejected. */
  function CpsTopFunction(e: Node, fuel: nat): Result<Node> {
    if e.FunctionExpr? then
      match CpsFunction(e.id, e.params, e.body, 0, fuel)
      case Err(m) => Err(m)
      case Ok(o) => Ok(o.node)
    else Err("cps: expected FunctionExpression")
  }

  /** `cpsMain(node)`: a program holding one function expression, that function in CPS, names counted from zero. */
  function CpsMain(n: Node, fuel: nat): Result<Node> {
    Syntax.InProgram((e: Node) => CpsTopFunction(e, fuel), Some(Err("cps: inProgram")), n)
  }

  /** A name or a literal: the expressions every rule passes on unchanged. */
  predicate Atom(n: Node) {
    n.Identifier? || n.Literal?
  }

  /** A name or a literal is passed to the continuation: `k(node)`. */
  lemma {:induction false} CpsOfAtom(n: Node, k: Node, next: nat, fuel: nat)
    requires Atom(n) && fuel >= 1
    ensures Cps(n, k, next, fuel) == Ok(Out(Call(k, [n]), next))
  {
  }

  /** An atomic expression that is not a function is handed to the meta-continuation as it is. */
  lemma {:induction false} AtomizeAtomic(n: Node, metaK: MetaK, next: nat, fuel: nat)
    requires IsAtomic(n) == Ok(true) && !n.FunctionExpr? && fuel >= 1
    ensures Atomize(n, metaK, next, fuel) == metaK(n, next)
  {
  }

  /** Atomising a list of names and literals hands that same list, in order, to the meta-continuation. */
  lemma {:induction false} AtomizeFromAtoms(es: seq<Node>, i: nat, metaK: MetaKs, next: nat, fuel: nat)
    requires i <= |es| && forall j :: 0 <= j < |es| ==> Atom(es[j])
    requires fuel >= 2 * (|es| - i) + 1
    ensures AtomizeFrom(es, i, metaK, next, fuel) == metaK(es, next)
    decreases |es| - i
  {
    if i < |es| {
      forall mk: MetaK
        ensures Atomize(es[i], mk, next, fuel - 1) == mk(es[i], next)
      {
        AtomizeAtomic(es[i], mk, next, fuel - 1);
      }
      assert es[i := es[i]] == es;
      AtomizeFromAtoms(es, i + 1, metaK, next, fuel - 1);
    }
  }

  /** `atomizeStar` keeps names and literals in their order and draws no fresh name for them. */
  lemma {:induction false} AtomizeStarAtoms(es: seq<Node>, metaK: MetaKs, next: nat, fuel: nat)
    requires forall j :: 0 <= j < |es| ==> Atom(es[j])
    requires fuel >= 2 * |es| + 2
    ensures AtomizeStar(es, metaK, next, fuel) == metaK(es, next)
  {
    AtomizeFromAtoms(es, 0, metaK, next, fuel - 1);
  }

  /**
   * A call on names and literals: a primitive callee gives `k(callee(args))`,
   * a compound one `callee(k, args)`.
   */
  lemma {:induction false} CallRule(callee: Node, args: seq<Node>, k: Node, next: nat, fuel: nat)
    requires callee.Identifier? || (callee.Member? && Atom(callee.obj) && Atom(callee.property))
    requires forall j :: 0 <= j < |args| ==> Atom(args[j])
    requires fuel >= 2 * |args| + 4
    ensures callee.Identifier? ==> Cps(Call(callee, args), k, next, fuel) == Ok(Out(Call(callee, [k] + args), next))
    ensures callee.Member? && callee.obj.Identifier? ==>
      Cps(Call(callee, args), k, next, fuel) == Ok(Out(Call(k, [Call(callee, args)]), next))
  {
    forall mk: MetaK
      ensures Atomize(callee, mk, next, fuel - 1) == mk(callee, next)
    {
      AtomizeAtomic(callee, mk, next, fuel - 1);
    }
    forall mk: MetaKs
      ensures AtomizeStar(args, mk, next, fuel - 1) == mk(args, next)
    {
      AtomizeStarAtoms(args, mk, next, fuel - 1);
    }
    var primitive := callee.Member? && callee.obj.Identifier?;
    if callee.Identifier? || callee.obj.Identifier? {
      assert Syntax.IsPrimitive(callee) == Ok(primitive);
      var l2 := (xs: seq<Node>, m': nat) => Ok(Out(if primitive then KCall(k, Call(callee, xs)) else Call(callee, [k] + xs), m'));
      var l1 := (c: Node, m: nat) =>
        AtomizeStar(args, (xs: seq<Node>, m': nat) =>
          Ok(Out(if primitive then KCall(k, Call(c, xs)) else Call(c, [k] + xs), m')), m, fuel - 1);
      assert Cps(Call(callee, args), k, next, fuel) == Atomize(callee, l1, next, fuel - 1);
      assert l1(callee, next) == AtomizeStar(args, l2, next, fuel - 1);
      assert Atomize(callee, l1, next, fuel - 1) == l1(callee, next);
      assert AtomizeStar(args, l2, next, fuel - 1) == l2(args, next);
      assert l2(args, next) == Ok(Out(if primitive then KCall(k, Call(callee, args)) else Call(callee, [k] + args), next));
    }
  }

  /** `a || b` on names and literals becomes `a ? k(a) : k(b)`; `a && b` becomes `a ? k(b) : k(a)`; other operators are rejected. */
  lemma {:induction false} LogicalRule(op: string, a: Node, b: Node, k: Node, next: nat, fuel: nat)
    requires Atom(a) && Atom(b) && fuel >= 3
    ensures op == "||" ==> Cps(Logical(op, a, b), k, next, fuel) == Ok(Out(Conditional(a, Call(k, [a]), Call(k, [b])), next))
    ensures op == "&&" ==> Cps(Logical(op, a, b), k, next, fuel) == Ok(Out(Conditional(a, Call(k, [b]), Call(k, [a])), next))
    ensures op != "||" && op != "&&" ==> Cps(Logical(op, a, b), k, next, fuel).Err?
  {
    forall mk: MetaK
      ensures Atomize(a, mk, next, fuel - 1) == mk(a, next)
    {
      AtomizeAtomic(a, mk, next, fuel - 1);
    }
    CpsOfAtom(a, k, next, fuel - 2);
    CpsOfAtom(b, k, next, fuel - 2);
    if op == "||" {
      assert CpsBranches(a, a, b, k, next, fuel - 1) == Ok(Out(Conditional(a, Call(k, [a]), Call(k, [b])), next));
    } else if op == "&&" {
      assert CpsBranches(a, b, a, k, next, fuel - 1) == Ok(Out(Conditional(a, Call(k, [b]), Call(k, [a])), next));
    }
  }

  /**
   * A conditional on names and literals calls the continuation in both
   * branches through one name: k itself when it is a name, otherwise a fresh
   * name bound to k once.
   */
  lemma {:induction false} ConditionalRule(t: Node, c: Node, a: Node, k: Node, next: nat, fuel: nat)
    requires Atom(t) && Atom(c) && Atom(a) && fuel >= 3
    ensures k.Identifier? ==> Cps(Conditional(t, c, a), k, next, fuel) == Ok(Out(Conditional(t, Call(k, [c]), Call(k, [a])), next))
    ensures !k.Identifier? ==>
      var k0 := Identifier(Fresh("k", next));
      Cps(Conditional(t, c, a), k, next, fuel) ==
        Ok(Out(Call(FunctionExpr(None, [k0.name], [ExpressionStmt(Conditional(t, Call(k0, [c]), Call(k0, [a])))]), [k]), next + 1))
  {
    forall mk: MetaK, m: nat
      ensures Atomize(t, mk, m, fuel - 1) == mk(t, m)
    {
      AtomizeAtomic(t, mk, m, fuel - 1);
    }
    forall k': Node, m: nat
      ensures CpsBranches(t, c, a, k', m, fuel - 1) == Ok(Out(Conditional(t, Call(k', [c]), Call(k', [a])), m))
    {
      CpsOfAtom(c, k', m, fuel - 2);
      CpsOfAtom(a, k', m, fuel - 2);
    }
    var l := (k': Node, m: nat) =>
      Atomize(t, (t': Node, m': nat) => CpsBranches(t', c, a, k', m', fuel - 1), m, fuel - 1);
    assert Cps(Conditional(t, c, a), k, next, fuel) == BindContinuation(k, l, next);
    if !k.Identifier? {
      var k0 := Identifier(Fresh("k", next));
      assert l(k0, next + 1) == Ok(Out(Conditional(t, Call(k0, [c]), Call(k0, [a])), next + 1));
    } else {
      assert l(k, next) == Ok(Out(Conditional(t, Call(k, [c]), Call(k, [a])), next));
    }
  }

  /** `cpsFunction` puts a continuation parameter with a fresh name in front of the parameters and keeps the name of the function. */
  lemma {:induction false} CpsFunctionShape(id: Option<string>, params: seq<string>, body: seq<Node>, n: nat, fuel: nat)
    requires CpsFunction(id, params, body, n, fuel).Ok?
    ensures var f := CpsFunction(id, params, body, n, fuel).value.node;
      && f.FunctionExpr? && f.id == id && f.params == [Fresh("k", n)] + params
      && |f.body| == 1 && f.body[0].ExpressionStmt?
  {
  }

  /** An empty statement list passes `undefined` to the continuation. */
  lemma {:induction false} EmptySequence(k: Node, next: nat, fuel: nat)
    requires fuel >= 1
    ensures CpsSequence([], 0, k, next, fuel) == Ok(Out(Call(k, [Identifier("undefined")]), next))
  {
  }
}
