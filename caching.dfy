/**
 * The caching transform for incremental MH: every call worth caching,
 * `f(args)`, becomes `incrementalize(f, [args])`. Calls of methods and of the
 * built-in random primitives are left alone.
 */
module Caching {
  import opened Wrappers
  import opened JsAst
  import Syntax

  /** The names in the `knownERPs` list. */
  const KnownErps: set<string> := {
    "flip", "randomInteger", "discrete", "gaussian", "uniform", "uniformDraw", "dirichlet",
    "poisson", "binomial", "beta", "exponential", "gamma", "factor"
  }

  /**
   * The properties every plain object inherits, whose values are functions
   * and therefore truthy: an index into the `knownERPs` object finds them as
   * well as its own keys.
   */
  const InheritedMembers: set<string> := {
    "constructor", "hasOwnProperty", "isPrototypeOf", "propertyIsEnumerable", "toLocaleString",
    "toString", "valueOf", "__defineGetter__", "__defineSetter__", "__lookupGetter__", "__lookupSetter__"
  }

  /** `shouldCache(callee)` as written: the table lookup `knownERPs[callee.name]` also finds inherited members. */
  function ShouldCacheAsWritten(callee: Node): (r: Result<bool>)
    ensures r.Err? <==> Syntax.IsPrimitive(callee).Err?
    ensures r == Ok(true) <==>
      Syntax.IsPrimitive(callee) == Ok(false) && !(callee.Identifier? && callee.name in KnownErps + InheritedMembers)
  {
    match Syntax.IsPrimitive(callee)
    case Err(m) => Err(m)
    case Ok(primitive) =>
      if primitive then Ok(false)
      else if callee.Identifier? && (callee.name in KnownErps || callee.name in InheritedMembers) then Ok(false)
      else Ok(true)
  }

  /** A function the program names `toString` is never cached. */
  lemma {:induction false} InheritedNameNotCached(name: string)
    requires name == "toString"
    ensures ShouldCacheAsWritten(Identifier(name)) == Ok(false)
    ensures name !in KnownErps
  {
  }

  /**
   * `shouldCache(callee)` as evidently intended: primitive callees and the
   * names listed in `knownERPs` are not cached; every other function or call
   * is. A node `isPrimitive` rejects is rejected here too.
   */
  function ShouldCache(callee: Node): (r: Result<bool>)
    ensures r.Err? <==> Syntax.IsPrimitive(callee).Err?
    ensures r == Ok(true) <==> Syntax.IsPrimitive(callee) == Ok(false) && !(callee.Identifier? && callee.name in KnownErps)
  {
    match Syntax.IsPrimitive(callee)
    case Err(m) => Err(m)
    case Ok(primitive) =>
      if primitive then Ok(false)
      else if callee.Identifier? && callee.name in KnownErps then Ok(false)
      else Ok(true)
  }

  /** The two agree on every callee that is not named after an inherited member. */
  lemma {:induction false} AgreesOffInherited(callee: Node)
    requires !(callee.Identifier? && callee.name in InheritedMembers)
    ensures ShouldCacheAsWritten(callee) == ShouldCache(callee)
  {
  }

  /** `factor` is one of the known primitives, so a call of it is not cached. */
  lemma {:induction false} FactorNotCached(name: string)
    requires name == "factor"
    ensures ShouldCache(Identifier(name)) == Ok(false)
  {
  }

  /** The name of the caching wrapper. */
  const Incrementalize := "incrementalize"

  /** `exit(node)`: a call to cache is wrapped; anything else is left as it is. */
  function Exit(n: Node): (r: Result<Node>)
    ensures n.Call? && ShouldCache(n.callee) == Ok(true) ==>
      r == Ok(Call(Identifier(Incrementalize), [n.callee, ArrayExpr(n.arguments)]))
    ensures n.Call? && ShouldCache(n.callee).Err? ==> r.Err?
    ensures !(n.Call? && ShouldCache(n.callee) != Ok(false)) ==> r == Ok(n)
  {
    match n
    case Call(callee, args) =>
      (match ShouldCache(callee)
       case Err(m) => Err(m)
       case Ok(cache) => if cache then Ok(Call(Identifier(Incrementalize), [callee, ArrayExpr(args)])) else Ok(n))
    case _ => Ok(n)
  }

  /** The call that `incrementalize(f, [args])` stands for, and any other node as it is. */
  function Unwrap(n: Node): Node {
    if n.Call? && n.callee == Identifier(Incrementalize) && |n.arguments| == 2 && n.arguments[1].ArrayExpr?
    then Call(n.arguments[0], n.arguments[1].elements)
    else n
  }

  /** Unwrapping what `exit` gives back recovers the node, cached or not. */
  lemma {:induction false} UnwrapExit(n: Node)
    requires Exit(n).Ok?
    requires !(n.Call? && n.callee == Identifier(Incrementalize) && |n.arguments| == 2 && n.arguments[1].ArrayExpr?)
    ensures Unwrap(Exit(n).value) == n
  {
  }

  /** A cached call keeps its callee and its arguments, in order, inside the wrapper. */
  lemma {:induction false} CachedCallKeepsParts(callee: Node, args: seq<Node>)
    requires ShouldCache(callee) == Ok(true)
    ensures var r := Exit(Call(callee, args)).value;
      && r.callee == Identifier(Incrementalize) && r.arguments[0] == callee && r.arguments[1].elements == args
  {
  }
}
