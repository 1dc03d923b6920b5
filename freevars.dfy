/**
 * `freeVars(node)`: the names a program mentions, in the order they appear.
 * A `bound` list of declared names is threaded through, but it is never
 * consulted, so every name is reported, bound or not.
 */
module FreeVars {
  import opened Wrappers
  import opened JsAst

  /** Two results in order: the first error, or both lists one after the other. */
  function Then(a: Result<seq<string>>, b: Result<seq<string>>): (r: Result<seq<string>>)
    ensures a.Err? ==> r == a
    ensures a.Ok? && b.Err? ==> r == b
    ensures a.Ok? && b.Ok? ==> r == Ok(a.value + b.value)
  {
    if a.Err? then a else if b.Err? then b else Ok(a.value + b.value)
  }

  /** Nothing in front of a result leaves it as it is. */
  lemma {:induction false} ThenOkEmpty(b: Result<seq<string>>)
    ensures Then(Ok([]), b) == b
  {
    if b.Ok? {
      assert [] + b.value == b.value;
    }
  }

  /** Two lists in front of a result can be joined first. */
  lemma {:induction false} ThenAssociates(x: seq<string>, y: seq<string>, b: Result<seq<string>>)
    ensures Then(Ok(x), Then(Ok(y), b)) == Then(Ok(x + y), b)
  {
    if b.Ok? {
      assert x + (y + b.value) == (x + y) + b.value;
    }
  }

  /** The name a statement adds to `boundInSeq`: the first declarator's, for a declaration. */
  function Declared(s: Node): seq<string> {
    if s.VarDecl? && |s.declarations| > 0 && s.declarations[0].Declarator? then [s.declarations[0].name] else []
  }

  /** `freeVars(node, bound)`. */
  function FreeVars(n: Node, bound: seq<string>): Result<seq<string>>
    decreases Size(n), 0
  {
    match n
    case Block(body) => FreeVarsOfSeq(body, bound)
    case Program(body) => FreeVarsOfSeq(body, bound)
    case Return(a) => FreeVars(a, bound)
    case ExpressionStmt(e) => FreeVars(e, bound)
    case Identifier(x) => Ok([x])
    case Literal(_) => Ok([])
    case Empty => Ok([])
    case FunctionExpr(_, params, body) => FreeVarsOfSeq(body, bound + params)
    case VarDecl(ds) =>
      if |ds| == 0 then Err("TypeError: Cannot read property 'init' of undefined")
      else
        (match ds[0]
         case Declarator(x, init) => FreeVars(init, bound + [x])
         case _ => Err("freeVars: unknown node type: " + Kind(ds[0])))
    case Call(callee, args) => Then(FreeVars(callee, bound), FreeVarsOfAll(args, bound))
    case Conditional(t, c, a) => Then(FreeVars(t, bound), Then(FreeVars(c, bound), FreeVars(a, bound)))
    case ArrayExpr(es) => FreeVarsOfAll(es, bound)
    case Member(_, _, _) => Ok([])
    case _ => Err("freeVars: unknown node type: " + Kind(n))
  }

  /** The `_.map` over a node's children, all with the same `bound`, flattened. */
  function FreeVarsOfAll(es: seq<Node>, bound: seq<string>): Result<seq<string>>
    decreases SizeSeq(es), 1
  {
    if es == [] then Ok([])
    else
      SizeSeqTail(es);
      Then(FreeVars(es[0], bound), FreeVarsOfAll(es[1..], bound))
  }

  /** What `freeVarsSeq(nodes, bound)` computes: each statement in turn, with the names declared before it added to `bound`. */
  function FreeVarsOfSeq(ss: seq<Node>, bound: seq<string>): Result<seq<string>>
    decreases SizeSeq(ss), 1
  {
    if ss == [] then Ok([])
    else
      SizeSeqTail(ss);
      Then(FreeVars(ss[0], bound), FreeVarsOfSeq(ss[1..], bound + Declared(ss[0])))
  }

  /** `freeVarsTop(node)`: `freeVars` with nothing bound. */
  function FreeVarsTop(n: Node): Result<seq<string>> {
    FreeVars(n, [])
  }

  /**
   * `freeVarsSeq(nodes, bound)`: the loop that concatenates each statement's
   * names and pushes the name of each declaration onto its copy of `bound`.
   */
  method FreeVarsSeq(nodes: seq<Node>, bound: seq<string>) returns (r: Result<seq<string>>)
    ensures r == FreeVarsOfSeq(nodes, bound)
  {
    var boundInSeq := bound;
    var freeInSeq: seq<string> := [];
    var i := 0;
    assert nodes[0..] == nodes;
    ThenOkEmpty(FreeVarsOfSeq(nodes, bound));
    while i < |nodes|
      invariant 0 <= i <= |nodes|
      invariant Then(Ok(freeInSeq), FreeVarsOfSeq(nodes[i..], boundInSeq)) == FreeVarsOfSeq(nodes, bound)
    {
      assert nodes[i..][0] == nodes[i] && nodes[i..][1..] == nodes[i + 1..];
      var v := FreeVars(nodes[i], boundInSeq);
      if v.Err? {
        return v;
      }
      ThenAssociates(freeInSeq, v.value, FreeVarsOfSeq(nodes[i + 1..], boundInSeq + Declared(nodes[i])));
      freeInSeq := freeInSeq + v.value;
      if nodes[i].VarDecl? {
        boundInSeq := boundInSeq + Declared(nodes[i]);
      } else {
        assert boundInSeq + Declared(nodes[i]) == boundInSeq;
      }
      i := i + 1;
    }
    assert nodes[i..] == [];
    assert freeInSeq + [] == freeInSeq;
    return Ok(freeInSeq);
  }

  /** A name is reported whether or not it is bound. */
  lemma {:induction false} IdentifierAlwaysFree(x: string, bound: seq<string>)
    requires x in bound
    ensures FreeVars(Identifier(x), bound) == Ok([x])
  {
  }

  /** The `bound` list never changes the result. */
  lemma {:induction false} BoundIgnored(n: Node, b1: seq<string>, b2: seq<string>)
    ensures FreeVars(n, b1) == FreeVars(n, b2)
    decreases Size(n), 0
  {
    match n
    case Block(body) => SeqBoundIgnored(body, b1, b2);
    case Program(body) => SeqBoundIgnored(body, b1, b2);
    case Return(a) => BoundIgnored(a, b1, b2);
    case ExpressionStmt(e) => BoundIgnored(e, b1, b2);
    case FunctionExpr(_, params, body) => SeqBoundIgnored(body, b1 + params, b2 + params);
    case VarDecl(ds) => DeclBoundIgnored(ds, b1, b2);
    case Call(callee, args) => CallBoundIgnored(callee, args, b1, b2);
    case Conditional(t, c, a) => ConditionalBoundIgnored(t, c, a, b1, b2);
    case ArrayExpr(es) => AllBoundIgnored(es, b1, b2);
    case _ => OthersIgnoreBound(n, b1, b2);
  }

  /** The remaining kinds give a result that does not mention the bound names at all. */
  lemma {:induction false} OthersIgnoreBound(n: Node, b1: seq<string>, b2: seq<string>)
    requires !(n.Block? || n.Program? || n.Return? || n.ExpressionStmt? || n.FunctionExpr?)
    requires !(n.VarDecl? || n.Call? || n.Conditional? || n.ArrayExpr?)
    ensures FreeVars(n, b1) == FreeVars(n, b2)
  {
    if n.Identifier? {
      assert FreeVars(n, b1) == Ok([n.name]) == FreeVars(n, b2);
    } else if n.Literal? || n.Empty? || n.Member? {
      assert FreeVars(n, b1) == Ok([]) == FreeVars(n, b2);
    } else {
      assert FreeVars(n, b1) == Err("freeVars: unknown node type: " + Kind(n)) == FreeVars(n, b2);
    }
  }

  lemma {:induction false} DeclBoundIgnored(ds: seq<Node>, b1: seq<string>, b2: seq<string>)
    ensures FreeVars(VarDecl(ds), b1) == FreeVars(VarDecl(ds), b2)
    decreases SizeSeq(ds), 2
  {
    if |ds| > 0 && ds[0].Declarator? {
      BoundIgnored(ds[0].init, b1 + [ds[0].name], b2 + [ds[0].name]);
    }
  }

  lemma {:induction false} CallBoundIgnored(callee: Node, args: seq<Node>, b1: seq<string>, b2: seq<string>)
    ensures FreeVars(Call(callee, args), b1) == FreeVars(Call(callee, args), b2)
    decreases Size(callee) + SizeSeq(args), 2
  {
    BoundIgnored(callee, b1, b2);
    AllBoundIgnored(args, b1, b2);
  }

  lemma {:induction false} ConditionalBoundIgnored(t: Node, c: Node, a: Node, b1: seq<string>, b2: seq<string>)
    ensures FreeVars(Conditional(t, c, a), b1) == FreeVars(Conditional(t, c, a), b2)
    decreases Size(t) + Size(c) + Size(a), 2
  {
    BoundIgnored(t, b1, b2);
    BoundIgnored(c, b1, b2);
    BoundIgnored(a, b1, b2);
  }

  lemma {:induction false} AllBoundIgnored(es: seq<Node>, b1: seq<string>, b2: seq<string>)
    ensures FreeVarsOfAll(es, b1) == FreeVarsOfAll(es, b2)
    decreases SizeSeq(es), 1
  {
    if es != [] {
      SizeSeqTail(es);
      BoundIgnored(es[0], b1, b2);
      AllBoundIgnored(es[1..], b1, b2);
    }
  }

  lemma {:induction false} SeqBoundIgnored(ss: seq<Node>, b1: seq<string>, b2: seq<string>)
    ensures FreeVarsOfSeq(ss, b1) == FreeVarsOfSeq(ss, b2)
    decreases SizeSeq(ss), 1
  {
    if ss != [] {
      SizeSeqTail(ss);
      BoundIgnored(ss[0], b1, b2);
      SeqBoundIgnored(ss[1..], b1 + Declared(ss[0]), b2 + Declared(ss[0]));
    }
  }

  /** Since nothing is looked up in `bound`, a statement list gives what its statements give one after the other. */
  lemma {:induction false} SeqIsConcatenation(ss: seq<Node>, bound: seq<string>)
    ensures FreeVarsOfSeq(ss, bound) == FreeVarsOfAll(ss, bound)
    decreases |ss|
  {
    if ss != [] {
      SeqBoundIgnored(ss[1..], bound + Declared(ss[0]), bound);
      SeqIsConcatenation(ss[1..], bound);
    }
  }

  /** Every name of an Identifier in the tree, in any position. */
  function Mentions(n: Node): set<string>
    decreases Size(n), 0
  {
    match n
    case Identifier(x) => {x}
    case FunctionExpr(_, _, body) => MentionsOfAll(body)
    case Call(callee, args) => Mentions(callee) + MentionsOfAll(args)
    case Member(o, p, _) => Mentions(o) + Mentions(p)
    case Unary(_, a) => Mentions(a)
    case Binary(_, l, r) => Mentions(l) + Mentions(r)
    case Logical(_, l, r) => Mentions(l) + Mentions(r)
    case Conditional(t, c, a) => Mentions(t) + Mentions(c) + Mentions(a)
    case ArrayExpr(es) => MentionsOfAll(es)
    case ObjectExpr(ps) => MentionsOfAll(ps)
    case Property(k, v) => Mentions(k) + Mentions(v)
    case Assignment(_, l, r) => Mentions(l) + Mentions(r)
    case Program(body) => MentionsOfAll(body)
    case Block(body) => MentionsOfAll(body)
    case ExpressionStmt(e) => Mentions(e)
    case Return(a) => Mentions(a)
    case If(t, c, e) => Mentions(t) + Mentions(c) + (if e.Some? then Mentions(e.value) else {})
    case VarDecl(ds) => MentionsOfAll(ds)
    case Declarator(_, init) => Mentions(init)
    case _ => {}
  }

  function MentionsOfAll(ns: seq<Node>): set<string>
    decreases SizeSeq(ns), 1
  {
    if ns == [] then {} else SizeSeqTail(ns); Mentions(ns[0]) + MentionsOfAll(ns[1..])
  }

  /** Every name reported occurs in the tree as an Identifier. */
  lemma {:induction false} ReportedAreMentioned(n: Node, bound: seq<string>)
    requires FreeVars(n, bound).Ok?
    ensures forall x :: x in FreeVars(n, bound).value ==> x in Mentions(n)
    decreases Size(n), 0
  {
    match n
    case Block(body) => SeqReportedAreMentioned(body, bound);
    case Program(body) => SeqReportedAreMentioned(body, bound);
    case Return(a) => ReportedAreMentioned(a, bound);
    case ExpressionStmt(e) => ReportedAreMentioned(e, bound);
    case FunctionExpr(_, params, body) => SeqReportedAreMentioned(body, bound + params);
    case VarDecl(ds) => DeclReportedAreMentioned(ds, bound);
    case Call(callee, args) => CallReportedAreMentioned(callee, args, bound);
    case Conditional(t, c, a) => ConditionalReportedAreMentioned(t, c, a, bound);
    case ArrayExpr(es) => AllReportedAreMentioned(es, bound);
    case _ =>
  }

  lemma {:induction false} DeclReportedAreMentioned(ds: seq<Node>, bound: seq<string>)
    requires FreeVars(VarDecl(ds), bound).Ok?
    ensures forall x :: x in FreeVars(VarDecl(ds), bound).value ==> x in Mentions(VarDecl(ds))
    decreases SizeSeq(ds), 2
  {
    ReportedAreMentioned(ds[0].init, bound + [ds[0].name]);
    assert MentionsOfAll(ds) == Mentions(ds[0]) + MentionsOfAll(ds[1..]);
  }

  lemma {:induction false} CallReportedAreMentioned(callee: Node, args: seq<Node>, bound: seq<string>)
    requires FreeVars(Call(callee, args), bound).Ok?
    ensures forall x :: x in FreeVars(Call(callee, args), bound).value ==> x in Mentions(Call(callee, args))
    decreases Size(callee) + SizeSeq(args), 2
  {
    ReportedAreMentioned(callee, bound);
    AllReportedAreMentioned(args, bound);
  }

  lemma {:induction false} ConditionalReportedAreMentioned(t: Node, c: Node, a: Node, bound: seq<string>)
    requires FreeVars(Conditional(t, c, a), bound).Ok?
    ensures forall x :: x in FreeVars(Conditional(t, c, a), bound).value ==> x in Mentions(Conditional(t, c, a))
    decreases Size(t) + Size(c) + Size(a), 2
  {
    ReportedAreMentioned(t, bound);
    ReportedAreMentioned(c, bound);
    ReportedAreMentioned(a, bound);
  }

  lemma {:induction false} AllReportedAreMentioned(es: seq<Node>, bound: seq<string>)
    requires FreeVarsOfAll(es, bound).Ok?
    ensures forall x :: x in FreeVarsOfAll(es, bound).value ==> x in MentionsOfAll(es)
    decreases SizeSeq(es), 1
  {
    if es != [] {
      SizeSeqTail(es);
      ReportedAreMentioned(es[0], bound);
      AllReportedAreMentioned(es[1..], bound);
    }
  }

  lemma {:induction false} SeqReportedAreMentioned(ss: seq<Node>, bound: seq<string>)
    requires FreeVarsOfSeq(ss, bound).Ok?
    ensures forall x :: x in FreeVarsOfSeq(ss, bound).value ==> x in MentionsOfAll(ss)
    decreases SizeSeq(ss), 1
  {
    if ss != [] {
      SizeSeqTail(ss);
      ReportedAreMentioned(ss[0], bound);
      SeqReportedAreMentioned(ss[1..], bound + Declared(ss[0]));
    }
  }

  /** A list of lists, one after the other (`_.flatten` one level deep). */
  function Flatten(xs: seq<seq<string>>): seq<string> {
    if xs == [] then [] else xs[0] + Flatten(xs[1..])
  }

  /** The value of a result, or nothing for an error. */
  function ValueOr(r: Result<seq<string>>): seq<string> {
    if r.Ok? then r.value else []
  }

  /**
   * For children, mapping `freeVars` over them and flattening: it succeeds
   * exactly when every child does, and gives the lists of the children in
   * order.
   */
  lemma {:induction false} MapThenFlatten(es: seq<Node>, bound: seq<string>)
    ensures FreeVarsOfAll(es, bound).Ok? <==> forall i :: 0 <= i < |es| ==> FreeVars(es[i], bound).Ok?
    ensures FreeVarsOfAll(es, bound).Ok? ==>
      FreeVarsOfAll(es, bound).value == Flatten(seq(|es|, (i: int) requires 0 <= i < |es| => ValueOr(FreeVars(es[i], bound))))
    decreases |es|
  {
    if es != [] {
      MapThenFlatten(es[1..], bound);
      var m := seq(|es|, (i: int) requires 0 <= i < |es| => ValueOr(FreeVars(es[i], bound)));
      var m' := seq(|es| - 1, (i: int) requires 0 <= i < |es| - 1 => ValueOr(FreeVars(es[1..][i], bound)));
      assert m[1..] == m';
      if FreeVars(es[0], bound).Ok? && !FreeVarsOfAll(es[1..], bound).Ok? {
        var j :| 0 <= j < |es| - 1 && !FreeVars(es[1..][j], bound).Ok?;
        assert !FreeVars(es[j + 1], bound).Ok?;
      }
    }
  }

  /** Kinds outside the handled ones, such as `if` statements and binary operators, are rejected. */
  lemma {:induction false} UnknownKinds(n: Node, bound: seq<string>)
    requires n.If? || n.Binary? || n.Unary? || n.Logical? || n.ObjectExpr? || n.Assignment?
    ensures FreeVars(n, bound) == Err("freeVars: unknown node type: " + Kind(n))
  {
  }
}
