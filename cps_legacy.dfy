/**
 * The first version of the WebPPL CPS compiler. Continuations here are syntax:
 * `cps(node, cont)` gets the continuation as an expression node and gives back
 * a new tree in which every value is passed to it. Fresh names come from a
 * counter threaded through the transform, in the order `cps` draws them.
 *
 * `cpsSequence` is one recursion shared by several rules. Each rule supplies
 * its own final step, so the final step is a value of the `Final` datatype.
 */
module CpsLegacy {
  import opened Wrappers
  import opened JsAst
  import opened JsString

  /** An output node and the next free name number. */
  datatype Out = Out(node: Node, next: nat)

  /** The final step a rule gives `cpsSequence`, with the values it needs. */
  datatype Final =
    | BlockEnd(cont: Node)
    | PrimitiveEnd(op: Node, cont: Node)
    | CompoundEnd(cont: Node)
    | UnaryEnd(unaryOp: string, cont: Node)
    | BinaryEnd(binaryOp: string, cont: Node)
    | ArrayEnd(cont: Node)

  /** A recursion that never ends; the JavaScript engine stops it when the call stack runs out. */
  const StackOverflow := "RangeError: Maximum call stack size exceeded"

  /** `makeGensymVariable(name)` when the counter is at n. */
  function Gensym(name: string, n: nat): (r: string)
    ensures |r| > 1 + |name| && r[0] == '_' && r[1..1 + |name|] == name
  {
    "_" + name + NatToString(n)
  }

  /** The node kinds that are expressions for the AST library. */
  predicate IsExpression(n: Node) {
    n.Identifier? || n.Literal? || n.FunctionExpr? || n.Call? || n.Member? || n.Unary? || n.Binary?
    || n.Logical? || n.Conditional? || n.ArrayExpr? || n.ObjectExpr? || n.Assignment?
  }

  /** The node kinds that are statements for the AST library. */
  predicate IsStatement(n: Node) {
    n.Block? || n.ExpressionStmt? || n.Return? || n.If? || n.Empty? || n.VarDecl?
  }

  /** `convertToStatement(node)`: an expression is wrapped in a statement, and a node that is neither is rejected. */
  function ConvertToStatement(n: Node): (r: Result<Node>)
    ensures IsStatement(n) ==> r == Ok(n)
    ensures IsExpression(n) ==> r == Ok(ExpressionStmt(n))
    ensures r.Err? <==> !IsStatement(n) && !IsExpression(n)
  {
    if IsStatement(n) then Ok(n)
    else if IsExpression(n) then Ok(ExpressionStmt(n))
    else Err("convertToStatement: can't handle node type: " + Kind(n))
  }

  /** What `convertToStatement` accepts comes back a statement, which it then leaves alone. */
  lemma {:induction false} ConvertToStatementIdempotent(n: Node)
    ensures ConvertToStatement(n).Ok? ==> IsStatement(ConvertToStatement(n).value)
    ensures ConvertToStatement(n).Ok? ==> ConvertToStatement(ConvertToStatement(n).value) == ConvertToStatement(n)
  {
  }

  /**
   * `buildReturn(node)`. A statement other than a block, an expression
   * statement or a return calls `buildFunc([], node)`, which calls
   * `buildReturn(node)` again, without end.
   */
  function BuildReturn(n: Node): (r: Result<Node>)
    ensures r.Ok? ==> r.value.Return?
    ensures r.Err? <==> !n.ExpressionStmt? && !IsExpression(n) && !n.Return? && !n.Block?
  {
    if n.ExpressionStmt? then Ok(Return(n.expression))
    else if IsExpression(n) then Ok(Return(n))
    else if n.Return? then Ok(n)
    else if n.Block? then Ok(Return(Call(FunctionExpr(None, [], n.body), [])))
    else Err(StackOverflow)
  }

  /** `buildFunc(args, body)`: an anonymous function whose block is `body`, or a return of it. */
  function BuildFunc(args: seq<string>, body: Node): (r: Result<Node>)
    ensures r.Ok? ==> r.value.FunctionExpr? && r.value.id.None? && r.value.params == args
    ensures body.Block? ==> r == Ok(FunctionExpr(None, args, body.body))
    ensures IsExpression(body) ==> r == Ok(FunctionExpr(None, args, [Return(body)]))
  {
    if body.Block? then Ok(FunctionExpr(None, args, body.body))
    else
      match BuildReturn(body)
      case Ok(ret) => Ok(FunctionExpr(None, args, [ret]))
      case Err(m) => Err(m)
  }

  /** Whether `cpsSequence` has reached the point where the rule's final step runs. */
  predicate AtFinal(f: Final, nodes: seq<Node>) {
    if f.BlockEnd? then |nodes| == 1 else |nodes| == 0
  }

  /**
   * `cpsAtomic(node)`. A function gets a fresh continuation parameter in
   * front of its own and its body put in CPS with that continuation.
   * Names and literals stay as they are; anything else is rejected.
   */
  function CpsAtomic(node: Node, n: nat): (r: Result<Out>)
    ensures r.Ok? ==> r.value.next >= n
    decreases Size(node), 0
  {
    match node
    case FunctionExpr(_, params, body) =>
      var k := Gensym("k", n);
      (match CpsSequence(BlockEnd(Identifier(k)), body, [], n + 1)
       case Err(m) => Err(m)
       case Ok(Out(b, next)) =>
         match BuildFunc([k] + params, b)
         case Err(m) => Err(m)
         case Ok(f) => Ok(Out(f, next)))
    case Identifier(_) => Ok(Out(node, n))
    case Literal(_) => Ok(Out(node, n))
    case _ => Err("cpsAtomic: unknown expression type: " + Kind(node))
  }

  /** The final step of each rule that uses `cpsSequence`, given the names bound to the values. */
  function Finish(f: Final, nodes: seq<Node>, vars: seq<Node>, n: nat): (r: Result<Out>)
    requires AtFinal(f, nodes)
    ensures r.Ok? ==> r.value.next >= n
    decreases SizeSeq(nodes), 3
  {
    match f
    case BlockEnd(cont) => Cps(nodes[0], cont, n)
    case PrimitiveEnd(op, cont) => Ok(Out(Call(cont, [Call(op, vars)]), n))
    case CompoundEnd(cont) =>
      if vars == [] then Err("callExpression: no callee")
      else Ok(Out(Call(vars[0], [cont] + vars[1..]), n))
    case UnaryEnd(op, cont) =>
      if vars == [] then Err("unaryExpression: no argument")
      else Ok(Out(Call(cont, [Unary(op, vars[0])]), n))
    case BinaryEnd(op, cont) =>
      if |vars| != 2 then Err("AssertionError")
      else Ok(Out(Call(cont, [Binary(op, vars[0], vars[1])]), n))
    case ArrayEnd(cont) => Ok(Out(Call(cont, [ArrayExpr(vars)]), n))
  }

  /**
   * `cpsSequence(atFinal, getFinal, nodes, vars)`. Each node is given a
   * fresh name in turn. The rest of the sequence is built inside a function
   * of that name, and the node is put in CPS with that function as its
   * continuation. A block reaches its final step at its last statement; an
   * empty block never does.
   */
  function CpsSequence(f: Final, nodes: seq<Node>, vars: seq<Node>, n: nat): (r: Result<Out>)
    ensures r.Ok? ==> r.value.next >= n
    decreases SizeSeq(nodes), 4
  {
    if AtFinal(f, nodes) then Finish(f, nodes, vars, n)
    else if nodes == [] then Err(StackOverflow)
    else
      var s := Gensym("s", n);
      SizeSeqTail(nodes);
      match CpsSequence(f, nodes[1..], vars + [Identifier(s)], n + 1)
      case Err(m) => Err(m)
      case Ok(Out(rest, n1)) =>
        match BuildFunc([s], rest)
        case Err(m) => Err(m)
        case Ok(fn) => Cps(nodes[0], fn, n1)
  }

  /** The list of one node and then some more has the size of both. */
  lemma {:induction false} SizeSeqCons(x: Node, xs: seq<Node>)
    ensures SizeSeq([x] + xs) == Size(x) + SizeSeq(xs)
  {
    assert ([x] + xs)[1..] == xs;
  }

  /**
   * `cpsVariableDeclaration(id, init, cont)`. A function is defined in
   * place, followed by `cont(undefined)`. Any other value is put in CPS with a
   * continuation that binds the name and then calls `cont(undefined)`.
   */
  function CpsVariableDeclaration(id: string, init: Node, cont: Node, n: nat): (r: Result<Out>)
    ensures r.Ok? ==> r.value.next >= n
    decreases Size(init), 3
  {
    var call := Call(cont, [Identifier("undefined")]);
    if init.FunctionExpr? then
      match CpsAtomic(init, n)
      case Err(m) => Err(m)
      case Ok(Out(f, next)) => Ok(Out(Block([VarDecl([Declarator(id, f)]), ExpressionStmt(call)]), next))
    else Cps(init, FunctionExpr(None, [id], [Return(call)]), n)
  }

  /**
   * `cpsConditional(test, consequent, alternate, cont)`: `cont` is bound once
   * to a fresh name by an applied function. Both branches pass their value
   * to that name.
   */
  function CpsConditional(t: Node, c: Node, a: Node, cont: Node, n: nat): (r: Result<Out>)
    ensures r.Ok? ==> r.value.next >= n + 2
    decreases Size(t) + Size(c) + Size(a), 1
  {
    var contName := Gensym("cont", n);
    var testName := Gensym("test", n + 1);
    match Cps(c, Identifier(contName), n + 2)
    case Err(m) => Err(m)
    case Ok(Out(rc, n1)) =>
      match Cps(a, Identifier(contName), n1)
      case Err(m) => Err(m)
      case Ok(Out(ra, n2)) =>
        match Cps(t, FunctionExpr(None, [testName], [Return(Conditional(Identifier(testName), rc, ra))]), n2)
        case Err(m) => Err(m)
        case Ok(Out(rt, n3)) =>
          match BuildFunc([contName], rt)
          case Err(m) => Err(m)
          case Ok(f) => Ok(Out(Call(f, [cont]), n3))
  }

  /**
   * `cpsIf(test, consequent, alternate, cont)`: as for a conditional, with an
   * `if` statement in a block. A missing `else` is `null`, which `cps` cannot
   * read. The AST library refuses to build an `if` whose branches are not
   * statements.
   */
  function CpsIf(t: Node, c: Node, e: Option<Node>, cont: Node, n: nat): (r: Result<Out>)
    ensures r.Ok? ==> r.value.next >= n + 2
    decreases Size(t) + Size(c) + (if e.Some? then Size(e.value) else 0), 1
  {
    var contName := Gensym("cont", n);
    var testName := Gensym("test", n + 1);
    match Cps(c, Identifier(contName), n + 2)
    case Err(m) => Err(m)
    case Ok(Out(rc, n1)) =>
      if e.None? then Err("TypeError: Cannot read property 'type' of null")
      else
        match Cps(e.value, Identifier(contName), n1)
        case Err(m) => Err(m)
        case Ok(Out(ra, n2)) =>
          if !IsStatement(rc) || !IsStatement(ra) then Err("ifStatement: branch is not a Statement")
          else
            match Cps(t, FunctionExpr(None, [testName], [If(Identifier(testName), rc, Some(ra))]), n2)
            case Err(m) => Err(m)
            case Ok(Out(rt, n3)) =>
              match BuildFunc([contName], rt)
              case Err(m) => Err(m)
              case Ok(f) => Ok(Out(Call(f, [cont]), n3))
  }

  /**
   * `cpsMemberExpression(obj, prop, computed, cont)`: the object is named.
   * A computed property is named too; a fixed property is kept as it is.
   */
  function CpsMember(o: Node, p: Node, computed: bool, cont: Node, n: nat): (r: Result<Out>)
    ensures r.Ok? ==> r.value.next >= n + 1
    decreases Size(o) + Size(p), 1
  {
    var objName := Gensym("obj", n);
    if !computed then
      Cps(o, FunctionExpr(None, [objName], [Return(Call(cont, [Member(Identifier(objName), p, false)]))]), n + 1)
    else
      var propName := Gensym("prop", n + 1);
      var inner := FunctionExpr(None, [propName], [Return(Call(cont, [Member(Identifier(objName), Identifier(propName), true)]))]);
      match Cps(p, inner, n + 2)
      case Err(m) => Err(m)
      case Ok(Out(rp, n1)) =>
        match BuildFunc([objName], rp)
        case Err(m) => Err(m)
        case Ok(f) => Cps(o, f, n1)
  }

  /** `cps(node, cont)`: the rule for the node's type. */
  function Cps(node: Node, cont: Node, n: nat): (r: Result<Out>)
    ensures r.Ok? ==> r.value.next >= n
    decreases Size(node), 2
  {
    match node
    case Block(body) => CpsSequence(BlockEnd(cont), body, [], n)
    case Program(body) => CpsProgram(body, cont, n)
    case Return(a) => CpsReturn(a, cont, n)
    case ExpressionStmt(e) => CpsExpressionStatement(e, cont, n)
    case Identifier(_) => CpsAtomicCall(node, cont, n)
    case Literal(_) => CpsAtomicCall(node, cont, n)
    case FunctionExpr(_, _, _) => CpsAtomicCall(node, cont, n)
    case VarDecl(ds) => CpsDeclarations(ds, cont, n)
    case Call(callee, args) => CpsCall(callee, args, cont, n)
    case Empty => Ok(Out(Call(cont, [Identifier("undefined")]), n))
    case If(t, c, e) => CpsIf(t, c, e, cont, n)
    case Conditional(t, c, a) => CpsConditional(t, c, a, cont, n)
    case ArrayExpr(es) => CpsSequence(ArrayEnd(cont), es, [], n)
    case Member(o, p, computed) => CpsMember(o, p, computed, cont, n)
    case Unary(op, a) => CpsUnary(op, a, cont, n)
    case Binary(op, l, r) => CpsBinary(op, l, r, cont, n)
    case _ => Err("cps: unknown node type: " + Kind(node))
  }

  /** A program: its statements as a block, made one statement. */
  function CpsProgram(body: seq<Node>, cont: Node, n: nat): (r: Result<Out>)
    ensures r.Ok? ==> r.value.next >= n && r.value.node.Program?
    decreases SizeSeq(body), 5
  {
    match CpsSequence(BlockEnd(cont), body, [], n)
    case Err(m) => Err(m)
    case Ok(Out(b, next)) =>
      match ConvertToStatement(b)
      case Err(m) => Err(m)
      case Ok(s) => Ok(Out(Program([s]), next))
  }

  /** A return statement: its argument in CPS, returned. */
  function CpsReturn(a: Node, cont: Node, n: nat): (r: Result<Out>)
    ensures r.Ok? ==> r.value.next >= n && r.value.node.Return?
    decreases Size(a), 5
  {
    match Cps(a, cont, n)
    case Err(m) => Err(m)
    case Ok(Out(b, next)) => Ok(Out(Return(b), next))
  }

  /** An expression statement: its expression in CPS, as a statement. */
  function CpsExpressionStatement(e: Node, cont: Node, n: nat): (r: Result<Out>)
    ensures r.Ok? ==> r.value.next >= n && r.value.node.ExpressionStmt?
    decreases Size(e), 5
  {
    match Cps(e, cont, n)
    case Err(m) => Err(m)
    case Ok(Out(b, next)) => Ok(Out(ExpressionStmt(b), next))
  }

  /** A declaration list, which `cps` asserts holds exactly one declarator. */
  function CpsDeclarations(ds: seq<Node>, cont: Node, n: nat): (r: Result<Out>)
    ensures r.Ok? ==> r.value.next >= n
    decreases SizeSeq(ds), 5
  {
    if |ds| != 1 then Err("AssertionError")
    else
      match ds[0]
      case Declarator(id, init) => CpsVariableDeclaration(id, init, cont, n)
      case _ => Err("cps: declaration is not a declarator")
  }

  /**
   * A call through a member expression is a primitive application, whose
   * value is passed to `cont`. Any other call is a compound application,
   * which gets `cont` as its first argument.
   */
  function CpsCall(callee: Node, args: seq<Node>, cont: Node, n: nat): (r: Result<Out>)
    ensures r.Ok? ==> r.value.next >= n
    decreases Size(callee) + SizeSeq(args), 5
  {
    if callee.Member? then CpsSequence(PrimitiveEnd(callee, cont), args, [], n)
    else
      SizeSeqCons(callee, args);
      CpsSequence(CompoundEnd(cont), [callee] + args, [], n)
  }

  /** A unary expression: a sequence of its one operand. */
  function CpsUnary(op: string, a: Node, cont: Node, n: nat): (r: Result<Out>)
    ensures r.Ok? ==> r.value.next >= n
    decreases Size(a), 5
  {
    SizeSeqCons(a, []);
    assert [a] + [] == [a];
    CpsSequence(UnaryEnd(op, cont), [a], [], n)
  }

  /** A binary expression: a sequence of its two operands. */
  function CpsBinary(op: string, l: Node, r: Node, cont: Node, n: nat): (res: Result<Out>)
    ensures res.Ok? ==> res.value.next >= n
    decreases Size(l) + Size(r), 5
  {
    SizeSeqCons(l, [r]);
    SizeSeqCons(r, []);
    assert [l] + [r] == [l, r] && [r] + [] == [r];
    CpsSequence(BinaryEnd(op, cont), [l, r], [], n)
  }

  /** `build.callExpression(cont, [cpsAtomic(node)])`. */
  function CpsAtomicCall(node: Node, cont: Node, n: nat): (r: Result<Out>)
    ensures r.Ok? ==> r.value.next >= n
    decreases Size(node), 1
  {
    match CpsAtomic(node, n)
    case Err(m) => Err(m)
    case Ok(Out(a, next)) => Ok(Out(Call(cont, [a]), next))
  }

  /** A name or a literal: the nodes `cpsAtomic` keeps as they are. */
  predicate Atom(n: Node) {
    n.Identifier? || n.Literal?
  }

  /** The names `cpsSequence` binds to `len` values when the counter starts at n. */
  function Names(n: nat, len: nat): (r: seq<Node>)
    ensures |r| == len && forall i :: 0 <= i < len ==> r[i] == Identifier(Gensym("s", n + i))
  {
    seq(len, (i: int) requires 0 <= i < len => Identifier(Gensym("s", n + i)))
  }

  /** The first name, then the names after it. */
  lemma {:induction false} NamesCons(n: nat, len: nat)
    requires len > 0
    ensures Names(n, len) == [Identifier(Gensym("s", n))] + Names(n + 1, len - 1)
  {
    assert forall i :: 1 <= i < len ==> Names(n, len)[i] == Names(n + 1, len - 1)[i - 1];
  }

  /**
   * The output of `cpsSequence` over values that are all atoms: for each value
   * in turn, an applied one-parameter function that binds its name, with the
   * final step innermost.
   */
  function SequenceOfAtoms(nodes: seq<Node>, n: nat, inner: Node): (r: Node)
    ensures inner.Call? ==> r.Call?
    decreases |nodes|
  {
    if nodes == [] then inner
    else Call(FunctionExpr(None, [Gensym("s", n)], [Return(SequenceOfAtoms(nodes[1..], n + 1, inner))]), [nodes[0]])
  }

  /** A name or a literal is passed to the continuation as it is. */
  lemma {:induction false} AtomRule(x: Node, cont: Node, n: nat)
    requires Atom(x)
    ensures Cps(x, cont, n) == Ok(Out(Call(cont, [x]), n))
  {
    assert CpsAtomic(x, n) == Ok(Out(x, n));
    assert Cps(x, cont, n) == CpsAtomicCall(x, cont, n);
  }

  /** A function keeps its parameters after a fresh continuation parameter and loses its name. */
  lemma {:induction false} FunctionRule(id: Option<string>, params: seq<string>, body: seq<Node>, cont: Node, n: nat)
    requires Cps(FunctionExpr(id, params, body), cont, n).Ok?
    ensures var r := Cps(FunctionExpr(id, params, body), cont, n).value.node;
      && r.Call? && r.callee == cont && |r.arguments| == 1
      && r.arguments[0].FunctionExpr? && r.arguments[0].id.None?
      && r.arguments[0].params == [Gensym("k", n)] + params
  {
    var node := FunctionExpr(id, params, body);
    assert Cps(node, cont, n) == CpsAtomicCall(node, cont, n);
    assert CpsAtomic(node, n).Ok?;
    var k := Gensym("k", n);
    var b := CpsSequence(BlockEnd(Identifier(k)), body, [], n + 1);
    assert b.Ok?;
    assert BuildFunc([k] + params, b.value.node).Ok?;
    assert CpsAtomic(node, n) == Ok(Out(BuildFunc([k] + params, b.value.node).value, b.value.next));
  }

  /** A function with an empty body sends `cpsSequence` into a recursion that never ends. */
  lemma {:induction false} EmptyBodyOverflows(id: Option<string>, params: seq<string>, cont: Node, n: nat)
    ensures Cps(FunctionExpr(id, params, []), cont, n) == Err(StackOverflow)
  {
    var node := FunctionExpr(id, params, []);
    assert Cps(node, cont, n) == CpsAtomicCall(node, cont, n);
    assert CpsSequence(BlockEnd(Identifier(Gensym("k", n))), [], [], n + 1) == Err(StackOverflow);
    assert CpsAtomic(node, n) == Err(StackOverflow);
  }

  /** Whenever the final step of a rule other than a block fails, the whole sequence fails with it. */
  lemma {:induction false} FinalErrorPropagates(f: Final, nodes: seq<Node>, vars: seq<Node>, n: nat)
    requires !f.BlockEnd?
    requires Finish(f, [], vars + Names(n, |nodes|), n + |nodes|).Err?
    ensures CpsSequence(f, nodes, vars, n).Err?
    decreases |nodes|
  {
    if nodes != [] {
      NamesCons(n, |nodes|);
      assert vars + Names(n, |nodes|) == (vars + [Identifier(Gensym("s", n))]) + Names(n + 1, |nodes| - 1);
      FinalErrorPropagates(f, nodes[1..], vars + [Identifier(Gensym("s", n))], n + 1);
    }
  }

  /**
   * `cpsSequence` over atoms: the final step gets the names for all the
   * values after the names it was given, and the values are bound to them
   * innermost last.
   */
  lemma {:induction false} AtomSequence(f: Final, nodes: seq<Node>, vars: seq<Node>, n: nat, inner: Node, m: nat)
    requires !f.BlockEnd? && forall i :: 0 <= i < |nodes| ==> Atom(nodes[i])
    requires Finish(f, [], vars + Names(n, |nodes|), n + |nodes|) == Ok(Out(inner, m)) && inner.Call?
    ensures CpsSequence(f, nodes, vars, n) == Ok(Out(SequenceOfAtoms(nodes, n, inner), m))
    decreases |nodes|
  {
    if nodes == [] {
      assert vars + Names(n, 0) == vars;
    } else {
      var vars' := vars + [Identifier(Gensym("s", n))];
      NamesCons(n, |nodes|);
      assert vars + Names(n, |nodes|) == vars' + Names(n + 1, |nodes| - 1);
      assert n + |nodes| == n + 1 + |nodes[1..]|;
      assert forall i :: 0 <= i < |nodes[1..]| ==> Atom(nodes[1..][i]) by {
        assert forall i :: 0 <= i < |nodes[1..]| ==> nodes[1..][i] == nodes[i + 1];
      }
      AtomSequence(f, nodes[1..], vars', n + 1, inner, m);
      AtomSequenceStep(f, nodes, vars, n, inner, m);
    }
  }

  /** One step of `cpsSequence` over atoms, given the rest of the sequence. */
  lemma {:induction false} AtomSequenceStep(f: Final, nodes: seq<Node>, vars: seq<Node>, n: nat, inner: Node, m: nat)
    requires !f.BlockEnd? && nodes != [] && Atom(nodes[0]) && inner.Call?
    requires CpsSequence(f, nodes[1..], vars + [Identifier(Gensym("s", n))], n + 1) == Ok(Out(SequenceOfAtoms(nodes[1..], n + 1, inner), m))
    ensures CpsSequence(f, nodes, vars, n) == Ok(Out(SequenceOfAtoms(nodes, n, inner), m))
  {
    var s := Gensym("s", n);
    var rest := SequenceOfAtoms(nodes[1..], n + 1, inner);
    assert BuildFunc([s], rest) == Ok(FunctionExpr(None, [s], [Return(rest)]));
    AtomRule(nodes[0], FunctionExpr(None, [s], [Return(rest)]), m);
  }

  /** A primitive application of atoms passes `op(vars)` to the continuation. */
  lemma {:induction false} PrimitiveCallRule(op: Node, args: seq<Node>, cont: Node, n: nat)
    requires op.Member? && forall i :: 0 <= i < |args| ==> Atom(args[i])
    ensures Cps(Call(op, args), cont, n) ==
      Ok(Out(SequenceOfAtoms(args, n, Call(cont, [Call(op, Names(n, |args|))])), n + |args|))
  {
    assert [] + Names(n, |args|) == Names(n, |args|);
    AtomSequence(PrimitiveEnd(op, cont), args, [], n, Call(cont, [Call(op, Names(n, |args|))]), n + |args|);
  }

  /** A compound application of atoms calls the callee's name with the continuation in front of the arguments' names. */
  lemma {:induction false} CompoundCallRule(callee: Node, args: seq<Node>, cont: Node, n: nat)
    requires Atom(callee) && forall i :: 0 <= i < |args| ==> Atom(args[i])
    ensures Cps(Call(callee, args), cont, n) ==
      Ok(Out(SequenceOfAtoms([callee] + args, n, Call(Names(n, 1 + |args|)[0], [cont] + Names(n + 1, |args|))), n + 1 + |args|))
  {
    CompoundUnfold(callee, args, cont, n);
    CompoundSequence([callee] + args, cont, n);
  }

  /** `cpsSequence` of a compound application's atoms. */
  lemma {:induction false} CompoundSequence(nodes: seq<Node>, cont: Node, n: nat)
    requires |nodes| > 0 && forall i :: 0 <= i < |nodes| ==> Atom(nodes[i])
    ensures CpsSequence(CompoundEnd(cont), nodes, [], n) ==
      Ok(Out(SequenceOfAtoms(nodes, n, Call(Names(n, |nodes|)[0], [cont] + Names(n + 1, |nodes| - 1))), n + |nodes|))
  {
    NamesCons(n, |nodes|);
    assert [] + Names(n, |nodes|) == Names(n, |nodes|);
    assert Names(n, |nodes|)[1..] == Names(n + 1, |nodes| - 1);
    AtomSequence(CompoundEnd(cont), nodes, [], n, Call(Names(n, |nodes|)[0], [cont] + Names(n + 1, |nodes| - 1)), n + |nodes|);
  }

  /** A compound application is a sequence of the callee and then the arguments. */
  lemma {:induction false} CompoundUnfold(callee: Node, args: seq<Node>, cont: Node, n: nat)
    requires !callee.Member?
    ensures Cps(Call(callee, args), cont, n) == CpsSequence(CompoundEnd(cont), [callee] + args, [], n)
  {
  }

  /** A binary expression of atoms always has the two names its assertion expects. */
  lemma {:induction false} BinaryRule(op: string, l: Node, r: Node, cont: Node, n: nat)
    requires Atom(l) && Atom(r)
    ensures Cps(Binary(op, l, r), cont, n) ==
      Ok(Out(SequenceOfAtoms([l, r], n, Call(cont, [Binary(op, Names(n, 2)[0], Names(n, 2)[1])])), n + 2))
  {
    BinaryUnfold(op, l, r, cont, n);
    PairSequence(op, [l, r], cont, n);
  }

  /** `cpsSequence` of a binary expression's two atoms. */
  lemma {:induction false} PairSequence(op: string, nodes: seq<Node>, cont: Node, n: nat)
    requires |nodes| == 2 && forall i :: 0 <= i < |nodes| ==> Atom(nodes[i])
    ensures CpsSequence(BinaryEnd(op, cont), nodes, [], n) ==
      Ok(Out(SequenceOfAtoms(nodes, n, Call(cont, [Binary(op, Names(n, 2)[0], Names(n, 2)[1])])), n + 2))
  {
    assert [] + Names(n, 2) == Names(n, 2);
    AtomSequence(BinaryEnd(op, cont), nodes, [], n, Call(cont, [Binary(op, Names(n, 2)[0], Names(n, 2)[1])]), n + 2);
  }

  /** A binary expression is a sequence of its two operands. */
  lemma {:induction false} BinaryUnfold(op: string, l: Node, r: Node, cont: Node, n: nat)
    ensures Cps(Binary(op, l, r), cont, n) == CpsSequence(BinaryEnd(op, cont), [l, r], [], n)
  {
  }

  /**
   * A conditional of atoms binds the continuation once, to the name drawn
   * first, and both branches call that name.
   */
  lemma {:induction false} ConditionalRule(t: Node, c: Node, a: Node, cont: Node, n: nat)
    requires Atom(t) && Atom(c) && Atom(a)
    ensures var k := Identifier(Gensym("cont", n));
      var x := Identifier(Gensym("test", n + 1));
      Cps(Conditional(t, c, a), cont, n) ==
        Ok(Out(Call(FunctionExpr(None, [k.name], [Return(Call(FunctionExpr(None, [x.name], [Return(Conditional(x, Call(k, [c]), Call(k, [a])))]), [t]))]), [cont]), n + 2))
  {
    var k := Identifier(Gensym("cont", n));
    var x := Identifier(Gensym("test", n + 1));
    AtomRule(c, k, n + 2);
    AtomRule(a, k, n + 2);
    var f := FunctionExpr(None, [x.name], [Return(Conditional(x, Call(k, [c]), Call(k, [a])))]);
    AtomRule(t, f, n + 2);
    assert Cps(Conditional(t, c, a), cont, n) == CpsConditional(t, c, a, cont, n);
  }

  /** A declaration list must hold exactly one declarator. */
  lemma {:induction false} DeclarationCount(ds: seq<Node>, cont: Node, n: nat)
    requires |ds| != 1
    ensures Cps(VarDecl(ds), cont, n) == Err("AssertionError")
  {
  }

  /** An `if` without an `else` fails once its consequent is transformed. */
  lemma {:induction false} MissingElseFails(t: Node, c: Node, cont: Node, n: nat)
    requires Cps(c, Identifier(Gensym("cont", n)), n + 2).Ok?
    ensures Cps(If(t, c, None), cont, n) == Err("TypeError: Cannot read property 'type' of null")
  {
  }
}
