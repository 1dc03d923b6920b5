/**
 * The syntax helpers the compiler's passes are written with: pattern
 * clauses and `match`, `inProgram`, `returnify`, `isPrimitive` and
 * `thunkify`.
 */
module Syntax {
  import opened Wrappers
  import opened JsAst

  /** What a clause gives back: the destructor's value, a failure to match, or an exception. */
  datatype Outcome<R> = Value(value: R) | Failed | Thrown(msg: string)

  /** The node types the AST library knows. */
  const NamedTypes: set<string> := {
    "Identifier", "Literal", "FunctionExpression", "CallExpression", "MemberExpression",
    "UnaryExpression", "BinaryExpression", "LogicalExpression", "ConditionalExpression",
    "ArrayExpression", "ObjectExpression", "Property", "AssignmentExpression", "Program",
    "BlockStatement", "ExpressionStatement", "ReturnStatement", "IfStatement", "EmptyStatement",
    "VariableDeclaration", "VariableDeclarator"
  }

  /**
   * `clause(type, destructor)` applied to a node: the destructor, which reads
   * the node's fields, when the type matches; a failure otherwise; an
   * exception for a type the library does not know.
   */
  function Clause<R>(kind: string, destructor: Node -> Outcome<R>, n: Node): (r: Outcome<R>)
    ensures kind !in NamedTypes ==> r == Thrown("no type " + kind)
    ensures kind in NamedTypes && Kind(n) != kind ==> r.Failed?
    ensures kind in NamedTypes && Kind(n) == kind ==> r == destructor(n)
  {
    if kind !in NamedTypes then Thrown("no type " + kind)
    else if Kind(n) == kind then destructor(n)
    else Failed
  }

  /** Clause m is the first of the clauses that does not fail on n. */
  ghost predicate FirstMatch<R>(clauses: seq<Node -> Outcome<R>>, n: Node, m: int) {
    0 <= m < |clauses| && !clauses[m](n).Failed? && forall j :: 0 <= j < m ==> clauses[j](n).Failed?
  }

  /**
   * `match(node, clauses, fail)`: the value of the first clause that does not
   * fail, or the fallback when they all fail. A clause that throws ends the
   * search with its exception.
   */
  method Match<R>(n: Node, clauses: seq<Node -> Outcome<R>>, fallback: Outcome<R>) returns (r: Outcome<R>)
    ensures (forall j :: 0 <= j < |clauses| ==> clauses[j](n).Failed?) ==> r == fallback
    ensures (exists j :: 0 <= j < |clauses| && !clauses[j](n).Failed?) ==>
      exists m :: FirstMatch(clauses, n, m) && r == clauses[m](n)
  {
    var i := 0;
    while i < |clauses|
      invariant 0 <= i <= |clauses|
      invariant forall j :: 0 <= j < i ==> clauses[j](n).Failed?
    {
      var value := clauses[i](n);
      if !value.Failed? {
        assert FirstMatch(clauses, n, i);
        return value;
      }
      i := i + 1;
    }
    return fallback;
  }

  /** `failSafe(who, fail)`: the failure continuation's outcome, or an exception when there is none. */
  function FailSafe(who: string, fail: Option<Result<Node>>): (r: Result<Node>)
    ensures fail.None? ==> r == Err(who + ": fail is not a function")
    ensures fail.Some? ==> r == fail.value
  {
    if fail.Some? then fail.value else Err(who + ": fail is not a function")
  }

  /** `inProgram(f, fail)(node)`: f applied to the one expression of a one-statement program. */
  function InProgram(f: Node -> Result<Node>, fail: Option<Result<Node>>, n: Node): (r: Result<Node>)
    ensures (n.Program? && |n.body| == 1 && n.body[0].ExpressionStmt?) ==>
      r == (if f(n.body[0].expression).Ok? then Ok(Program([ExpressionStmt(f(n.body[0].expression).value)]))
            else Err(f(n.body[0].expression).msg))
    ensures !(n.Program? && |n.body| == 1 && n.body[0].ExpressionStmt?) ==> r == FailSafe("inProgram", fail)
  {
    if n.Program? && |n.body| == 1 && n.body[0].ExpressionStmt? then
      match f(n.body[0].expression)
      case Ok(e) => Ok(Program([ExpressionStmt(e)]))
      case Err(m) => Err(m)
    else FailSafe("inProgram", fail)
  }

  /** The last-statement rewrite of `returnify`. */
  function ReturnifyLast(s: Node): Result<Node>
    decreases s, 1
  {
    match s
    case Block(body) =>
      (match ReturnifySeq(body)
       case Ok(b) => Ok(Block(b))
       case Err(m) => Err(m))
    case Empty => Ok(Empty)
    case ExpressionStmt(e) => Ok(Return(e))
    case If(t, c, e) =>
      if !c.Block? || (e.Some? && !e.value.Block?) then Err("TypeError: Cannot read property 'length' of undefined")
      else
        (match ReturnifySeq(c.body)
         case Err(m) => Err(m)
         case Ok(cb) =>
           if e.None? then Ok(If(t, Block(cb), None))
           else
             match ReturnifySeq(e.value.body)
             case Err(m) => Err(m)
             case Ok(eb) => Ok(If(t, Block(cb), Some(Block(eb)))))
    case Return(a) => Ok(Return(a))
    case _ => Err("returnify")
  }

  /** `returnify(nodes)` on a list taken as a value: the last statement rewritten, the others kept. */
  function ReturnifySeq(ss: seq<Node>): (r: Result<seq<Node>>)
    ensures r.Ok? ==> |r.value| == |ss| && (ss != [] ==> r.value[..|ss| - 1] == ss[..|ss| - 1])
    decreases ss, 0
  {
    if ss == [] then Ok(ss)
    else
      match ReturnifyLast(ss[|ss| - 1])
      case Ok(last) => Ok(ss[..|ss| - 1] + [last])
      case Err(m) => Err(m)
  }

  /**
   * `returnify(nodes)`: the last element of the array is replaced by its
   * rewrite; on an exception the array is left as it was.
   */
  method Returnify(nodes: array<Node>) returns (ok: bool)
    modifies nodes
    ensures ok <==> ReturnifySeq(old(nodes[..])).Ok?
    ensures ok ==> nodes[..] == ReturnifySeq(old(nodes[..])).value
    ensures !ok ==> nodes[..] == old(nodes[..])
  {
    if nodes.Length == 0 {
      return true;
    }
    var last := ReturnifyLast(nodes[nodes.Length - 1]);
    if last.Err? {
      return false;
    }
    nodes[nodes.Length - 1] := last.value;
    assert nodes[..] == old(nodes[..])[..nodes.Length - 1] + [last.value];
    return true;
  }

  /** A statement that ends in a `return`, or has nothing left to run. */
  predicate Returns(s: Node)
    decreases s, 1
  {
    match s
    case Block(body) => EndsInReturn(body)
    case Empty => true
    case Return(_) => true
    case If(_, c, e) => Returns(c) && (e.None? || Returns(e.value))
    case _ => false
  }

  /** A list whose last statement returns. */
  predicate EndsInReturn(ss: seq<Node>)
    decreases ss, 0
  {
    ss == [] || Returns(ss[|ss| - 1])
  }

  /** After `returnify` the list ends in a `return` on every path it rewrote. */
  lemma {:induction false} ReturnifyLastReturns(s: Node)
    requires ReturnifyLast(s).Ok?
    ensures Returns(ReturnifyLast(s).value)
    decreases s, 1
  {
    match s
    case Block(body) => ReturnifySeqEnds(body);
    case If(t, c, e) =>
      ReturnifySeqEnds(c.body);
      if e.Some? {
        ReturnifySeqEnds(e.value.body);
      }
    case _ =>
  }

  lemma {:induction false} ReturnifySeqEnds(ss: seq<Node>)
    requires ReturnifySeq(ss).Ok?
    ensures EndsInReturn(ReturnifySeq(ss).value)
    decreases ss, 0
  {
    if ss != [] {
      ReturnifyLastReturns(ss[|ss| - 1]);
    }
  }

  /** A statement already in returning form is left as it is. */
  lemma {:induction false} ReturnifyLastFixed(s: Node)
    requires ReturnifyLast(s).Ok?
    ensures ReturnifyLast(ReturnifyLast(s).value) == ReturnifyLast(s)
    decreases s, 1
  {
    match s
    case Block(body) => ReturnifySeqFixed(body);
    case If(t, c, e) =>
      ReturnifySeqFixed(c.body);
      if e.Some? {
        ReturnifySeqFixed(e.value.body);
      }
    case _ =>
  }

  lemma {:induction false} ReturnifySeqFixed(ss: seq<Node>)
    requires ReturnifySeq(ss).Ok?
    ensures ReturnifySeq(ReturnifySeq(ss).value) == ReturnifySeq(ss)
    decreases ss, 0
  {
    if ss != [] {
      var r := ReturnifySeq(ss).value;
      ReturnifyLastFixed(ss[|ss| - 1]);
      assert r[|r| - 1] == ReturnifyLast(ss[|ss| - 1]).value;
      assert r[..|r| - 1] + [r[|r| - 1]] == r;
    }
  }

  /** An expression statement at the end becomes a `return` of its expression. */
  lemma {:induction false} ExpressionBecomesReturn(front: seq<Node>, e: Node)
    ensures ReturnifySeq(front + [ExpressionStmt(e)]) == Ok(front + [Return(e)])
  {
    var ss := front + [ExpressionStmt(e)];
    assert ss[..|ss| - 1] == front;
  }

  /**
   * `isPrimitive(node)`: a method call through a name (`a.f`, `a[e]`) or a
   * fixed property (`e.f`) is primitive; functions, names and calls are not;
   * other node kinds are rejected.
   */
  function IsPrimitive(n: Node): (r: Result<bool>)
    ensures r.Ok? <==> n.FunctionExpr? || n.Identifier? || n.Call? || n.Member?
    ensures r == Ok(true) <==> n.Member? && (n.obj.Identifier? || (!n.computed && n.property.Identifier?))
  {
    if n.FunctionExpr? || n.Identifier? || n.Call? then Ok(false)
    else if n.Member? then Ok(n.obj.Identifier? || (!n.computed && n.property.Identifier?))
    else Err("isPrimitive doesn't handle node")
  }

  /** `thunkify(node, fail)`: a program's body, returnified, as the body of a function of no arguments. */
  function Thunkify(n: Node, fail: Option<Result<Node>>): (r: Result<Node>)
    ensures n.Program? && ReturnifySeq(n.body).Ok? ==>
      r == Ok(Program([ExpressionStmt(FunctionExpr(None, [], ReturnifySeq(n.body).value))]))
    ensures n.Program? && ReturnifySeq(n.body).Err? ==> r.Err?
    ensures !n.Program? ==> r == FailSafe("thunkify", fail)
  {
    if n.Program? then
      match ReturnifySeq(n.body)
      case Ok(b) => Ok(Program([ExpressionStmt(FunctionExpr(None, [], b))]))
      case Err(m) => Err(m)
    else FailSafe("thunkify", fail)
  }

  /** A thunkified program is one `inProgram` accepts, and its function's body ends in a return. */
  lemma {:induction false} ThunkifyFitsInProgram(stmts: seq<Node>, body: seq<Node>, f: Node -> Result<Node>, fail: Option<Result<Node>>, fail2: Option<Result<Node>>)
    requires ReturnifySeq(stmts) == Ok(body)
    ensures Thunkify(Program(stmts), fail) == Ok(Program([ExpressionStmt(FunctionExpr(None, [], body))]))
    ensures InProgram(f, fail2, Program([ExpressionStmt(FunctionExpr(None, [], body))])) ==
      if f(FunctionExpr(None, [], body)).Ok? then Ok(Program([ExpressionStmt(f(FunctionExpr(None, [], body)).value)]))
      else Err(f(FunctionExpr(None, [], body)).msg)
    ensures EndsInReturn(body)
  {
    ReturnifySeqEnds(stmts);
  }
}
