/**
 * The fragment of the ESTree JavaScript syntax tree that the WebPPL
 * compiler's passes work on. Parameters and declared names are kept as
 * strings, and a function's body is the list of statements of its block;
 * every node kind the passes do not know is `Other(kind)`.
 */
module JsAst {
  import opened Wrappers

  /** The value of a `Literal` node. */
  datatype Lit = Num(n: int) | Str(s: string) | Bool(b: bool) | Null

  datatype Node =
    | Identifier(name: string)
    | Literal(lit: Lit)
    | FunctionExpr(id: Option<string>, params: seq<string>, body: seq<Node>)
    | Call(callee: Node, arguments: seq<Node>)
    | Member(obj: Node, property: Node, computed: bool)
    | Unary(op: string, argument: Node)
    | Binary(op: string, left: Node, right: Node)
    | Logical(op: string, left: Node, right: Node)
    | Conditional(test: Node, consequent: Node, alternate: Node)
    | ArrayExpr(elements: seq<Node>)
    | ObjectExpr(properties: seq<Node>)
    | Property(key: Node, value: Node)
    | Assignment(op: string, left: Node, right: Node)
    | Program(body: seq<Node>)
    | Block(body: seq<Node>)
    | ExpressionStmt(expression: Node)
    | Return(argument: Node)
    | If(cond: Node, thenBranch: Node, elseBranch: Option<Node>)
    | Empty
    | VarDecl(declarations: seq<Node>)
    | Declarator(name: string, init: Node)
    | Other(kind: string)

  /** The number of nodes in a tree. */
  function Size(n: Node): (r: nat)
    ensures r >= 1
    decreases n
  {
    match n
    case Identifier(_) => 1
    case Literal(_) => 1
    case FunctionExpr(_, _, body) => 1 + SizeSeq(body)
    case Call(callee, args) => 1 + Size(callee) + SizeSeq(args)
    case Member(o, p, _) => 1 + Size(o) + Size(p)
    case Unary(_, a) => 1 + Size(a)
    case Binary(_, l, r) => 1 + Size(l) + Size(r)
    case Logical(_, l, r) => 1 + Size(l) + Size(r)
    case Conditional(t, c, a) => 1 + Size(t) + Size(c) + Size(a)
    case ArrayExpr(es) => 1 + SizeSeq(es)
    case ObjectExpr(ps) => 1 + SizeSeq(ps)
    case Property(k, v) => 1 + Size(k) + Size(v)
    case Assignment(_, l, r) => 1 + Size(l) + Size(r)
    case Program(body) => 1 + SizeSeq(body)
    case Block(body) => 1 + SizeSeq(body)
    case ExpressionStmt(e) => 1 + Size(e)
    case Return(a) => 1 + Size(a)
    case If(t, c, a) => 1 + Size(t) + Size(c) + (if a.Some? then Size(a.value) else 0)
    case Empty => 1
    case VarDecl(ds) => 1 + SizeSeq(ds)
    case Declarator(_, init) => 1 + Size(init)
    case Other(_) => 1
  }

  /** The number of nodes in a list of trees. */
  function SizeSeq(ns: seq<Node>): (r: nat)
    ensures forall k :: 0 <= k < |ns| ==> Size(ns[k]) <= r
    decreases ns
  {
    if ns == [] then 0 else Size(ns[0]) + SizeSeq(ns[1..])
  }

  /** Dropping the first tree of a list leaves a smaller list. */
  lemma {:induction false} SizeSeqTail(ns: seq<Node>)
    requires ns != []
    ensures SizeSeq(ns[1..]) < SizeSeq(ns)
  {
  }

  /** The ESTree `type` of a node. */
  function Kind(n: Node): string {
    match n
    case Identifier(_) => "Identifier"
    case Literal(_) => "Literal"
    case FunctionExpr(_, _, _) => "FunctionExpression"
    case Call(_, _) => "CallExpression"
    case Member(_, _, _) => "MemberExpression"
    case Unary(_, _) => "UnaryExpression"
    case Binary(_, _, _) => "BinaryExpression"
    case Logical(_, _, _) => "LogicalExpression"
    case Conditional(_, _, _) => "ConditionalExpression"
    case ArrayExpr(_) => "ArrayExpression"
    case ObjectExpr(_) => "ObjectExpression"
    case Property(_, _) => "Property"
    case Assignment(_, _, _) => "AssignmentExpression"
    case Program(_) => "Program"
    case Block(_) => "BlockStatement"
    case ExpressionStmt(_) => "ExpressionStatement"
    case Return(_) => "ReturnStatement"
    case If(_, _, _) => "IfStatement"
    case Empty => "EmptyStatement"
    case VarDecl(_) => "VariableDeclaration"
    case Declarator(_, _) => "VariableDeclarator"
    case Other(kind) => kind
  }
}
