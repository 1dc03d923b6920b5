/**
 * The node rewrites of the automatic-differentiation transform: arithmetic
 * and comparison operators become calls of the `ad.scalar` functions,
 * in-place assignments are expanded so that their operator is rewritten
 * too, and `Math.f` becomes `ad.scalar.f`.
 *
 * The member expressions built here are not computed (`a.b`, not `a[b]`).
 */
module AdTransform {
  import opened Wrappers
  import opened JsAst
  import opened JsString

  /** The binary operators that have an `ad.scalar` function. */
  const BinaryOperators: set<string> := {"*", "/", "+", "-", "<", "<=", ">", ">=", "==", "!=", "===", "!=="}

  /** `rules(node)`: the dotted name of the function for the node's operator; `None` for `false`. */
  function Rules(n: Node): (r: Option<string>)
    ensures r.Some? ==> n.Unary? || n.Binary?
    ensures n.Unary? ==> (r.Some? <==> n.op in {"+", "-"})
    ensures n.Binary? ==> (r.Some? <==> n.op in BinaryOperators)
  {
    match n
    case Unary(op, _) =>
      if op == "+" then Some("ad.scalar.plus")
      else if op == "-" then Some("ad.scalar.neg")
      else None
    case Binary(op, _, _) =>
      if op == "*" then Some("ad.scalar.mul")
      else if op == "/" then Some("ad.scalar.div")
      else if op == "+" then Some("ad.scalar.add")
      else if op == "-" then Some("ad.scalar.sub")
      else if op == "<" then Some("ad.scalar.lt")
      else if op == "<=" then Some("ad.scalar.leq")
      else if op == ">" then Some("ad.scalar.gt")
      else if op == ">=" then Some("ad.scalar.geq")
      else if op == "==" then Some("ad.scalar.eq")
      else if op == "!=" then Some("ad.scalar.neq")
      else if op == "===" then Some("ad.scalar.peq")
      else if op == "!==" then Some("ad.scalar.pneq")
      else None
    case _ => None
  }

  /** The dotted name of every rule is `ad.scalar.` and a name without a dot. */
  lemma {:induction false} RuleIsScalarName(n: Node)
    requires Rules(n).Some?
    ensures |Rules(n).value| > 10 && Rules(n).value[..10] == "ad.scalar."
    ensures '.' !in Rules(n).value[10..]
  {
  }

  /** The names, each an Identifier. */
  function Identifiers(names: seq<string>): (r: seq<Node>)
    ensures |r| == |names| && forall i :: 0 <= i < |r| ==> r[i] == Identifier(names[i])
  {
    seq(|names|, (i: int) requires 0 <= i < |names| => Identifier(names[i]))
  }

  /** The `reduce` of `build.memberExpression` over nodes, starting from acc. */
  function FoldMember(acc: Node, ns: seq<Node>): Node
    decreases |ns|
  {
    if ns == [] then acc else FoldMember(Member(acc, ns[0], false), ns[1..])
  }

  /** `parse(dotted)`: the pieces between the dots as Identifiers, combined from the left by member access. */
  function Parse(dotted: string): Node {
    ParseParts(Split(dotted, '.'))
  }

  /** The pieces as Identifiers, combined from the left by member access. */
  function ParseParts(parts: seq<string>): Node
    requires |parts| >= 1
  {
    var ids := Identifiers(parts);
    FoldMember(ids[0], ids[1..])
  }

  /** The member chain `p0.p1. ... .pk`: the chain of all pieces but the last, then the last. */
  function Dotted(parts: seq<string>): Node
    requires |parts| >= 1
  {
    if |parts| == 1 then Identifier(parts[0])
    else Member(Dotted(parts[..|parts| - 1]), Identifier(parts[|parts| - 1]), false)
  }

  /** Folding the Identifiers of more pieces onto a chain extends the chain. */
  lemma {:induction false} FoldExtendsChain(prefix: seq<string>, rest: seq<string>)
    requires |prefix| >= 1
    ensures FoldMember(Dotted(prefix), Identifiers(rest)) == Dotted(prefix + rest)
    decreases |rest|
  {
    if rest == [] {
      AppendEmpty(prefix, rest);
    } else {
      var longer := prefix + [rest[0]];
      FoldStep(prefix, rest);
      FoldExtendsChain(longer, rest[1..]);
      MoveFirst(prefix, rest);
    }
  }

  lemma {:induction false} AppendEmpty<T>(a: seq<T>, b: seq<T>)
    requires b == []
    ensures a + b == a
  {
  }

  lemma {:induction false} MoveFirst<T>(a: seq<T>, b: seq<T>)
    requires b != []
    ensures (a + [b[0]]) + b[1..] == a + b
  {
  }

  lemma {:induction false} SplitAt<T>(a: seq<T>, k: nat)
    requires k <= |a|
    ensures a[..k] + a[k..] == a
  {
  }

  /** One step of the fold moves the first piece onto the chain. */
  lemma {:induction false} FoldStep(prefix: seq<string>, rest: seq<string>)
    requires |prefix| >= 1 && rest != []
    ensures FoldMember(Dotted(prefix), Identifiers(rest)) == FoldMember(Dotted(prefix + [rest[0]]), Identifiers(rest[1..]))
  {
    var longer := prefix + [rest[0]];
    assert longer[..|longer| - 1] == prefix && longer[|longer| - 1] == rest[0];
    assert Dotted(longer) == Member(Dotted(prefix), Identifier(rest[0]), false);
    assert Identifiers(rest)[1..] == Identifiers(rest[1..]);
  }

  /** `parse` of pieces joined by dots is the left-nested chain of the pieces, so `a.b.c` is `(a.b).c`. */
  lemma {:induction false} ParseJoin(parts: seq<string>)
    requires |parts| >= 1 && forall k :: 0 <= k < |parts| ==> '.' !in parts[k]
    ensures Parse(Join(parts, '.')) == Dotted(parts)
  {
    SplitJoin(parts, '.');
    ParsePartsChain(parts);
  }

  /** The pieces parse to the chain of the pieces. */
  lemma {:induction false} ParsePartsChain(parts: seq<string>)
    requires |parts| >= 1
    ensures ParseParts(parts) == Dotted(parts)
  {
    var ids := Identifiers(parts);
    assert ids[1..] == Identifiers(parts[1..]);
    assert Dotted(parts[..1]) == ids[0];
    FoldExtendsChain(parts[..1], parts[1..]);
    SplitAt(parts, 1);
  }

  /** `parse` of three pieces is the chain of two member accesses. */
  lemma {:induction false} ParseTwo(a: string, b: string)
    requires '.' !in a && '.' !in b
    ensures Parse(a + ['.'] + b) == Member(Identifier(a), Identifier(b), false)
  {
    var parts := [a, b];
    assert parts[1..] == [b];
    assert Join([b], '.') == b;
    assert Join(parts, '.') == a + ['.'] + b;
    ParseJoin(parts);
    assert parts[..1] == [a];
    assert Dotted([a]) == Identifier(a);
  }

  lemma {:induction false} ParseThree(a: string, b: string, c: string)
    requires '.' !in a && '.' !in b && '.' !in c
    ensures Parse(a + ['.'] + b + ['.'] + c) == Member(Member(Identifier(a), Identifier(b), false), Identifier(c), false)
  {
    var parts := [a, b, c];
    assert parts[1..] == [b, c];
    assert [b, c][1..] == [c];
    assert Join([c], '.') == c;
    assert Join([b, c], '.') == b + ['.'] + c;
    assert Join(parts, '.') == a + ['.'] + (b + ['.'] + c);
    assert a + ['.'] + (b + ['.'] + c) == a + ['.'] + b + ['.'] + c;
    ParseJoin(parts);
    assert parts[..2] == [a, b] && [a, b][..1] == [a];
    assert Dotted([a]) == Identifier(a);
    assert Dotted([a, b]) == Member(Identifier(a), Identifier(b), false);
  }

  /** The callee for the function `ad.scalar.name`. */
  lemma {:induction false} ParseScalar(name: string)
    requires '.' !in name
    ensures Parse("ad.scalar." + name) ==
      Member(Member(Identifier("ad"), Identifier("scalar"), false), Identifier(name), false)
  {
    assert "ad.scalar." + name == "ad" + ['.'] + "scalar" + ['.'] + name;
    ParseThree("ad", "scalar", name);
  }

  /** `rewrite(node, fn)`: a call of fn on the operand, or on the two operands. */
  function Rewrite(n: Node, fn: string): (r: Result<Node>)
    ensures n.Unary? ==> r == Ok(Call(Parse(fn), [n.argument]))
    ensures n.Binary? ==> r == Ok(Call(Parse(fn), [n.left, n.right]))
    ensures !n.Unary? && !n.Binary? ==> r == Err("Unexpected node type")
  {
    if n.Unary? then Ok(Call(Parse(fn), [n.argument]))
    else if n.Binary? then Ok(Call(Parse(fn), [n.left, n.right]))
    else Err("Unexpected node type")
  }

  /** The operands of an operator node. */
  function Operands(n: Node): seq<Node> {
    if n.Unary? then [n.argument] else if n.Binary? then [n.left, n.right] else []
  }

  /** An operator with a rule becomes a call of `ad.scalar.f` on its operands. */
  lemma {:induction false} RewriteOperator(n: Node)
    requires Rules(n).Some?
    ensures Rewrite(n, Rules(n).value) ==
      Ok(Call(Member(Member(Identifier("ad"), Identifier("scalar"), false), Identifier(Rules(n).value[10..]), false), Operands(n)))
  {
    var fn := Rules(n).value;
    RuleIsScalarName(n);
    assert fn == "ad.scalar." + fn[10..];
    ParseScalar(fn[10..]);
  }

  /** `isInplaceAssignmentOp(op)`. */
  predicate IsInplaceAssignmentOp(op: string) {
    op == "+=" || op == "-=" || op == "*=" || op == "/="
  }

  /** The operator of an in-place assignment, without its `=`, has a rule, so the expansion is rewritten in turn. */
  lemma {:induction false} InplaceOperatorHasRule(op: string, l: Node, r: Node)
    requires IsInplaceAssignmentOp(op)
    ensures op[..1] in BinaryOperators
    ensures Rules(Binary(op[..1], l, r)).Some?
  {
    if op == "+=" {
      PrefixHasRule(op, "+", l, r);
    } else if op == "-=" {
      PrefixHasRule(op, "-", l, r);
    } else if op == "*=" {
      PrefixHasRule(op, "*", l, r);
    } else {
      PrefixHasRule(op, "/", l, r);
    }
  }

  lemma {:induction false} PrefixHasRule(op: string, p: string, l: Node, r: Node)
    requires |p| == 1 && op == p + "=" && p in BinaryOperators
    ensures op[..1] in BinaryOperators && Rules(Binary(op[..1], l, r)).Some?
  {
    assert op[..1] == p;
  }

  /**
   * The `enter` visitor of the transform: the node that replaces `node`, or
   * `node` itself when no rewrite applies.
   */
  function Enter(n: Node): (r: Node)
    ensures Rules(n).Some? ==> Ok(r) == Rewrite(n, Rules(n).value)
    ensures Rules(n).None? && n.Assignment? && IsInplaceAssignmentOp(n.op) ==>
      r == Assignment("=", n.left, Binary(n.op[..1], n.left, n.right))
    ensures Rules(n).None? && !(n.Assignment? && IsInplaceAssignmentOp(n.op)) && n.Member? && n.obj == Identifier("Math") ==>
      r == Member(Parse("ad.scalar"), n.property, false)
    ensures Rules(n).None? && !(n.Assignment? && IsInplaceAssignmentOp(n.op)) && !(n.Member? && n.obj == Identifier("Math")) ==>
      r == n
  {
    match Rules(n)
    case Some(fn) => Rewrite(n, fn).value
    case None =>
      if n.Assignment? && IsInplaceAssignmentOp(n.op) then Assignment("=", n.left, Binary(n.op[..1], n.left, n.right))
      else if n.Member? && n.obj.Identifier? && n.obj.name == "Math" then Member(Parse("ad.scalar"), n.property, false)
      else n
  }

  /** `Math.f` becomes `ad.scalar.f`; a computed `Math[e]` becomes the fixed member `ad.scalar.e`. */
  lemma {:induction false} MathRewrite(p: Node, computed: bool)
    ensures Enter(Member(Identifier("Math"), p, computed)) ==
      Member(Member(Identifier("ad"), Identifier("scalar"), false), p, false)
  {
    AdScalar();
  }

  /** `parse('ad.scalar')` is the member access `ad.scalar`. */
  lemma {:induction false} AdScalar()
    ensures Parse("ad.scalar") == Member(Identifier("ad"), Identifier("scalar"), false)
  {
    ParseTwo("ad", "scalar");
    assert "ad" + ['.'] + "scalar" == "ad.scalar";
  }
}
