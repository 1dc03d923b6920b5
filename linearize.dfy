/**
 * Statement linearisation: a function body is rewritten so that no
 * `return` remains. The statements after an `if` whose branches return are
 * copied into both branches, a `return e` becomes `e;` and drops what
 * follows it, and blocks are flattened into the surrounding list.
 */
module Linearize {
  import opened Wrappers
  import opened JsAst

  /** `hasReturn(node)`: a `return` is reached through blocks, `if` branches and programs. */
  function HasReturn(n: Node): bool
    decreases n
  {
    match n
    case Block(body) => AnyReturn(body)
    case If(_, c, e) => HasReturn(c) || (e.Some? && HasReturn(e.value))
    case Program(body) => AnyReturn(body)
    case Return(_) => true
    case _ => false
  }

  /** `body.some(hasReturn)`. */
  function AnyReturn(ss: seq<Node>): bool
    decreases ss
  {
    ss != [] && (HasReturn(ss[0]) || AnyReturn(ss[1..]))
  }

  /** The statements reachable from n through blocks, `if` branches and programs, n first. */
  function Statements(n: Node): seq<Node>
    decreases n
  {
    match n
    case Block(body) => [n] + StatementsOfAll(body)
    case If(_, c, e) => [n] + Statements(c) + (if e.Some? then Statements(e.value) else [])
    case Program(body) => [n] + StatementsOfAll(body)
    case _ => [n]
  }

  function StatementsOfAll(ss: seq<Node>): seq<Node>
    decreases ss
  {
    if ss == [] then [] else Statements(ss[0]) + StatementsOfAll(ss[1..])
  }

  /** Some statement of the list is a `return`. */
  ghost predicate ContainsReturn(s: seq<Node>) {
    exists k :: 0 <= k < |s| && s[k].Return?
  }

  /** Some statement reachable from n is a `return`. */
  ghost predicate ReachesReturn(n: Node) {
    ContainsReturn(Statements(n))
  }

  ghost predicate AllReachReturn(ss: seq<Node>) {
    ContainsReturn(StatementsOfAll(ss))
  }

  /** `hasReturn` holds exactly when a `return` is reachable through blocks, branches and programs. */
  lemma {:induction false} HasReturnReaches(n: Node)
    ensures HasReturn(n) <==> ReachesReturn(n)
    decreases n, 1
  {
    match n
    case Block(body) =>
      AnyReturnReaches(body);
      ReturnInTail([n], StatementsOfAll(body));
      assert Statements(n) == [n] + StatementsOfAll(body);
    case If(_, _, _) =>
      IfReaches(n);
    case Program(body) =>
      AnyReturnReaches(body);
      ReturnInTail([n], StatementsOfAll(body));
      assert Statements(n) == [n] + StatementsOfAll(body);
    case Return(_) =>
      assert Statements(n)[0].Return?;
    case _ =>
      assert Statements(n) == [n];
  }

  /** The `if` case of `HasReturnReaches`. */
  lemma {:induction false} IfReaches(n: Node)
    requires n.If?
    ensures HasReturn(n) <==> ReachesReturn(n)
    decreases n, 0
  {
    var c, e := n.thenBranch, n.elseBranch;
    HasReturnReaches(c);
    var rest := if e.Some? then Statements(e.value) else [];
    if e.Some? {
      HasReturnReaches(e.value);
    } else {
      assert !ContainsReturn(rest);
    }
    ReturnInTail([n], Statements(c) + rest);
    ReturnInEither(Statements(c), rest);
    assert Statements(n) == [n] + (Statements(c) + rest);
  }

  lemma {:induction false} AnyReturnReaches(ss: seq<Node>)
    ensures AnyReturn(ss) <==> AllReachReturn(ss)
    decreases ss
  {
    if ss != [] {
      HasReturnReaches(ss[0]);
      AnyReturnReaches(ss[1..]);
      ReturnInEither(Statements(ss[0]), StatementsOfAll(ss[1..]));
      assert StatementsOfAll(ss) == Statements(ss[0]) + StatementsOfAll(ss[1..]);
    }
  }

  /** A `return` occurs in a + b exactly when it occurs in a or in b. */
  lemma {:induction false} ReturnInEither(a: seq<Node>, b: seq<Node>)
    ensures ContainsReturn(a + b) <==> ContainsReturn(a) || ContainsReturn(b)
  {
    if exists k :: 0 <= k < |b| && b[k].Return? {
      var k :| 0 <= k < |b| && b[k].Return?;
      assert (a + b)[|a| + k] == b[k];
    }
    if exists k :: 0 <= k < |a| && a[k].Return? {
      var k :| 0 <= k < |a| && a[k].Return?;
      assert (a + b)[k] == a[k];
    }
    if exists k :: 0 <= k < |a + b| && (a + b)[k].Return? {
      var k :| 0 <= k < |a + b| && (a + b)[k].Return?;
      if k < |a| {
        assert a[k] == (a + b)[k];
      } else {
        assert b[k - |a|] == (a + b)[k];
      }
    }
  }

  /** A list headed by a statement that is not a `return` holds one exactly when its tail does. */
  lemma {:induction false} ReturnInTail(head: seq<Node>, b: seq<Node>)
    requires |head| == 1 && !head[0].Return?
    ensures ContainsReturn(head + b) <==> ContainsReturn(b)
  {
    ReturnInEither(head, b);
  }

  /**
   * One statement of `linearizeSequence`, given the already linearised
   * statements `ks` that follow it.
   */
  function LinearizeStatement(s: Node, ks: seq<Node>): Result<seq<Node>>
    decreases s
  {
    match s
    case Block(body) => LinearizeSequence(body, 0, ks)
    case If(t, c, e) =>
      var alt := if e.None? then Empty else e.value;
      if HasReturn(c) || HasReturn(alt) then
        match LinearizeStatement(c, ks)
        case Err(m) => Err(m)
        case Ok(lc) =>
          match (if e.None? then Ok([Empty] + ks) else LinearizeStatement(e.value, ks))
          case Err(m) => Err(m)
          case Ok(la) => Ok([If(t, Block(lc), Some(Block(la)))])
      else Ok([If(t, c, Some(alt))] + ks)
    case Return(a) => Ok([ExpressionStmt(a)])
    case Empty => Ok([s] + ks)
    case ExpressionStmt(_) => Ok([s] + ks)
    case VarDecl(_) => Ok([s] + ks)
    case _ => Err("linearize: unrecognized node")
  }

  /** `linearizeSequence(ss, i, ks)`: the statements from i on, the later ones linearised first. */
  function LinearizeSequence(ss: seq<Node>, i: nat, ks: seq<Node>): Result<seq<Node>>
    requires i <= |ss|
    decreases ss, |ss| - i
  {
    if i == |ss| then Ok(ks)
    else
      match LinearizeSequence(ss, i + 1, ks)
      case Err(m) => Err(m)
      case Ok(rest) => LinearizeStatement(ss[i], rest)
  }

  /** `linearize(nodes)`. */
  function Linearize(nodes: seq<Node>): Result<seq<Node>> {
    LinearizeSequence(nodes, 0, [])
  }

  /** The one-statement lists `linearize` builds for each `if` branch reduce to that statement. */
  lemma {:induction false} SingleStatement(s: Node, ks: seq<Node>)
    ensures LinearizeSequence([s], 0, ks) == LinearizeStatement(s, ks)
  {
  }

  /** Nothing to linearise gives nothing. */
  lemma {:induction false} LinearizeNothing()
    ensures Linearize([]) == Ok([])
  {
  }

  /** Linearising a + b is linearising b and then a in front of the result. */
  lemma {:induction false} LinearizeAppend(a: seq<Node>, b: seq<Node>, ks: seq<Node>)
    ensures LinearizeSequence(a + b, 0, ks) ==
      match LinearizeSequence(b, 0, ks)
      case Err(m) => Err(m)
      case Ok(kb) => LinearizeSequence(a, 0, kb)
  {
    ShiftedSequence(a, b, 0, ks);
    assert (a + b)[|a|..] == b;
    SuffixSequence(a + b, |a|, ks);
  }

  /** Linearising a + b from a position inside a goes through b first. */
  lemma {:induction false} ShiftedSequence(a: seq<Node>, b: seq<Node>, i: nat, ks: seq<Node>)
    requires i <= |a|
    ensures LinearizeSequence(a + b, i, ks) ==
      match LinearizeSequence(a + b, |a|, ks)
      case Err(m) => Err(m)
      case Ok(kb) => LinearizeSequence(a, i, kb)
    decreases |a| - i
  {
    if i < |a| {
      ShiftedSequence(a, b, i + 1, ks);
      assert (a + b)[i] == a[i];
    }
  }

  /** Linearising from position j is linearising the suffix from j. */
  lemma {:induction false} SuffixSequence(ss: seq<Node>, j: nat, ks: seq<Node>)
    requires j <= |ss|
    ensures LinearizeSequence(ss, j, ks) == LinearizeSequence(ss[j..], 0, ks)
  {
    SuffixFrom(ss, j, j, ks);
  }

  lemma {:induction false} SuffixFrom(ss: seq<Node>, j: nat, i: nat, ks: seq<Node>)
    requires j <= i <= |ss|
    ensures LinearizeSequence(ss, i, ks) == LinearizeSequence(ss[j..], i - j, ks)
    decreases |ss| - i
  {
    if i < |ss| {
      SuffixFrom(ss, j, i + 1, ks);
      assert ss[j..][i - j] == ss[i];
    }
  }

  /** A block is flattened into the list around it. */
  lemma {:induction false} BlockFlattened(body: seq<Node>, rest: seq<Node>, ks: seq<Node>)
    ensures LinearizeSequence([Block(body)] + rest, 0, ks) == LinearizeSequence(body + rest, 0, ks)
  {
    LinearizeAppend([Block(body)], rest, ks);
    LinearizeAppend(body, rest, ks);
  }

  /** A `return e` becomes `e;`, and what follows it is dropped once it linearises. */
  lemma {:induction false} ReturnDropsRest(e: Node, rest: seq<Node>, ks: seq<Node>)
    ensures LinearizeSequence([Return(e)] + rest, 0, ks) ==
      if LinearizeSequence(rest, 0, ks).Ok? then Ok([ExpressionStmt(e)]) else LinearizeSequence(rest, 0, ks)
  {
    LinearizeAppend([Return(e)], rest, ks);
  }

  /** A missing `else` is linearised as an empty statement. */
  lemma {:induction false} MissingElseIsEmpty(t: Node, c: Node, ks: seq<Node>)
    ensures LinearizeStatement(If(t, c, None), ks) == LinearizeStatement(If(t, c, Some(Empty)), ks)
  {
  }

  /** An `if` with a return copies the continuation into both branches and is the last statement. */
  lemma {:induction false} ReturningIfTakesContinuation(t: Node, c: Node, e: Node, ks: seq<Node>)
    requires HasReturn(c) || HasReturn(e)
    requires LinearizeStatement(c, ks).Ok? && LinearizeStatement(e, ks).Ok?
    ensures LinearizeStatement(If(t, c, Some(e)), ks) ==
      Ok([If(t, Block(LinearizeStatement(c, ks).value), Some(Block(LinearizeStatement(e, ks).value)))])
  {
  }

  /** An `if` without returns stays in place, followed by the rest. */
  lemma {:induction false} PlainIfKept(t: Node, c: Node, e: Node, ks: seq<Node>)
    requires !HasReturn(c) && !HasReturn(e)
    ensures LinearizeStatement(If(t, c, Some(e)), ks) == Ok([If(t, c, Some(e))] + ks)
  {
  }

  /** The statements the pass keeps as they are. */
  predicate Simple(s: Node) {
    s.Empty? || s.ExpressionStmt? || s.VarDecl?
  }

  /** Empty, expression and declaration statements keep their place; other statement kinds are rejected. */
  lemma {:induction false} StatementKinds(s: Node, ks: seq<Node>)
    ensures Simple(s) ==> LinearizeStatement(s, ks) == Ok([s] + ks)
    ensures !Simple(s) && !s.Block? && !s.If? && !s.Return? ==> LinearizeStatement(s, ks).Err?
  {
  }

  /** A list in linear form: only `if`, empty, expression and declaration statements, none of which returns. */
  predicate Linear(ss: seq<Node>) {
    forall k :: 0 <= k < |ss| ==> (Simple(ss[k]) || ss[k].If?) && !HasReturn(ss[k])
  }

  /** Linearising a statement in front of a linear continuation leaves a linear list. */
  lemma {:induction false} StatementLinear(s: Node, ks: seq<Node>)
    requires Linear(ks) && LinearizeStatement(s, ks).Ok?
    ensures Linear(LinearizeStatement(s, ks).value)
    decreases s
  {
    match s
    case Block(body) => SequenceLinear(body, 0, ks);
    case If(t, c, e) =>
      var alt := if e.None? then Empty else e.value;
      if HasReturn(c) || HasReturn(alt) {
        StatementLinear(c, ks);
        if e.Some? {
          StatementLinear(e.value, ks);
        }
        var lc := LinearizeStatement(c, ks).value;
        var la := LinearizeStatement(alt, ks).value;
        assert !AnyReturn(lc) by { NoReturnInLinear(lc); }
        assert !AnyReturn(la) by { NoReturnInLinear(la); }
      }
    case Return(a) =>
    case _ =>
  }

  lemma {:induction false} SequenceLinear(ss: seq<Node>, i: nat, ks: seq<Node>)
    requires i <= |ss| && Linear(ks) && LinearizeSequence(ss, i, ks).Ok?
    ensures Linear(LinearizeSequence(ss, i, ks).value)
    decreases ss, |ss| - i
  {
    if i < |ss| {
      SequenceLinear(ss, i + 1, ks);
      StatementLinear(ss[i], LinearizeSequence(ss, i + 1, ks).value);
    }
  }

  /** No statement of a linear list returns. */
  lemma {:induction false} NoReturnInLinear(ss: seq<Node>)
    requires Linear(ss)
    ensures !AnyReturn(ss)
    decreases ss
  {
    if ss != [] {
      NoReturnInLinear(ss[1..]);
    }
  }

  /** `linearize` leaves a linear list: no `return` and no block remains at any level reached by the pass. */
  lemma {:induction false} LinearizeIsLinear(nodes: seq<Node>)
    requires Linearize(nodes).Ok?
    ensures Linear(Linearize(nodes).value)
  {
    SequenceLinear(nodes, 0, []);
  }
}
