/**
 * Parser combinators over a sequence of AST nodes. A parser is called with
 * the nodes, a position and two continuations, and calls exactly one of them
 * exactly once, in tail position: `succeed` with its values and the new
 * position, or `fail`. A parser is therefore identified here with the reply
 * it hands to its continuations: a value and a position, a failure, or no
 * reply at all when it runs forever.
 */
module ParserCombinator {
  import opened Wrappers

  datatype Reply<V> = Fail | Success(value: V, next: nat) | Loops

  type Parser<!N, V> = (seq<N>, nat) -> Reply<V>

  /** A test on one node that succeeds with a value or fails (the argument of `single`). */
  type NodeTest<!N, V> = N -> Option<V>

  /** `zero`: always fails. */
  function Zero<N, V>(nodes: seq<N>, i: nat): (r: Reply<V>)
    ensures r.Fail?
  {
    Fail
  }

  /** `item`: the node at the position, one step on; failure at the end of the input. */
  function Item<N>(nodes: seq<N>, i: nat): (r: Reply<N>)
    ensures r.Fail? <==> i >= |nodes|
    ensures r.Success? ==> r.value == nodes[i] && r.next == i + 1 && r.next <= |nodes|
  {
    if i >= |nodes| then Fail else Success(nodes[i], i + 1)
  }

  /** `finish(v)`: succeeds with v, consuming nothing, exactly at the end of the input. */
  function Finish<N, V>(v: V): Parser<N, V> {
    (nodes: seq<N>, i: nat) => if i == |nodes| then Success(v, i) else Fail
  }

  /** `result(v)`: succeeds with v without consuming anything. */
  function Result<N, V>(v: V): Parser<N, V> {
    (nodes: seq<N>, i: nat) => Success(v, i)
  }

  /** `bind(p, f)`: runs p, then the parser f makes of p's value from where p stopped. */
  function Bind<N, A, B>(p: Parser<N, A>, f: A -> Parser<N, B>): Parser<N, B> {
    (nodes: seq<N>, i: nat) =>
      match p(nodes, i)
      case Fail => Fail
      case Loops => Loops
      case Success(v, j) => f(v)(nodes, j)
  }

  /** `rep(p)`: p as many times as it succeeds, collecting its values in order. */
  function Rep<N, V>(p: Parser<N, V>): Parser<N, seq<V>> {
    (nodes: seq<N>, i: nat) => RepFrom(p, nodes, i)
  }

  /**
   * The loop of `rep` from position i. A success that does not move forward
   * would repeat for ever; parsers built from these combinators never move
   * back or past the end, so those are the only other cases.
   */
  function RepFrom<N, V>(p: Parser<N, V>, nodes: seq<N>, i: nat): Reply<seq<V>>
    decreases if i <= |nodes| then |nodes| - i else 0
  {
    match p(nodes, i)
    case Fail => Success([], i)
    case Loops => Loops
    case Success(v, j) =>
      if i < j <= |nodes| then
        match RepFrom(p, nodes, j)
        case Success(vs, k) => Success([v] + vs, k)
        case other => other
      else Loops
  }

  /** `seq(ps)`: every parser of ps in turn, each from where the previous one stopped. */
  function Seq<N, V>(ps: seq<Parser<N, V>>): Parser<N, seq<V>> {
    (nodes: seq<N>, i: nat) => SeqFrom(ps, 0, nodes, i)
  }

  /** The loop of `seq` from the j-th parser. */
  function SeqFrom<N, V>(ps: seq<Parser<N, V>>, j: nat, nodes: seq<N>, i: nat): Reply<seq<V>>
    decreases |ps| - j
  {
    if j >= |ps| then Success([], i)
    else
      match ps[j](nodes, i)
      case Fail => Fail
      case Loops => Loops
      case Success(x, k) =>
        match SeqFrom(ps, j + 1, nodes, k)
        case Success(xs, l) => Success([x] + xs, l)
        case other => other
  }

  /** `maybe(p, x)`: p, or x at the same position when p fails. */
  function Maybe<N, V>(p: Parser<N, V>, x: V): Parser<N, V> {
    (nodes: seq<N>, i: nat) => if p(nodes, i).Fail? then Success(x, i) else p(nodes, i)
  }

  /** `apply(p, f)`: p with f applied to its value. */
  function Apply<N, A, B>(p: Parser<N, A>, f: A -> B): Parser<N, B> {
    (nodes: seq<N>, i: nat) =>
      match p(nodes, i)
      case Success(v, j) => Success(f(v), j)
      case Fail => Fail
      case Loops => Loops
  }

  /** `or(ps)`: the first parser of ps that does not fail, tried left to right. */
  function Or<N, V>(ps: seq<Parser<N, V>>): Parser<N, V> {
    (nodes: seq<N>, i: nat) => OrFrom(ps, 0, nodes, i)
  }

  function OrFrom<N, V>(ps: seq<Parser<N, V>>, j: nat, nodes: seq<N>, i: nat): Reply<V>
    decreases |ps| - j
  {
    if j >= |ps| then Fail
    else if ps[j](nodes, i).Fail? then OrFrom(ps, j + 1, nodes, i)
    else ps[j](nodes, i)
  }

  /** `single(p)`: the next node, when the test accepts it. */
  function Single<N, V>(test: NodeTest<N, V>): Parser<N, V> {
    (nodes: seq<N>, i: nat) =>
      match Item(nodes, i)
      case Success(node, j) => (if test(node).Some? then Success(test(node).value, j) else Fail)
      case _ => Fail
  }

  /** `not(p)`: a node test that accepts, with 42, exactly the nodes p rejects. */
  function Not<N, V>(test: NodeTest<N, V>): NodeTest<N, int> {
    (node: N) => if test(node).Some? then None else Some(42)
  }

  /** Trying `zero` first changes nothing about the rest of an `or`. */
  lemma {:induction false} OrFromSkipsZero<N, V>(ps: seq<Parser<N, V>>, j: nat, nodes: seq<N>, i: nat)
    ensures OrFrom([Zero<N, V>] + ps, j + 1, nodes, i) == OrFrom(ps, j, nodes, i)
    decreases |ps| - j
  {
    if j < |ps| {
      assert ([Zero<N, V>] + ps)[j + 1] == ps[j];
      OrFromSkipsZero(ps, j + 1, nodes, i);
    }
  }

  /**
   * `zero` is the unit of `or` and absorbs `bind`: an `or` that starts with it
   * behaves as the rest, and binding it to anything fails.
   */
  lemma {:induction false} ZeroLaws<N, A, B>(ps: seq<Parser<N, A>>, f: A -> Parser<N, B>, nodes: seq<N>, i: nat)
    ensures Or([Zero<N, A>] + ps)(nodes, i) == Or(ps)(nodes, i)
    ensures Bind(Zero<N, A>, f)(nodes, i) == Fail
    ensures Rep(Zero<N, A>)(nodes, i) == Success([], i)
  {
    OrFromSkipsZero(ps, 0, nodes, i);
  }

  /** `item` is `single` of the test that accepts every node as itself. */
  lemma {:induction false} ItemIsSingle<N>(nodes: seq<N>, i: nat)
    ensures Item(nodes, i) == Single((n: N) => Some(n))(nodes, i)
  {
  }

  /** `finish` succeeds exactly at the end of the input, and consumes nothing. */
  lemma {:induction false} FinishAtEnd<N, V>(v: V, nodes: seq<N>, i: nat)
    ensures Finish(v)(nodes, i).Success? <==> i == |nodes|
    ensures Finish(v)(nodes, i).Success? ==> Finish(v)(nodes, i) == Success(v, i)
    ensures !Finish(v)(nodes, i).Loops?
  {
  }

  /** `result` always succeeds in place, and binding it to p gives p back. */
  lemma {:induction false} BindResult<N, V>(p: Parser<N, V>, nodes: seq<N>, i: nat)
    ensures Bind(p, (v: V) => Result<N, V>(v))(nodes, i) == p(nodes, i)
  {
  }

  /** p's values from i to j, one after the other, are vs, and p fails at j. */
  ghost predicate Repeats<N, V>(p: Parser<N, V>, nodes: seq<N>, i: nat, vs: seq<V>, j: nat)
    decreases |vs|
  {
    if vs == [] then i == j && p(nodes, i).Fail?
    else (p(nodes, i).Success? && p(nodes, i).value == vs[0]
      && Repeats(p, nodes, p(nodes, i).next, vs[1..], j))
  }

  /** `rep` never fails. */
  lemma {:induction false} RepNeverFails<N, V>(p: Parser<N, V>, nodes: seq<N>, i: nat)
    ensures !Rep(p)(nodes, i).Fail?
    decreases if i <= |nodes| then |nodes| - i else 0
  {
    match p(nodes, i)
    case Fail =>
    case Loops =>
    case Success(v, j) =>
      if i < j <= |nodes| {
        RepNeverFails(p, nodes, j);
      }
  }

  /** A successful `rep` applies p greedily: its values are p's successive results, up to where p fails. */
  lemma {:induction false} RepIsGreedy<N, V>(p: Parser<N, V>, nodes: seq<N>, i: nat)
    requires Rep(p)(nodes, i).Success?
    ensures Repeats(p, nodes, i, Rep(p)(nodes, i).value, Rep(p)(nodes, i).next)
    decreases if i <= |nodes| then |nodes| - i else 0
  {
    match p(nodes, i)
    case Fail =>
    case Success(v, j) =>
      RepIsGreedy(p, nodes, j);
      var r := RepFrom(p, nodes, j);
      assert ([v] + r.value)[1..] == r.value;
  }

  /** The parsers ps[j..] succeed one after the other from i to k with the values xs. */
  ghost predicate Chain<N, V>(ps: seq<Parser<N, V>>, j: nat, nodes: seq<N>, i: nat, xs: seq<V>, k: nat)
    decreases |ps| - j
  {
    if j >= |ps| then xs == [] && i == k
    else (|xs| > 0 && ps[j](nodes, i).Success? && ps[j](nodes, i).value == xs[0]
      && Chain(ps, j + 1, nodes, ps[j](nodes, i).next, xs[1..], k))
  }

  /** `seq(ps)` succeeds with xs exactly when every parser of ps succeeds in turn, producing xs. */
  lemma {:induction false} SeqIsChain<N, V>(ps: seq<Parser<N, V>>, nodes: seq<N>, i: nat, xs: seq<V>, k: nat)
    ensures Seq(ps)(nodes, i) == Success(xs, k) <==> Chain(ps, 0, nodes, i, xs, k)
  {
    SeqFromIsChain(ps, 0, nodes, i, xs, k);
  }

  lemma {:induction false} SeqFromIsChain<N, V>(ps: seq<Parser<N, V>>, j: nat, nodes: seq<N>, i: nat, xs: seq<V>, k: nat)
    ensures SeqFrom(ps, j, nodes, i) == Success(xs, k) <==> Chain(ps, j, nodes, i, xs, k)
    decreases |ps| - j
  {
    if j < |ps| {
      match ps[j](nodes, i)
      case Fail =>
      case Loops =>
      case Success(x, m) =>
        if |xs| > 0 {
          SeqFromIsChain(ps, j + 1, nodes, m, xs[1..], k);
          assert [xs[0]] + xs[1..] == xs;
        }
        var r := SeqFrom(ps, j + 1, nodes, m);
        if r.Success? {
          assert ([x] + r.value)[1..] == r.value;
        }
    }
  }

  /** A successful `seq(ps)` yields one value per parser. */
  lemma {:induction false} ChainLength<N, V>(ps: seq<Parser<N, V>>, j: nat, nodes: seq<N>, i: nat, xs: seq<V>, k: nat)
    requires j <= |ps| && Chain(ps, j, nodes, i, xs, k)
    ensures |xs| == |ps| - j
    decreases |ps| - j
  {
    if j < |ps| {
      ChainLength(ps, j + 1, nodes, ps[j](nodes, i).next, xs[1..], k);
    }
  }

  /** ps[m] is the first parser from ps[j] on that does not fail at i. */
  ghost predicate FirstNonFailure<N, V>(ps: seq<Parser<N, V>>, j: nat, nodes: seq<N>, i: nat, m: int) {
    j <= m < |ps| && !ps[m](nodes, i).Fail? && forall l :: j <= l < m ==> ps[l](nodes, i).Fail?
  }

  /** `or(ps)` gives the reply of the first parser that does not fail, and fails when all fail. */
  lemma {:induction false} OrIsFirstNonFailure<N, V>(ps: seq<Parser<N, V>>, j: nat, nodes: seq<N>, i: nat)
    requires j <= |ps|
    ensures OrFrom(ps, j, nodes, i).Fail? <==> forall m :: j <= m < |ps| ==> ps[m](nodes, i).Fail?
    ensures !OrFrom(ps, j, nodes, i).Fail? ==>
      exists m :: FirstNonFailure(ps, j, nodes, i, m) && OrFrom(ps, j, nodes, i) == ps[m](nodes, i)
    decreases |ps| - j
  {
    if j < |ps| && ps[j](nodes, i).Fail? {
      OrIsFirstNonFailure(ps, j + 1, nodes, i);
      if !OrFrom(ps, j, nodes, i).Fail? {
        var m :| FirstNonFailure(ps, j + 1, nodes, i, m) && OrFrom(ps, j + 1, nodes, i) == ps[m](nodes, i);
        assert FirstNonFailure(ps, j, nodes, i, m);
      }
    }
  }

  /** `or([])` fails. */
  lemma {:induction false} OrEmptyFails<N, V>(nodes: seq<N>, i: nat)
    ensures Or<N, V>([])(nodes, i).Fail?
  {
  }

  /** `maybe(p, x)` never fails, and falls back to x without consuming. */
  lemma {:induction false} MaybeFallsBack<N, V>(p: Parser<N, V>, x: V, nodes: seq<N>, i: nat)
    ensures !Maybe(p, x)(nodes, i).Fail?
    ensures p(nodes, i).Fail? ==> Maybe(p, x)(nodes, i) == Success(x, i)
    ensures !p(nodes, i).Fail? ==> Maybe(p, x)(nodes, i) == p(nodes, i)
  {
  }

  /** `single(test)` consumes exactly one node, the one the test accepted. */
  lemma {:induction false} SingleConsumesOne<N, V>(test: NodeTest<N, V>, nodes: seq<N>, i: nat)
    ensures Single(test)(nodes, i).Success? <==> i < |nodes| && test(nodes[i]).Some?
    ensures Single(test)(nodes, i).Success? ==>
      Single(test)(nodes, i) == Success(test(nodes[i]).value, i + 1)
  {
    if i < |nodes| {
      assert Item(nodes, i) == Success(nodes[i], i + 1);
    } else {
      assert Item(nodes, i).Fail?;
    }
  }

  /** `not(test)` accepts exactly what test rejects. */
  lemma {:induction false} NotFlips<N, V>(test: NodeTest<N, V>, node: N)
    ensures Not(test)(node).Some? <==> test(node).None?
    ensures Not(test)(node).Some? ==> Not(test)(node).value == 42
  {
  }

  /** `apply(p, f)` consumes what p consumes and maps its value. */
  lemma {:induction false} ApplyMaps<N, A, B>(p: Parser<N, A>, f: A -> B, nodes: seq<N>, i: nat)
    ensures Apply(p, f)(nodes, i).Success? <==> p(nodes, i).Success?
    ensures p(nodes, i).Success? ==>
      Apply(p, f)(nodes, i) == Success(f(p(nodes, i).value), p(nodes, i).next)
  {
  }

  /** On these nodes, p moves forward and never past the end when it succeeds, and it never runs for ever. */
  ghost predicate Advances<N, V>(p: Parser<N, V>, nodes: seq<N>) {
    forall i: nat :: i <= |nodes| ==>
      !p(nodes, i).Loops? && (p(nodes, i).Success? ==> i < p(nodes, i).next <= |nodes|)
  }

  /** `rep` of a parser that always makes progress runs to an end. */
  lemma {:induction false} RepTerminates<N, V>(p: Parser<N, V>, nodes: seq<N>, i: nat)
    requires Advances(p, nodes) && i <= |nodes|
    ensures Rep(p)(nodes, i).Success? && Rep(p)(nodes, i).next <= |nodes|
    decreases |nodes| - i
  {
    match p(nodes, i)
    case Fail =>
    case Success(v, j) =>
      assert i < j <= |nodes|;
      RepTerminates(p, nodes, j);
  }

  /** `rep(item)` takes every remaining node, in order. */
  lemma {:induction false} RepItemTakesRest<N>(nodes: seq<N>, i: nat)
    requires i <= |nodes|
    ensures Rep(Item<N>)(nodes, i) == Success(nodes[i..], |nodes|)
    decreases |nodes| - i
  {
    if i < |nodes| {
      assert Item(nodes, i) == Success(nodes[i], i + 1);
      RepItemTakesRest(nodes, i + 1);
      assert [nodes[i]] + nodes[i + 1..] == nodes[i..];
    } else {
      assert Item(nodes, i).Fail?;
      assert nodes[i..] == [];
    }
  }
}
