/**
 * The older parser combinators, whose continuations take the value first. In
 * direct style `finish`, `zero`, `item`, `result`, `bind`, `star` (the same
 * loop as `rep`), `maybe`, `apply`, `single` and `not` coincide with the newer
 * ones; what differs is a binary `or` and the loop test of `seq`.
 */
module LegacyParserCombinator {
  import opened ParserCombinator

  /** `or(p, q)`: p, or q from the same position when p fails. */
  function OrPair<N, V>(p: Parser<N, V>, q: Parser<N, V>): Parser<N, V> {
    (nodes: seq<N>, i: nat) => if p(nodes, i).Fail? then q(nodes, i) else p(nodes, i)
  }

  /** The binary `or` is the list `or` of its two alternatives. */
  lemma {:induction false} OrPairIsOr<N, V>(p: Parser<N, V>, q: Parser<N, V>, nodes: seq<N>, i: nat)
    ensures OrPair(p, q)(nodes, i) == Or([p, q])(nodes, i)
  {
    var ps := [p, q];
    assert Or(ps)(nodes, i) == OrFrom(ps, 0, nodes, i);
    assert OrFrom(ps, 1, nodes, i) == (if q(nodes, i).Fail? then OrFrom(ps, 2, nodes, i) else q(nodes, i));
  }

  /** What the older `seq` hands on: a reply, or a `TypeError` from calling a parser past the end of the list. */
  datatype Outcome<V> = Replied(reply: Reply<V>) | TypeError

  /**
   * The older `seq(ps)` as written: its loop stops when the input position
   * equals the number of parsers, rather than when every parser has run.
   */
  function SeqAsWritten<N, V>(ps: seq<Parser<N, V>>, nodes: seq<N>, i: nat): Outcome<seq<V>> {
    SeqAsWrittenFrom(ps, 0, nodes, i)
  }

  function SeqAsWrittenFrom<N, V>(ps: seq<Parser<N, V>>, j: nat, nodes: seq<N>, i: nat): Outcome<seq<V>>
    decreases |ps| - j
  {
    if i == |ps| then Replied(Success([], i))
    else if j >= |ps| then TypeError
    else
      match ps[j](nodes, i)
      case Fail => Replied(Fail)
      case Loops => Replied(Loops)
      case Success(x, k) =>
        match SeqAsWrittenFrom(ps, j + 1, nodes, k)
        case Replied(Success(xs, l)) => Replied(Success([x] + xs, l))
        case other => other
  }

  /** Started past the beginning, the older `seq` can stop before running its parsers. */
  lemma {:induction false} SeqAsWrittenSkipsParsers()
    ensures SeqAsWritten([Item<int>], [1, 2], 1) == Replied(Success([], 1))
    ensures Seq([Item<int>])([1, 2], 1) == Success([2], 2)
  {
    var ps := [Item<int>];
    assert ps[0]([1, 2], 1) == Item([1, 2], 1) == Success(2, 2);
    assert SeqFrom(ps, 1, [1, 2], 2) == Success([], 2);
    assert [2] + [] == [2];
    assert SeqFrom(ps, 0, [1, 2], 1) == Success([2], 2);
    assert Seq(ps)([1, 2], 1) == SeqFrom(ps, 0, [1, 2], 1);
  }

  /** A parser that consumes nothing makes the older `seq` call a parser that is not in the list. */
  lemma {:induction false} SeqAsWrittenRunsOffTheList()
    ensures SeqAsWritten<int, int>([Result<int, int>(0)], [], 0) == TypeError
    ensures Seq<int, int>([Result<int, int>(0)])([], 0) == Success([0], 0)
  {
    var ps := [Result<int, int>(0)];
    assert ps[0]([], 0) == Success(0, 0);
    assert SeqAsWrittenFrom(ps, 1, [], 0) == TypeError;
    assert SeqFrom(ps, 1, [], 0) == Success([], 0);
    assert [0] + [] == [0];
    assert SeqFrom(ps, 0, [], 0) == Success([0], 0);
    assert Seq(ps)([], 0) == SeqFrom(ps, 0, [], 0);
  }

  /** Parser k, when it succeeds at position k, stops at position k + 1. */
  ghost predicate OneNodeEach<N, V>(ps: seq<Parser<N, V>>, nodes: seq<N>) {
    forall k: nat :: k < |ps| && ps[k](nodes, k).Success? ==> ps[k](nodes, k).next == k + 1
  }

  /**
   * Started at the beginning, with each parser taking one node, the older
   * `seq` agrees with the corrected one.
   */
  lemma {:induction false} SeqAsWrittenAgreesOnOneNodeEach<N, V>(ps: seq<Parser<N, V>>, j: nat, nodes: seq<N>)
    requires j <= |ps| && OneNodeEach(ps, nodes)
    ensures SeqAsWrittenFrom(ps, j, nodes, j) == Replied(SeqFrom(ps, j, nodes, j))
    decreases |ps| - j
  {
    if j < |ps| {
      match ps[j](nodes, j)
      case Fail =>
      case Loops =>
      case Success(x, k) =>
        assert k == j + 1;
        SeqAsWrittenAgreesOnOneNodeEach(ps, j + 1, nodes);
    }
  }
}
