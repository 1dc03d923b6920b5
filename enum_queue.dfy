/**
 * The queues of computation states that enumeration explores: each state
 * is a continuation (identified by a number), the value to resume it with
 * and the score of the path so far. Depth-first search uses an array with
 * `push`/`pop`, breadth-first search an array with `push`/`shift`, and
 * likely-first search a priority queue ordered by score.
 */
module EnumQueue {
  import opened JsNum
  import Types

  datatype Strategy = LikelyFirst | DepthFirst | BreadthFirst

  /** A state waiting to be explored; the copied store it carries is not part of this model. */
  datatype QState = QState(cont: nat, value: Types.Value, score: Num)

  /** `enq`: every strategy pushes onto the end. */
  function Enq(q: seq<QState>, s: QState): (r: seq<QState>)
    ensures |r| == |q| + 1 && r[..|q|] == q && r[|q|] == s
  {
    q + [s]
  }

  /** `Less` on scores is transitive, so a running maximum stays a maximum. */
  lemma {:induction false} LessTransitive(a: Num, b: Num, c: Num)
    requires Less(a, b) && Less(b, c)
    ensures Less(a, c)
  {
  }

  /** A state of highest score among the first n: none of them beats it, and on ties the earliest is kept. */
  function Best(q: seq<QState>, n: nat): (i: nat)
    requires 0 < n <= |q|
    ensures i < n
    ensures forall j :: 0 <= j < n ==> !Less(q[i].score, q[j].score)
  {
    if n == 1 then 0
    else
      var i := Best(q, n - 1);
      if Less(q[i].score, q[n - 1].score) then
        assert forall j :: 0 <= j < n - 1 ==> !Less(q[n - 1].score, q[j].score) by {
          forall j | 0 <= j < n - 1 ensures !Less(q[n - 1].score, q[j].score) {
            if Less(q[n - 1].score, q[j].score) {
              LessTransitive(q[i].score, q[n - 1].score, q[j].score);
            }
          }
        }
        n - 1
      else i
  }

  /** The position `deq` takes a state from: the end, the front, or the best score. */
  function DeqIndex(strategy: Strategy, q: seq<QState>): (i: nat)
    requires |q| > 0
    ensures i < |q|
  {
    match strategy
    case DepthFirst => |q| - 1
    case BreadthFirst => 0
    case LikelyFirst => Best(q, |q|)
  }

  /** `deq`: the state taken and the queue left behind. */
  function Deq(strategy: Strategy, q: seq<QState>): (r: (QState, seq<QState>))
    requires |q| > 0
    ensures |r.1| == |q| - 1
    ensures multiset(q) == multiset(r.1) + multiset{r.0}
    ensures strategy.LikelyFirst? ==> forall j :: 0 <= j < |q| ==> !Less(r.0.score, q[j].score)
  {
    var i := DeqIndex(strategy, q);
    assert q == q[..i] + [q[i]] + q[i + 1..];
    (q[i], q[..i] + q[i + 1..])
  }

  /** Depth first: the state pushed last is the one taken, and what was there before is left. */
  lemma {:induction false} DepthFirstIsLastInFirstOut(q: seq<QState>, s: QState)
    ensures Deq(DepthFirst, Enq(q, s)) == (s, q)
  {
    var e := Enq(q, s);
    assert e[..|q|] + e[|q| + 1..] == q;
  }

  /** Breadth first: the oldest state is taken, and a state pushed waits behind the rest. */
  lemma {:induction false} BreadthFirstIsFirstInFirstOut(h: QState, q: seq<QState>, s: QState)
    ensures Deq(BreadthFirst, Enq([h] + q, s)) == (h, q + [s])
  {
    var e := Enq([h] + q, s);
    assert e[..0] + e[1..] == q + [s];
  }

  /** States pushed one after the other come out depth first in the opposite order. */
  lemma {:induction false} DepthFirstReverses(q: seq<QState>, a: QState, b: QState)
    ensures var r1 := Deq(DepthFirst, Enq(Enq(q, a), b));
      r1 == (b, Enq(q, a)) && Deq(DepthFirst, r1.1) == (a, q)
  {
    DepthFirstIsLastInFirstOut(Enq(q, a), b);
    DepthFirstIsLastInFirstOut(q, a);
  }

  /** States pushed one after the other onto an empty queue come out breadth first in the same order. */
  lemma {:induction false} BreadthFirstKeepsOrder(a: QState, b: QState)
    ensures var r1 := Deq(BreadthFirst, Enq(Enq([], a), b));
      r1 == (a, [b]) && Deq(BreadthFirst, r1.1) == (b, [])
  {
    var e := Enq(Enq([], a), b);
    assert e == [a, b];
    assert e[..0] + e[1..] == [b];
    assert [b][..0] + [b][1..] == [];
  }
}
