/**
 * The dependency graph the ELBO estimator builds while a program runs: one
 * node per sample, factor and mapData split/join, with the weights pushed back
 * from each node to its parents to weight the likelihood-ratio terms.
 *
 * Nodes live in the list they were created in and refer to their parents and
 * to their join node by position in that list.
 */
module ElboGraph {
  import opened JsString

  datatype Kind =
    | RootKind
    | SampleKind(logp: real, logq: real, reparam: bool, address: string, multiplier: real)
    | FactorKind(score: real, multiplier: real)
    | SplitKind(batchSize: nat, n: nat, join: nat)
    | JoinKind

  /** A graph node: its display id, what it records, and its parents' positions. */
  datatype GraphNode = GraphNode(id: nat, kind: Kind, parents: seq<nat>)

  /**
   * The weight a node starts with: `logq - logp` for a sample, `-score` for a
   * factor (1 for both in debug mode), 0 for the structural nodes.
   */
  function InitialWeight(kind: Kind, debug: bool): (w: real)
    ensures !kind.SampleKind? && !kind.FactorKind? ==> w == 0.0
    ensures debug && (kind.SampleKind? || kind.FactorKind?) ==> w == 1.0
  {
    match kind
    case SampleKind(logp, logq, _, _, _) => if debug then 1.0 else logq - logp
    case FactorKind(score, _) => if debug then 1.0 else -score
    case _ => 0.0
  }

  /**
   * The shape the ELBO builds: a root first, every parent created before its
   * child, and every split node with a positive batch size and a join node
   * created after it.
   */
  predicate WellFormed(nodes: seq<GraphNode>) {
    |nodes| >= 1 && nodes[0].kind.RootKind? &&
    forall i :: 0 <= i < |nodes| ==>
      (forall j :: 0 <= j < |nodes[i].parents| ==> nodes[i].parents[j] < i) &&
      (nodes[i].kind.SplitKind? ==> nodes[i].kind.batchSize > 0 && i < nodes[i].kind.join < |nodes|)
  }

  /** How often k occurs in ps. */
  function Count(ps: seq<nat>, k: nat): nat {
    if ps == [] then 0 else Count(ps[..|ps| - 1], k) + (if ps[|ps| - 1] == k then 1 else 0)
  }

  lemma {:induction false} CountAbsent(ps: seq<nat>, k: nat)
    requires forall j :: 0 <= j < |ps| ==> ps[j] != k
    ensures Count(ps, k) == 0
  {
    if ps != [] {
      CountAbsent(ps[..|ps| - 1], k);
    }
  }

  /** `a` added up c times. */
  function Times(c: nat, a: real): real {
    if c == 0 then 0.0 else Times(c - 1, a) + a
  }

  /** Adding `a` to the weight of every parent in `ps`, one `+=` per entry. */
  function AddToParents(ps: seq<nat>, w: seq<real>, a: real): (r: seq<real>)
    requires forall j :: 0 <= j < |ps| ==> ps[j] < |w|
    ensures |r| == |w|
  {
    if ps == [] then w
    else
      var r0 := AddToParents(ps[..|ps| - 1], w, a);
      r0[ps[|ps| - 1] := r0[ps[|ps| - 1]] + a]
  }

  /** Each weight grows by `a` once per occurrence of its index among the parents. */
  lemma {:induction false} AddToParentsCounts(ps: seq<nat>, w: seq<real>, a: real, k: nat)
    requires forall j :: 0 <= j < |ps| ==> ps[j] < |w|
    requires k < |w|
    ensures AddToParents(ps, w, a)[k] == w[k] + Times(Count(ps, k), a)
  {
    if ps != [] {
      AddToParentsCounts(ps[..|ps| - 1], w, a, k);
    }
  }

  lemma {:induction false} AddToParentsSnoc(ps: seq<nat>, m: nat, w: seq<real>, a: real)
    requires m < |ps| && forall j :: 0 <= j < |ps| ==> ps[j] < |w|
    ensures var r := AddToParents(ps[..m], w, a);
      AddToParents(ps[..m + 1], w, a) == r[ps[m] := r[ps[m]] + a]
  {
    assert ps[..m + 1][..m] == ps[..m];
  }

  lemma {:induction false} AddToOneParent(p: nat, w: seq<real>, a: real)
    requires p < |w|
    ensures AddToParents([p], w, a) == w[p := w[p] + a]
  {
    assert [p][..0] == [];
  }

  /** The weight node i pushes: a split node first rescales for the mini-batch and the join's repeats. */
  function Adjusted(nodes: seq<GraphNode>, w: seq<real>, i: nat): real
    requires WellFormed(nodes) && |w| == |nodes| && i < |nodes|
  {
    match nodes[i].kind
    case SplitKind(b, n, j) => (n as real / b as real) * w[i] - (n as real - 1.0) * w[j]
    case _ => w[i]
  }

  /** Visiting node i: store its adjusted weight and add it to each parent. */
  function Step(nodes: seq<GraphNode>, w: seq<real>, i: nat): (r: seq<real>)
    requires WellFormed(nodes) && |w| == |nodes| && 1 <= i < |nodes|
    ensures |r| == |w|
  {
    var a := Adjusted(nodes, w, i);
    AddToParents(nodes[i].parents, w[i := a], a)
  }

  /** Visiting nodes i, i-1, ..., 1 in turn. */
  function Propagate(nodes: seq<GraphNode>, w: seq<real>, i: nat): (r: seq<real>)
    requires WellFormed(nodes) && |w| == |nodes| && i < |nodes|
    ensures |r| == |w|
    decreases i
  {
    if i == 0 then w else Propagate(nodes, Step(nodes, w, i), i - 1)
  }

  /** `propagateWeights`: the in-place pass over the node list, last node first, stopping before the root. */
  method PropagateWeights(nodes: seq<GraphNode>, weight: array<real>)
    requires WellFormed(nodes) && weight.Length == |nodes|
    modifies weight
    ensures weight[..] == Propagate(nodes, old(weight[..]), |nodes| - 1)
  {
    var i := |nodes| - 1;
    while i > 0
      invariant 0 <= i < |nodes|
      invariant Propagate(nodes, weight[..], i) == Propagate(nodes, old(weight[..]), |nodes| - 1)
      decreases i
    {
      ghost var before := weight[..];
      var a := Adjusted(nodes, weight[..], i);
      weight[i] := a;
      var ps := nodes[i].parents;
      var m := 0;
      while m < |ps|
        invariant 0 <= m <= |ps|
        invariant weight[..] == AddToParents(ps[..m], before[i := a], a)
      {
        AddToParentsSnoc(ps, m, before[i := a], a);
        ghost var cur := weight[..];
        weight[ps[m]] := weight[ps[m]] + a;
        assert weight[..] == cur[ps[m] := cur[ps[m]] + a];
        m := m + 1;
      }
      assert ps[..|ps|] == ps;
      i := i - 1;
    }
  }

  // The weights the pass computes, defined from the graph alone: a node ends
  // with its own weight plus what each child pushes (once per parent link),
  // and a split node pushes its rescaled weight.

  function FinalWeight(nodes: seq<GraphNode>, w0: seq<real>, k: nat): real
    requires WellFormed(nodes) && |w0| == |nodes| && k < |nodes|
    decreases |nodes| - k, 2
  {
    w0[k] + ChildSum(nodes, w0, k, k + 1)
  }

  function ChildSum(nodes: seq<GraphNode>, w0: seq<real>, k: nat, c: nat): real
    requires WellFormed(nodes) && |w0| == |nodes| && k < c <= |nodes|
    decreases |nodes| - c, 4
  {
    if c == |nodes| then 0.0
    else Times(Count(nodes[c].parents, k), Pushed(nodes, w0, c)) + ChildSum(nodes, w0, k, c + 1)
  }

  function Pushed(nodes: seq<GraphNode>, w0: seq<real>, k: nat): real
    requires WellFormed(nodes) && |w0| == |nodes| && k < |nodes|
    decreases |nodes| - k, 3
  {
    match nodes[k].kind
    case SplitKind(b, n, j) => (n as real / b as real) * FinalWeight(nodes, w0, k) - (n as real - 1.0) * Pushed(nodes, w0, j)
    case _ => FinalWeight(nodes, w0, k)
  }

  /** The state of the pass once every node after i has been visited. */
  ghost predicate Visited(nodes: seq<GraphNode>, w0: seq<real>, w: seq<real>, i: nat)
    requires WellFormed(nodes) && |w0| == |nodes| && i < |nodes|
  {
    |w| == |nodes| &&
    (forall k :: i < k < |nodes| ==> w[k] == Pushed(nodes, w0, k)) &&
    (forall k :: 0 <= k <= i ==> w[k] == w0[k] + ChildSum(nodes, w0, k, i + 1))
  }

  lemma {:induction false} StepVisits(nodes: seq<GraphNode>, w0: seq<real>, w: seq<real>, i: nat)
    requires WellFormed(nodes) && |w0| == |nodes| && 1 <= i < |nodes|
    requires Visited(nodes, w0, w, i)
    ensures Visited(nodes, w0, Step(nodes, w, i), i - 1)
  {
    var a := Adjusted(nodes, w, i);
    AdjustedIsPushed(nodes, w0, w, i);
    VisitedAfterPush(nodes, w0, w, i, a, Step(nodes, w, i));
  }

  lemma {:induction false} VisitedAfterPush(nodes: seq<GraphNode>, w0: seq<real>, w: seq<real>, i: nat, a: real, r: seq<real>)
    requires WellFormed(nodes) && |w0| == |nodes| && 1 <= i < |nodes|
    requires Visited(nodes, w0, w, i) && a == Pushed(nodes, w0, i)
    requires r == AddToParents(nodes[i].parents, w[i := a], a)
    ensures Visited(nodes, w0, r, i - 1)
  {
    forall k | i <= k < |nodes|
      ensures r[k] == Pushed(nodes, w0, k)
    {
      PushedAbove(nodes, w0, w, i, a, r, k);
    }
    forall k | 0 <= k < i
      ensures r[k] == w0[k] + ChildSum(nodes, w0, k, i)
    {
      PushedBelow(nodes, w0, w, i, a, r, k);
    }
  }

  lemma {:induction false} PushedAbove(nodes: seq<GraphNode>, w0: seq<real>, w: seq<real>, i: nat, a: real, r: seq<real>, k: nat)
    requires WellFormed(nodes) && |w0| == |nodes| && 1 <= i <= k < |nodes|
    requires Visited(nodes, w0, w, i) && a == Pushed(nodes, w0, i)
    requires r == AddToParents(nodes[i].parents, w[i := a], a)
    ensures r[k] == Pushed(nodes, w0, k)
  {
    CountAbsent(nodes[i].parents, k);
    AddToParentsCounts(nodes[i].parents, w[i := a], a, k);
  }

  lemma {:induction false} PushedBelow(nodes: seq<GraphNode>, w0: seq<real>, w: seq<real>, i: nat, a: real, r: seq<real>, k: nat)
    requires WellFormed(nodes) && |w0| == |nodes| && |w| == |nodes| && 0 <= k < i < |nodes|
    requires w[k] == w0[k] + ChildSum(nodes, w0, k, i + 1) && a == Pushed(nodes, w0, i)
    requires r == AddToParents(nodes[i].parents, w[i := a], a)
    ensures r[k] == w0[k] + ChildSum(nodes, w0, k, i)
  {
    var c := Times(Count(nodes[i].parents, k), a);
    var below := ChildSum(nodes, w0, k, i + 1);
    AddedAt(nodes[i].parents, w, i, a, r, k);
    ChildSumUnfold(nodes, w0, k, i, c, a, below);
  }

  lemma {:induction false} AddedAt(ps: seq<nat>, w: seq<real>, i: nat, a: real, r: seq<real>, k: nat)
    requires forall j :: 0 <= j < |ps| ==> ps[j] < |w|
    requires i < |w| && k < |w| && k != i && r == AddToParents(ps, w[i := a], a)
    ensures r[k] == w[k] + Times(Count(ps, k), a)
  {
    AddToParentsCounts(ps, w[i := a], a, k);
  }

  lemma {:induction false} ChildSumUnfold(nodes: seq<GraphNode>, w0: seq<real>, k: nat, i: nat, c: real, a: real, below: real)
    requires WellFormed(nodes) && |w0| == |nodes| && 0 <= k < i < |nodes|
    requires a == Pushed(nodes, w0, i) && c == Times(Count(nodes[i].parents, k), a)
    requires below == ChildSum(nodes, w0, k, i + 1)
    ensures ChildSum(nodes, w0, k, i) == c + below
  {
  }

  lemma {:induction false} AdjustedIsPushed(nodes: seq<GraphNode>, w0: seq<real>, w: seq<real>, i: nat)
    requires WellFormed(nodes) && |w0| == |nodes| && 1 <= i < |nodes|
    requires Visited(nodes, w0, w, i)
    ensures Adjusted(nodes, w, i) == Pushed(nodes, w0, i)
  {
    assert w[i] == FinalWeight(nodes, w0, i);
  }

  lemma {:induction false} PropagateFromVisited(nodes: seq<GraphNode>, w0: seq<real>, w: seq<real>, i: nat)
    requires WellFormed(nodes) && |w0| == |nodes| && i < |nodes|
    requires Visited(nodes, w0, w, i)
    ensures forall k :: 0 <= k < |nodes| ==> Propagate(nodes, w, i)[k] == Pushed(nodes, w0, k)
    decreases i
  {
    if i == 0 {
      assert w[0] == FinalWeight(nodes, w0, 0);
    } else {
      StepVisits(nodes, w0, w, i);
      PropagateFromVisited(nodes, w0, Step(nodes, w, i), i - 1);
    }
  }

  /** After the pass every node holds exactly the weight the graph defines for it. */
  lemma {:induction false} PropagateMeaning(nodes: seq<GraphNode>, w0: seq<real>)
    requires WellFormed(nodes) && |w0| == |nodes|
    ensures forall k :: 0 <= k < |nodes| ==> Propagate(nodes, w0, |nodes| - 1)[k] == Pushed(nodes, w0, k)
  {
    forall k | 0 <= k < |nodes|
      ensures w0[k] == w0[k] + ChildSum(nodes, w0, k, |nodes|)
    {
    }
    PropagateFromVisited(nodes, w0, w0, |nodes| - 1);
  }

  // ---- The root collects all weight in a chain without mapData ----

  function Sum(s: seq<real>): real {
    if s == [] then 0.0 else Sum(s[..|s| - 1]) + s[|s| - 1]
  }

  lemma {:induction false} SumUpdate(s: seq<real>, p: nat, d: real)
    requires p < |s|
    ensures Sum(s[p := s[p] + d]) == Sum(s) + d
  {
    var t := s[p := s[p] + d];
    if p == |s| - 1 {
      assert t[..|t| - 1] == s[..|s| - 1];
    } else {
      assert t[..|t| - 1] == s[..|s| - 1][p := s[p] + d];
      SumUpdate(s[..|s| - 1], p, d);
    }
  }

  /** Every node but the root has exactly one parent, and there is no mapData split. */
  predicate SingleParents(nodes: seq<GraphNode>) {
    forall i :: 1 <= i < |nodes| ==> |nodes[i].parents| == 1 && !nodes[i].kind.SplitKind?
  }

  lemma {:induction false} RootCollectsPrefix(nodes: seq<GraphNode>, w: seq<real>, i: nat)
    requires WellFormed(nodes) && SingleParents(nodes) && |w| == |nodes| && i < |nodes|
    ensures Propagate(nodes, w, i)[0] == Sum(w[..i + 1])
    decreases i
  {
    if i == 0 {
      assert w[..1][..0] == [];
    } else {
      var p := nodes[i].parents[0];
      var t := Step(nodes, w, i);
      assert t == w[p := w[p] + w[i]] by {
        assert w[i := w[i]] == w;
        assert nodes[i].parents == [p];
        AddToOneParent(p, w, w[i]);
      }
      assert t[..i] == w[..i][p := w[p] + w[i]];
      SumUpdate(w[..i], p, w[i]);
      assert w[..i + 1][..i] == w[..i];
      RootCollectsPrefix(nodes, t, i - 1);
    }
  }

  /** In a parent-before-child chain without splits, the root ends with the sum of all local weights. */
  lemma {:induction false} RootCollectsAll(nodes: seq<GraphNode>, w: seq<real>)
    requires WellFormed(nodes) && SingleParents(nodes) && |w| == |nodes|
    ensures Propagate(nodes, w, |nodes| - 1)[0] == Sum(w)
  {
    var n := |nodes| - 1;
    RootCollectsPrefix(nodes, w, n);
    assert w[..n + 1] == w;
  }

  /** The root is never visited: changing its weight changes its own result by as much and nothing else. */
  lemma {:induction false} RootNeverPushes(nodes: seq<GraphNode>, w: seq<real>, x: real, i: nat)
    requires WellFormed(nodes) && |w| == |nodes| && i < |nodes|
    ensures var r := Propagate(nodes, w, i);
      Propagate(nodes, w[0 := x], i) == r[0 := r[0] + (x - w[0])]
    decreases i
  {
    if i > 0 {
      var t := Step(nodes, w, i);
      var u := Step(nodes, w[0 := x], i);
      var a := Adjusted(nodes, w, i);
      assert Adjusted(nodes, w[0 := x], i) == a;
      forall k | 0 <= k < |w|
        ensures u[k] == t[0 := t[0] + (x - w[0])][k]
      {
        AddToParentsCounts(nodes[i].parents, w[i := a], a, k);
        AddToParentsCounts(nodes[i].parents, w[0 := x][i := a], a, k);
      }
      assert u == t[0 := t[0] + (x - w[0])];
      RootNeverPushes(nodes, t, t[0] + (x - w[0]), i - 1);
    }
  }

  /**
   * Why split nodes are rescaled: with the whole data set as the batch, a split
   * whose weight counts its join's weight once per observation pushes it once.
   */
  lemma {:induction false} SplitCountsJoinOnce(nodes: seq<GraphNode>, w0: seq<real>, s: nat, local: real)
    requires WellFormed(nodes) && |w0| == |nodes| && s < |nodes|
    requires nodes[s].kind.SplitKind? && nodes[s].kind.batchSize == nodes[s].kind.n
    requires FinalWeight(nodes, w0, s) == local + nodes[s].kind.n as real * Pushed(nodes, w0, nodes[s].kind.join)
    ensures Pushed(nodes, w0, s) == local + Pushed(nodes, w0, nodes[s].kind.join)
  {
    var n := nodes[s].kind.n as real;
    var j := Pushed(nodes, w0, nodes[s].kind.join);
    assert n / n == 1.0;
    calc {
      Pushed(nodes, w0, s);
      1.0 * (local + n * j) - (n - 1.0) * j;
      local + j;
    }
  }

  // ---- generateDot ----

  datatype DotLine = ShapeLine(id: nat, shape: string) | LabelLine(id: nat, text: string) | EdgeLine(src: nat, dst: nat)

  function Render(l: DotLine): string {
    match l
    case ShapeLine(id, shape) => "  " + NatToString(id) + " [shape = \"" + shape + "\"]"
    case LabelLine(id, text) => "  " + NatToString(id) + " [label = \"" + text + "\"]"
    case EdgeLine(src, dst) => "  " + NatToString(src) + " -> " + NatToString(dst) + ";"
  }

  function EdgeLines(nodes: seq<GraphNode>, ps: seq<nat>, child: nat): seq<DotLine>
    requires forall j :: 0 <= j < |ps| ==> ps[j] < |nodes|
  {
    if ps == [] then [] else EdgeLines(nodes, ps[..|ps| - 1], child) + [EdgeLine(nodes[ps[|ps| - 1]].id, child)]
  }

  /** The lines for one node: its shape, its label (samples and factors), one edge per parent. */
  function NodeLines(nodes: seq<GraphNode>, i: nat, text: string): seq<DotLine>
    requires WellFormed(nodes) && i < |nodes|
  {
    HeadLines(nodes[i], text) + EdgeLines(nodes, nodes[i].parents, nodes[i].id)
  }

  function HeadLines(n: GraphNode, text: string): seq<DotLine> {
    (if n.kind.FactorKind? then [ShapeLine(n.id, "box")] else []) +
    (if n.kind.RootKind? || n.kind.JoinKind? || n.kind.SplitKind? then [ShapeLine(n.id, "point")] else []) +
    (if n.kind.SampleKind? || n.kind.FactorKind? then [LabelLine(n.id, text)] else [])
  }

  function AllLines(nodes: seq<GraphNode>, labels: seq<string>, upto: nat): seq<DotLine>
    requires WellFormed(nodes) && |labels| == |nodes| && upto <= |nodes|
  {
    if upto == 0 then [] else AllLines(nodes, labels, upto - 1) + NodeLines(nodes, upto - 1, labels[upto - 1])
  }

  function RenderAll(lines: seq<DotLine>): seq<string> {
    if lines == [] then [] else RenderAll(lines[..|lines| - 1]) + [Render(lines[|lines| - 1])]
  }

  /**
   * `generateDot`: a Graphviz description of the graph. `labels[i]` is the
   * text of node i's `label()`.
   */
  method GenerateDot(nodes: seq<GraphNode>, labels: seq<string>) returns (dot: string)
    requires WellFormed(nodes) && |labels| == |nodes|
    ensures dot == "digraph {\n" + Join(RenderAll(AllLines(nodes, labels, |nodes|)), '\n') + "\n}\n"
  {
    var lines := CollectLines(nodes, labels);
    var text := RenderLines(lines);
    dot := "digraph {\n" + Join(text, '\n') + "\n}\n";
  }

  /** The first loop of `generateDot`: the lines of every node, node by node. */
  method CollectLines(nodes: seq<GraphNode>, labels: seq<string>) returns (lines: seq<DotLine>)
    requires WellFormed(nodes) && |labels| == |nodes|
    ensures lines == AllLines(nodes, labels, |nodes|)
  {
    lines := [];
    var i := 0;
    while i < |nodes|
      invariant 0 <= i <= |nodes| && lines == AllLines(nodes, labels, i)
    {
      lines := lines + NodeLines(nodes, i, labels[i]);
      i := i + 1;
    }
  }

  /** The second loop of `generateDot`: every line as text. */
  method RenderLines(lines: seq<DotLine>) returns (text: seq<string>)
    ensures text == RenderAll(lines)
  {
    text := [];
    var k := 0;
    while k < |lines|
      invariant 0 <= k <= |lines| && text == RenderAll(lines[..k])
    {
      RenderAllStep(lines, k);
      text := text + [Render(lines[k])];
      k := k + 1;
    }
    assert lines[..|lines|] == lines;
  }

  lemma {:induction false} RenderAllStep(lines: seq<DotLine>, k: nat)
    requires k < |lines|
    ensures RenderAll(lines[..k + 1]) == RenderAll(lines[..k]) + [Render(lines[k])]
  {
    assert lines[..k + 1][..k] == lines[..k];
  }

  /** The edge lines, in order. */
  function Edges(lines: seq<DotLine>): seq<(nat, nat)> {
    if lines == [] then []
    else Edges(lines[..|lines| - 1]) + (if lines[|lines| - 1].EdgeLine? then [(lines[|lines| - 1].src, lines[|lines| - 1].dst)] else [])
  }

  /** The (parent, child) id pairs of the graph, child by child and parent by parent. */
  function Links(nodes: seq<GraphNode>, upto: nat): seq<(nat, nat)>
    requires WellFormed(nodes) && upto <= |nodes|
  {
    if upto == 0 then [] else Links(nodes, upto - 1) + ParentLinks(nodes, nodes[upto - 1].parents, nodes[upto - 1].id)
  }

  function ParentLinks(nodes: seq<GraphNode>, ps: seq<nat>, child: nat): seq<(nat, nat)>
    requires forall j :: 0 <= j < |ps| ==> ps[j] < |nodes|
  {
    if ps == [] then [] else ParentLinks(nodes, ps[..|ps| - 1], child) + [(nodes[ps[|ps| - 1]].id, child)]
  }

  lemma {:induction false} EdgesConcat(a: seq<DotLine>, b: seq<DotLine>)
    ensures Edges(a + b) == Edges(a) + Edges(b)
    decreases |b|
  {
    if b == [] {
      assert a + b == a;
    } else {
      assert (a + b)[..|a + b| - 1] == a + b[..|b| - 1];
      EdgesConcat(a, b[..|b| - 1]);
    }
  }

  lemma {:induction false} EdgeLinesAreLinks(nodes: seq<GraphNode>, ps: seq<nat>, child: nat)
    requires forall j :: 0 <= j < |ps| ==> ps[j] < |nodes|
    ensures Edges(EdgeLines(nodes, ps, child)) == ParentLinks(nodes, ps, child)
  {
    if ps != [] {
      EdgeLinesAreLinks(nodes, ps[..|ps| - 1], child);
      EdgesConcat(EdgeLines(nodes, ps[..|ps| - 1], child), [EdgeLine(nodes[ps[|ps| - 1]].id, child)]);
      assert Edges([EdgeLine(nodes[ps[|ps| - 1]].id, child)]) == [(nodes[ps[|ps| - 1]].id, child)] by {
        assert [EdgeLine(nodes[ps[|ps| - 1]].id, child)][..0] == [];
      }
    }
  }

  /** The output has exactly one edge line per parent link, in the order of the node list. */
  lemma {:induction false} DotEdgesAreLinks(nodes: seq<GraphNode>, labels: seq<string>, upto: nat)
    requires WellFormed(nodes) && |labels| == |nodes| && upto <= |nodes|
    ensures Edges(AllLines(nodes, labels, upto)) == Links(nodes, upto)
  {
    if upto > 0 {
      var i := upto - 1;
      var before := AllLines(nodes, labels, i);
      var lines := NodeLines(nodes, i, labels[i]);
      assert AllLines(nodes, labels, upto) == before + lines;
      assert Links(nodes, upto) == Links(nodes, i) + ParentLinks(nodes, nodes[i].parents, nodes[i].id);
      DotEdgesAreLinks(nodes, labels, i);
      NodeEdges(nodes, i, labels[i]);
      EdgesConcat(before, lines);
    }
  }

  lemma {:induction false} NodeEdges(nodes: seq<GraphNode>, i: nat, text: string)
    requires WellFormed(nodes) && i < |nodes|
    ensures Edges(NodeLines(nodes, i, text)) == ParentLinks(nodes, nodes[i].parents, nodes[i].id)
  {
    var n := nodes[i];
    var head := HeadLines(n, text);
    NoEdgesInPrefix(head, |head|);
    assert head[..|head|] == head;
    EdgesConcat(head, EdgeLines(nodes, n.parents, n.id));
    EdgeLinesAreLinks(nodes, n.parents, n.id);
  }

  lemma {:induction false} NoEdgesInPrefix(head: seq<DotLine>, m: nat)
    requires m <= |head| && forall j :: 0 <= j < |head| ==> !head[j].EdgeLine?
    ensures Edges(head[..m]) == []
  {
    if m > 0 {
      assert head[..m][..m - 1] == head[..m - 1];
      NoEdgesInPrefix(head, m - 1);
    }
  }
}
