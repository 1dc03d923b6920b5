/**
 * The second ELBO estimator: a coarse dependency graph of the execution
 * (how p and q factorise, and the conditional independence mapData
 * declares), whose "deps" are propagated from every node to its ancestors so
 * that each sample's likelihood-ratio term is weighted only by the factors
 * downstream of it.
 */
module Elbo2 {
  import opened Wrappers
  import opened JsNum
  import opened MiniBatch
  import G = ElboGraph

  datatype Kind =
    | RootNode
    | SampleNode(logp: real, logq: real, logr: real, reparam: bool, multiplier: real)
    | FactorNode(score: real, multiplier: real)
    | JoinNode

  /** A node of the graph; parents are positions in the node list. */
  datatype Node = Node(id: nat, kind: Kind, parents: seq<nat>)

  /** Sample and factor nodes carry a weight and are their own first dependency. */
  predicate Scored(k: Kind) {
    k.SampleNode? || k.FactorNode?
  }

  /** `weight`: logq - logp for a sample, minus the score for a factor. */
  function Weight(k: Kind): real {
    match k
    case SampleNode(logp, logq, _, _, _) => logq - logp
    case FactorNode(score, _) => -score
    case _ => 0.0
  }

  /** The `deps` each node starts with: itself for sample and factor nodes, nothing otherwise. */
  function InitialDeps(nodes: seq<Node>): (d: seq<set<nat>>)
    ensures |d| == |nodes|
    ensures forall i :: 0 <= i < |nodes| ==> d[i] == if Scored(nodes[i].kind) then {i} else {}
  {
    seq(|nodes|, i requires 0 <= i < |nodes| => if Scored(nodes[i].kind) then {i} else {})
  }

  /** Every node's parents were created before it. */
  predicate ParentsBefore(nodes: seq<Node>) {
    forall i :: 0 <= i < |nodes| ==> forall j :: 0 <= j < |nodes[i].parents| ==> nodes[i].parents[j] < i
  }

  /** The shape the estimator builds: the root first, and every other node hung below an earlier one. */
  predicate Shaped(nodes: seq<Node>) {
    |nodes| >= 1 && nodes[0].kind.RootNode? && ParentsBefore(nodes) &&
    forall i :: 1 <= i < |nodes| ==> !nodes[i].kind.RootNode? && |nodes[i].parents| >= 1
  }

  // ---------------------------------------------------------------------------
  // Dependency propagation

  /**
   * What `propagateDependencies` leaves in node k: its own deps and the final
   * deps of every child.
   */
  function FinalDeps(nodes: seq<Node>, d0: seq<set<nat>>, k: nat): set<nat>
    requires ParentsBefore(nodes) && |d0| == |nodes| && k < |nodes|
    decreases |nodes| - k, 1
  {
    d0[k] + ChildDeps(nodes, d0, k, k + 1)
  }

  /** The union of the final deps of k's children at positions c and later. */
  function ChildDeps(nodes: seq<Node>, d0: seq<set<nat>>, k: nat, c: nat): set<nat>
    requires ParentsBefore(nodes) && |d0| == |nodes| && k < c <= |nodes|
    decreases |nodes| - k, 0, |nodes| - c
  {
    if c == |nodes| then {}
    else (if k in nodes[c].parents then FinalDeps(nodes, d0, c) else {}) + ChildDeps(nodes, d0, k, c + 1)
  }

  /** The deps of k once every child from position `from` on has been merged in. */
  function Partial(nodes: seq<Node>, d0: seq<set<nat>>, k: nat, from: nat): set<nat>
    requires ParentsBefore(nodes) && |d0| == |nodes| && k < |nodes|
  {
    d0[k] + ChildDeps(nodes, d0, k, if from <= k then k + 1 else if from > |nodes| then |nodes| else from)
  }

  /**
   * `propagateDependencies`: last node first, down to (not including) the
   * root, merge each node's deps into each of its parents' deps.
   */
  method PropagateDependencies(nodes: seq<Node>, deps: array<set<nat>>)
    requires ParentsBefore(nodes) && |nodes| >= 1 && deps.Length == |nodes|
    modifies deps
    ensures forall k :: 0 <= k < |nodes| ==> deps[k] == FinalDeps(nodes, old(deps[..]), k)
  {
    ghost var d0 := deps[..];
    var i := |nodes| - 1;
    while i > 0
      invariant 0 <= i < |nodes|
      invariant forall k :: 0 <= k < |nodes| ==> deps[k] == Partial(nodes, d0, k, i + 1)
    {
      ghost var before := deps[..];
      assert deps[i] == FinalDeps(nodes, d0, i);
      var ps := nodes[i].parents;
      var j := 0;
      while j < |ps|
        invariant 0 <= j <= |ps|
        invariant forall k :: 0 <= k < |nodes| ==> deps[k] == before[k] + (if k in ps[..j] then before[i] else {})
      {
        assert ps[..j + 1] == ps[..j] + [ps[j]];
        deps[ps[j]] := deps[ps[j]] + deps[i];
        j := j + 1;
      }
      assert ps[..j] == ps;
      forall k | 0 <= k < |nodes|
        ensures deps[k] == Partial(nodes, d0, k, i)
      {
        if k < i {
          assert ChildDeps(nodes, d0, k, i) ==
            (if k in ps then FinalDeps(nodes, d0, i) else {}) + ChildDeps(nodes, d0, k, i + 1);
        }
      }
      i := i - 1;
    }
  }

  /** Every dependency of k is a sample or factor node at k or after it. */
  lemma {:induction false} FinalDepsScored(nodes: seq<Node>, k: nat)
    requires ParentsBefore(nodes) && k < |nodes|
    ensures forall x :: x in FinalDeps(nodes, InitialDeps(nodes), k) ==> k <= x < |nodes| && Scored(nodes[x].kind)
    decreases |nodes| - k, 1
  {
    ChildDepsScored(nodes, k, k + 1);
  }

  lemma {:induction false} ChildDepsScored(nodes: seq<Node>, k: nat, c: nat)
    requires ParentsBefore(nodes) && k < c <= |nodes|
    ensures forall x :: x in ChildDeps(nodes, InitialDeps(nodes), k, c) ==> c <= x < |nodes| && Scored(nodes[x].kind)
    decreases |nodes| - k, 0, |nodes| - c
  {
    if c < |nodes| {
      FinalDepsScored(nodes, c);
      ChildDepsScored(nodes, k, c + 1);
    }
  }

  /** A child's final deps are part of each parent's. */
  lemma {:induction false} ChildDepsInclude(nodes: seq<Node>, d0: seq<set<nat>>, k: nat, from: nat, c: nat)
    requires ParentsBefore(nodes) && |d0| == |nodes| && k < from <= c < |nodes| && k in nodes[c].parents
    ensures FinalDeps(nodes, d0, c) <= ChildDeps(nodes, d0, k, from)
    decreases c - from
  {
    if from < c {
      ChildDepsInclude(nodes, d0, k, from + 1, c);
    }
  }

  /** Every node's final deps reach the root. */
  lemma {:induction false} DepsReachRoot(nodes: seq<Node>, d0: seq<set<nat>>, c: nat)
    requires Shaped(nodes) && |d0| == |nodes| && c < |nodes|
    ensures FinalDeps(nodes, d0, c) <= FinalDeps(nodes, d0, 0)
    decreases c
  {
    if c > 0 {
      var p := nodes[c].parents[0];
      assert p < c && p in nodes[c].parents;
      ChildDepsInclude(nodes, d0, p, p + 1, c);
      DepsReachRoot(nodes, d0, p);
    }
  }

  /** The sample and factor nodes of the graph. */
  function ScoredNodes(nodes: seq<Node>): set<nat> {
    set x | 0 <= x < |nodes| && Scored(nodes[x].kind)
  }

  /** After propagation the root depends on exactly the sample and factor nodes. */
  lemma {:induction false} RootDependsOnAll(nodes: seq<Node>)
    requires Shaped(nodes)
    ensures FinalDeps(nodes, InitialDeps(nodes), 0) == ScoredNodes(nodes)
  {
    var d0 := InitialDeps(nodes);
    FinalDepsScored(nodes, 0);
    forall x | x in ScoredNodes(nodes)
      ensures x in FinalDeps(nodes, d0, 0)
    {
      assert x in d0[x];
      DepsReachRoot(nodes, d0, x);
    }
  }

  /** A sample or factor node is among its own final deps. */
  lemma {:induction false} OwnDependency(nodes: seq<Node>, k: nat)
    requires ParentsBefore(nodes) && k < |nodes| && Scored(nodes[k].kind)
    ensures k in FinalDeps(nodes, InitialDeps(nodes), k)
  {
    assert k in InitialDeps(nodes)[k];
  }

  // ---------------------------------------------------------------------------
  // The objective

  const UnexpectedDependency := "Unexpected node type as dependency."

  /** The check `buildObjective` makes of every sample node's deps. */
  predicate DepsAreScored(nodes: seq<Node>, deps: seq<set<nat>>)
    requires |deps| == |nodes|
  {
    forall i :: 0 <= i < |nodes| && nodes[i].kind.SampleNode? ==>
      forall x :: x in deps[i] ==> x < |nodes| && Scored(nodes[x].kind)
  }

  /** `buildObjective`'s failure: a sample depends on a node that is neither a sample nor a factor. */
  function CheckDeps(nodes: seq<Node>, deps: seq<set<nat>>): (r: Result<()>)
    requires |deps| == |nodes|
    ensures r.Ok? <==> DepsAreScored(nodes, deps)
    ensures r.Err? ==> r.msg == UnexpectedDependency
  {
    if DepsAreScored(nodes, deps) then Ok(()) else Err(UnexpectedDependency)
  }

  /** The deps `propagateDependencies` computes never make `buildObjective` throw. */
  lemma {:induction false} PropagatedDepsPass(nodes: seq<Node>)
    requires ParentsBefore(nodes)
    ensures CheckDeps(nodes, seq(|nodes|, k requires 0 <= k < |nodes| => FinalDeps(nodes, InitialDeps(nodes), k))).Ok?
  {
    var deps := seq(|nodes|, k requires 0 <= k < |nodes| => FinalDeps(nodes, InitialDeps(nodes), k));
    forall i | 0 <= i < |nodes| && nodes[i].kind.SampleNode?
      ensures forall x :: x in deps[i] ==> x < |nodes| && Scored(nodes[x].kind)
    {
      FinalDepsScored(nodes, i);
    }
  }

  /** The `elbo` of `buildObjective`: minus the weights of the sample and factor nodes. */
  function ElboValue(nodes: seq<Node>): real {
    if nodes == [] then 0.0
    else
      var last := nodes[|nodes| - 1];
      ElboValue(nodes[..|nodes| - 1]) - (if Scored(last.kind) then Weight(last.kind) else 0.0)
  }

  /** This estimator's graph as the first estimator would have built it (no splits). */
  function ToGraph(nodes: seq<Node>): (g: seq<G.GraphNode>)
    ensures |g| == |nodes|
  {
    seq(|nodes|, i requires 0 <= i < |nodes| => G.GraphNode(nodes[i].id, ToKind(nodes[i].kind), nodes[i].parents))
  }

  function ToKind(k: Kind): G.Kind {
    match k
    case RootNode => G.RootKind
    case SampleNode(logp, logq, _, reparam, m) => G.SampleKind(logp, logq, reparam, "", m)
    case FactorNode(score, m) => G.FactorKind(score, m)
    case JoinNode => G.JoinKind
  }

  /** The local weights the first estimator starts propagation from. */
  function LocalWeights(nodes: seq<Node>): (w: seq<real>)
    ensures |w| == |nodes|
  {
    seq(|nodes|, i requires 0 <= i < |nodes| => G.InitialWeight(ToKind(nodes[i].kind), false))
  }

  /** The elbo is minus the sum of the local weights. */
  lemma {:induction false} ElboIsMinusWeights(nodes: seq<Node>)
    ensures ElboValue(nodes) == -G.Sum(LocalWeights(nodes))
  {
    if nodes != [] {
      var init := nodes[..|nodes| - 1];
      ElboIsMinusWeights(init);
      assert LocalWeights(nodes)[..|nodes| - 1] == LocalWeights(init);
    }
  }

  /**
   * On a graph where every node but the root has one parent, this estimator's
   * elbo is the one the first estimator reads off its root after propagating
   * weights.
   */
  lemma {:induction false} SameElboAsFirstEstimator(nodes: seq<Node>)
    requires Shaped(nodes) && forall i :: 1 <= i < |nodes| ==> |nodes[i].parents| == 1
    ensures G.WellFormed(ToGraph(nodes)) && G.SingleParents(ToGraph(nodes))
    ensures ElboValue(nodes) == -G.Propagate(ToGraph(nodes), LocalWeights(nodes), |nodes| - 1)[0]
  {
    var g := ToGraph(nodes);
    assert G.WellFormed(g);
    ElboIsMinusWeights(nodes);
    G.RootCollectsAll(g, LocalWeights(nodes));
  }

  // ---------------------------------------------------------------------------
  // Building the graph during one execution

  /** The bottom of the mapData stack, and a mapData in progress. */
  datatype Frame =
    | Bottom(multiplier: real)
    | Open(prevNode: nat, joinId: nat, joinParents: seq<nat>, multiplier: real)

  const LogpNotFinite := "SampleNode: logp is not finite."
  const LogqNotFinite := "SampleNode: logq is not finite."
  const LogrNotFinite := "SampleNode: logr is not finite."
  const ScoreNotFinite := "FactorNode: score is not finite."

  /** Every open mapData refers to existing nodes. */
  predicate FramesOk(nodes: seq<Node>, stack: seq<Frame>) {
    |stack| >= 1 && stack[0] == Bottom(1.0) &&
    forall f :: 1 <= f < |stack| ==> stack[f].Open? && FrameOk(nodes, stack[f])
  }

  predicate FrameOk(nodes: seq<Node>, t: Frame)
    requires t.Open?
  {
    t.prevNode < |nodes| && forall j :: 0 <= j < |t.joinParents| ==> t.joinParents[j] < |nodes|
  }

  lemma {:induction false} FramesGrow(nodes: seq<Node>, stack: seq<Frame>, n: Node)
    requires FramesOk(nodes, stack)
    ensures FramesOk(nodes + [n], stack)
  {
    forall f | 1 <= f < |stack|
      ensures FrameOk(nodes + [n], stack[f])
    {
      assert FrameOk(nodes, stack[f]);
    }
  }

  /** The factor by which a batch stands for the whole data set (1 for an empty batch). */
  function BatchMultiplier(dataLength: nat, batchSize: nat): (m: real)
    ensures m >= 0.0
  {
    if batchSize > 0 then dataLength as real / batchSize as real else 1.0
  }

  /**
   * The stack entry `mapDataFetch` pushes: the node before the mapData, the
   * join node's id, and the enclosing multiplier scaled for this batch.
   */
  function EnterBatch(prevNode: nat, joinId: nat, dataLength: nat, batchSize: nat, enclosing: real): (t: Frame)
    ensures t.Open? && t.prevNode == prevNode && t.joinId == joinId && t.joinParents == []
    ensures batchSize == 0 ==> t.multiplier == enclosing
  {
    Open(prevNode, joinId, [], BatchMultiplier(dataLength, batchSize) * enclosing)
  }

  class Estimate {
    var nodes: seq<Node>
    var prevNode: nat
    var mapDataStack: seq<Frame>
    var mapDataIx: Memo
    /** The `nodeid` counter. */
    var nextId: nat

    ghost predicate Valid()
      reads this
    {
      Shaped(nodes) && prevNode < |nodes| && FramesOk(nodes, mapDataStack)
    }

    /** `estimateGradient`'s start: only the root (ids come from a counter kept across estimates). */
    constructor (firstId: nat)
      ensures Valid()
      ensures nodes == [Node(firstId, RootNode, [])] && prevNode == 0 && nextId == firstId + 1
      ensures mapDataStack == [Bottom(1.0)] && mapDataIx == map[]
    {
      nodes := [Node(firstId, RootNode, [])];
      prevNode := 0;
      mapDataStack := [Bottom(1.0)];
      mapDataIx := map[];
      nextId := firstId + 1;
    }

    function Multiplier(): real
      reads this
      requires |mapDataStack| >= 1
    {
      mapDataStack[|mapDataStack| - 1].multiplier
    }

    /** Append a node under the current node and make it the current node. */
    method Push(kind: Kind, id: nat)
      requires Valid() && Scored(kind)
      modifies this
      ensures Valid()
      ensures nodes == old(nodes) + [Node(id, kind, [old(prevNode)])] && prevNode == |old(nodes)|
      ensures mapDataStack == old(mapDataStack) && mapDataIx == old(mapDataIx) && nextId == old(nextId)
    {
      var n := Node(id, kind, [prevNode]);
      FramesGrow(nodes, mapDataStack, n);
      nodes := nodes + [n];
      prevNode := |nodes| - 1;
    }

    /**
     * `sample` once the guide has drawn: scale the target score and the
     * guide's logq and logr by the mapData multiplier and add a sample node,
     * unless one of the three is not finite.
     */
    method Sample(targetScore: Num, guideLogq: Num, guideLogr: Num, reparam: bool) returns (r: Result<()>)
      requires Valid()
      modifies this
      ensures Valid()
      ensures var m := Finite(old(Multiplier()));
        var logp := Mul(m, targetScore);
        var logq := Mul(m, guideLogq);
        var logr := Mul(m, guideLogr);
        && (!logp.Finite? ==> r == Err(LogpNotFinite))
        && (logp.Finite? && !logq.Finite? ==> r == Err(LogqNotFinite))
        && (logp.Finite? && logq.Finite? && !logr.Finite? ==> r == Err(LogrNotFinite))
        && (r.Err? ==> nodes == old(nodes) && prevNode == old(prevNode) && nextId == old(nextId) + 1)
        && (r.Ok? <==> logp.Finite? && logq.Finite? && logr.Finite?)
        && (r.Ok? ==>
              && nodes == old(nodes) + [Node(old(nextId), SampleNode(logp.r, logq.r, logr.r, reparam, m.r), [old(prevNode)])]
              && prevNode == |old(nodes)| && nextId == old(nextId) + 1)
      ensures mapDataStack == old(mapDataStack) && mapDataIx == old(mapDataIx)
    {
      var m := Finite(Multiplier());
      var logp := Mul(m, targetScore);
      var logq := Mul(m, guideLogq);
      var logr := Mul(m, guideLogr);
      var id := nextId;
      nextId := nextId + 1;
      if !logp.Finite? {
        return Err(LogpNotFinite);
      }
      if !logq.Finite? {
        return Err(LogqNotFinite);
      }
      if !logr.Finite? {
        return Err(LogrNotFinite);
      }
      Push(SampleNode(logp.r, logq.r, logr.r, reparam, m.r), id);
      r := Ok(());
    }

    /**
     * `factor`: scale the score by the multiplier and add a factor node, unless
     * it is not finite. The factor node takes two ids from the counter and keeps
     * the second.
     */
    method Factor(score: Num) returns (r: Result<()>)
      requires Valid()
      modifies this
      ensures Valid()
      ensures var s := Mul(Finite(old(Multiplier())), score);
        && (r.Ok? <==> s.Finite?)
        && (r.Err? ==> r == Err(ScoreNotFinite) && nodes == old(nodes) && prevNode == old(prevNode) && nextId == old(nextId) + 1)
        && (r.Ok? ==>
              && nodes == old(nodes) + [Node(old(nextId) + 1, FactorNode(s.r, old(Multiplier())), [old(prevNode)])]
              && prevNode == |old(nodes)| && nextId == old(nextId) + 2)
      ensures mapDataStack == old(mapDataStack) && mapDataIx == old(mapDataIx)
    {
      var m := Multiplier();
      var s := Mul(Finite(m), score);
      nextId := nextId + 1;
      if !s.Finite? {
        return Err(ScoreNotFinite);
      }
      var id := nextId;
      nextId := nextId + 1;
      Push(FactorNode(s.r, m), id);
      r := Ok(());
    }

    /**
     * `mapDataFetch`: the (memoised) batch indices, and a new stack entry
     * remembering the current node, a join node in the making and the
     * multiplier scaled by data size over batch size (by 1 for an empty batch).
     */
    method MapDataFetch(dataLength: nat, batchSize: nat, address: string, u: seq<real>) returns (ix: Option<seq<nat>>)
      requires Valid()
      requires |u| == batchSize && forall k :: 0 <= k < |u| ==> 0.0 <= u[k] < 1.0
      modifies this
      ensures Valid()
      ensures (ix, mapDataIx) == FetchIndices(old(mapDataIx), address, dataLength, batchSize, u)
      ensures mapDataStack == old(mapDataStack) + [EnterBatch(old(prevNode), old(nextId), dataLength, batchSize, old(Multiplier()))]
      ensures nodes == old(nodes) && prevNode == old(prevNode) && nextId == old(nextId) + 1
    {
      var t := EnterBatch(prevNode, nextId, dataLength, batchSize, Multiplier());
      var fetched := FetchIndices(mapDataIx, address, dataLength, batchSize, u);
      ix := fetched.0;
      mapDataIx := fetched.1;
      nextId := nextId + 1;
      mapDataStack := mapDataStack + [t];
      assert FrameOk(nodes, t);
    }

    /** `mapDataEnter`: every observation starts from the node before the mapData. */
    method MapDataEnter()
      requires Valid() && |mapDataStack| >= 2
      modifies this
      ensures Valid() && mapDataStack[|mapDataStack| - 1].Open? && prevNode == mapDataStack[|mapDataStack| - 1].prevNode
      ensures nodes == old(nodes) && mapDataStack == old(mapDataStack)
    {
      assert FrameOk(nodes, mapDataStack[|mapDataStack| - 1]);
      prevNode := mapDataStack[|mapDataStack| - 1].prevNode;
    }

    /** `mapDataLeave`: the node an observation ended on becomes a parent of the join node. */
    method MapDataLeave()
      requires Valid() && |mapDataStack| >= 2
      modifies this
      ensures Valid() && nodes == old(nodes) && prevNode == old(prevNode)
      ensures var t := old(mapDataStack[|mapDataStack| - 1]);
        mapDataStack == old(mapDataStack)[|old(mapDataStack)| - 1 := t.(joinParents := t.joinParents + [old(prevNode)])]
    {
      var last := |mapDataStack| - 1;
      var t := mapDataStack[last];
      assert FrameOk(nodes, t);
      var t2 := t.(joinParents := t.joinParents + [prevNode]);
      assert FrameOk(nodes, t2);
      mapDataStack := mapDataStack[last := t2];
    }

    /**
     * `mapDataFinal`: pop the stack and add the join node, which becomes the
     * current node; after an empty batch it hangs below the node before the
     * mapData.
     */
    method MapDataFinal()
      requires Valid() && |mapDataStack| >= 2
      modifies this
      ensures Valid()
      ensures mapDataStack == old(mapDataStack[..|mapDataStack| - 1])
      ensures var t := old(mapDataStack[|mapDataStack| - 1]);
        nodes == old(nodes) + [Node(t.joinId, JoinNode, if t.joinParents == [] then [t.prevNode] else t.joinParents)]
      ensures prevNode == |old(nodes)|
    {
      var last := |mapDataStack| - 1;
      var t := mapDataStack[last];
      assert FrameOk(nodes, t);
      var parents := if t.joinParents == [] then [t.prevNode] else t.joinParents;
      var join := Node(t.joinId, JoinNode, parents);
      FramesGrow(nodes, mapDataStack, join);
      nodes := nodes + [join];
      prevNode := |nodes| - 1;
      mapDataStack := mapDataStack[..last];
    }
  }
}
