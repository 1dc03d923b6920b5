/**
 * The ELBO estimator's per-execution bookkeeping: the dependency graph it
 * grows as samples, factors and mapData calls happen, the mini-batch indices
 * it memoises per mapData address, and the running-mean baselines it keeps
 * across optimisation steps.
 */
module Elbo {
  import opened Wrappers
  import opened JsNum
  import opened ElboGraph
  import opened ElboBaselines
  import opened MiniBatch

  /**
   * An entry of the mapData stack: the bottom entry holds only multiplier 1, a
   * non-empty batch its split node, its join node in the making, and its
   * multiplier; an empty batch is `null`.
   */
  datatype Frame =
    | Base(multiplier: real)
    | Batch(split: nat, joinId: nat, joinParents: seq<nat>, multiplier: real)

  const FactorNotFinite := "ELBO: factor score is not finite."

  /** `checkScoreIsFinite`'s message for a non-finite score. */
  function ScoreMessage(score: Num, source: string): string
    requires !score.Finite?
  {
    "ELBO: The score of the previous sample under the " + source + " program was " + NonFiniteText(score) + "." +
    (if score.NaN? then " Reducing the step size may help." else "")
  }

  /** Every node's parents were created before it. */
  ghost predicate ParentsBefore(nodes: seq<GraphNode>) {
    forall i :: 0 <= i < |nodes| ==> forall j :: 0 <= j < |nodes[i].parents| ==> nodes[i].parents[j] < i
  }

  /** The bottom of the stack is the whole program, every other entry a batch or `null`. */
  ghost predicate StackShape(stack: seq<Option<Frame>>) {
    |stack| >= 1 && stack[0] == Some(Base(1.0)) &&
    forall f :: 1 <= f < |stack| ==> stack[f].None? || stack[f].value.Batch?
  }

  /** Every open batch names an existing split node, and its join node's parents exist. */
  ghost predicate FramesOk(nodes: seq<GraphNode>, stack: seq<Option<Frame>>) {
    forall f :: 0 <= f < |stack| && stack[f].Some? && stack[f].value.Batch? ==> FrameOk(nodes, stack[f].value)
  }

  ghost predicate FrameOk(nodes: seq<GraphNode>, t: Frame)
    requires t.Batch?
  {
    t.split < |nodes| && nodes[t.split].kind.SplitKind? &&
    forall j :: 0 <= j < |t.joinParents| ==> t.joinParents[j] < |nodes|
  }

  /** Is node s the split node of an open batch? */
  ghost predicate IsOpenSplit(stack: seq<Option<Frame>>, s: nat) {
    exists f :: 0 <= f < |stack| && stack[f].Some? && stack[f].value.Batch? && stack[f].value.split == s
  }

  /** Every split node has a positive batch size, and its join node unless its batch is still open. */
  ghost predicate SplitsOk(nodes: seq<GraphNode>, stack: seq<Option<Frame>>) {
    forall i :: 0 <= i < |nodes| && nodes[i].kind.SplitKind? ==> SplitOk(nodes, stack, i)
  }

  ghost predicate SplitOk(nodes: seq<GraphNode>, stack: seq<Option<Frame>>, i: nat)
    requires i < |nodes| && nodes[i].kind.SplitKind?
  {
    nodes[i].kind.batchSize > 0 && (IsOpenSplit(stack, i) || i < nodes[i].kind.join < |nodes|)
  }

  /** Appending a node that is not a split keeps the graph and the stack consistent. */
  lemma {:induction false} AppendPlain(nodes: seq<GraphNode>, stack: seq<Option<Frame>>, n: GraphNode)
    requires ParentsBefore(nodes) && FramesOk(nodes, stack) && SplitsOk(nodes, stack)
    requires !n.kind.SplitKind? && forall j :: 0 <= j < |n.parents| ==> n.parents[j] < |nodes|
    ensures ParentsBefore(nodes + [n]) && FramesOk(nodes + [n], stack) && SplitsOk(nodes + [n], stack)
  {
    var ns := nodes + [n];
    forall f | 0 <= f < |stack| && stack[f].Some? && stack[f].value.Batch?
      ensures FrameOk(ns, stack[f].value)
    {
      assert FrameOk(nodes, stack[f].value);
      assert ns[stack[f].value.split] == nodes[stack[f].value.split];
    }
    forall i | 0 <= i < |ns| && ns[i].kind.SplitKind?
      ensures SplitOk(ns, stack, i)
    {
      assert SplitOk(nodes, stack, i);
    }
  }

  /** Opening a batch: its split node joins the graph and its entry the stack. */
  lemma {:induction false} OpenBatch(nodes: seq<GraphNode>, stack: seq<Option<Frame>>, n: GraphNode, t: Frame)
    requires ParentsBefore(nodes) && FramesOk(nodes, stack) && SplitsOk(nodes, stack)
    requires n.kind.SplitKind? && n.kind.batchSize > 0 && forall j :: 0 <= j < |n.parents| ==> n.parents[j] < |nodes|
    requires t.Batch? && t.split == |nodes| && t.joinParents == []
    ensures ParentsBefore(nodes + [n]) && FramesOk(nodes + [n], stack + [Some(t)]) && SplitsOk(nodes + [n], stack + [Some(t)])
  {
    var ns := nodes + [n];
    var st := stack + [Some(t)];
    forall f | 0 <= f < |st| && st[f].Some? && st[f].value.Batch?
      ensures FrameOk(ns, st[f].value)
    {
      if f < |stack| {
        assert FrameOk(nodes, stack[f].value);
        assert ns[stack[f].value.split] == nodes[stack[f].value.split];
      }
    }
    forall i | 0 <= i < |ns| && ns[i].kind.SplitKind?
      ensures SplitOk(ns, st, i)
    {
      if i < |nodes| {
        assert SplitOk(nodes, stack, i);
        if IsOpenSplit(stack, i) {
          var f :| 0 <= f < |stack| && stack[f].Some? && stack[f].value.Batch? && stack[f].value.split == i;
          assert st[f] == stack[f];
        }
      } else {
        assert st[|stack|].value.split == i;
      }
    }
  }

  /** Pushing `null` for an empty batch changes nothing that matters. */
  lemma {:induction false} PushEmpty(nodes: seq<GraphNode>, stack: seq<Option<Frame>>)
    requires FramesOk(nodes, stack) && SplitsOk(nodes, stack)
    ensures FramesOk(nodes, stack + [None]) && SplitsOk(nodes, stack + [None])
  {
    var st := stack + [None];
    forall f | 0 <= f < |st| && st[f].Some? && st[f].value.Batch?
      ensures FrameOk(nodes, st[f].value)
    {
      assert st[f] == stack[f];
    }
    forall i | 0 <= i < |nodes| && nodes[i].kind.SplitKind?
      ensures SplitOk(nodes, st, i)
    {
      assert SplitOk(nodes, stack, i);
      if IsOpenSplit(stack, i) {
        var f :| 0 <= f < |stack| && stack[f].Some? && stack[f].value.Batch? && stack[f].value.split == i;
        assert st[f] == stack[f];
      }
    }
  }

  /** Adding a parent to the innermost join node keeps every batch open. */
  lemma {:induction false} AddJoinParent(nodes: seq<GraphNode>, stack: seq<Option<Frame>>, p: nat)
    requires FramesOk(nodes, stack) && SplitsOk(nodes, stack) && p < |nodes|
    requires |stack| >= 1 && stack[|stack| - 1].Some? && stack[|stack| - 1].value.Batch?
    ensures var t := stack[|stack| - 1].value;
      var st := stack[|stack| - 1 := Some(t.(joinParents := t.joinParents + [p]))];
      FramesOk(nodes, st) && SplitsOk(nodes, st)
  {
    var t := stack[|stack| - 1].value;
    var st := stack[|stack| - 1 := Some(t.(joinParents := t.joinParents + [p]))];
    forall f | 0 <= f < |st| && st[f].Some? && st[f].value.Batch?
      ensures FrameOk(nodes, st[f].value)
    {
      assert FrameOk(nodes, stack[f].value);
    }
    forall i | 0 <= i < |nodes| && nodes[i].kind.SplitKind?
      ensures SplitOk(nodes, st, i)
    {
      assert SplitOk(nodes, stack, i);
      if IsOpenSplit(stack, i) {
        var f :| 0 <= f < |stack| && stack[f].Some? && stack[f].value.Batch? && stack[f].value.split == i;
        assert st[f].value.split == i;
      }
    }
  }

  /** Popping the `null` of an empty batch. */
  lemma {:induction false} PopEmpty(nodes: seq<GraphNode>, stack: seq<Option<Frame>>)
    requires FramesOk(nodes, stack) && SplitsOk(nodes, stack)
    requires |stack| >= 1 && stack[|stack| - 1].None?
    ensures FramesOk(nodes, stack[..|stack| - 1]) && SplitsOk(nodes, stack[..|stack| - 1])
  {
    var st := stack[..|stack| - 1];
    forall f | 0 <= f < |st| && st[f].Some? && st[f].value.Batch?
      ensures FrameOk(nodes, st[f].value)
    {
      assert st[f] == stack[f];
    }
    forall i | 0 <= i < |nodes| && nodes[i].kind.SplitKind?
      ensures SplitOk(nodes, st, i)
    {
      assert SplitOk(nodes, stack, i);
      if IsOpenSplit(stack, i) {
        var f :| 0 <= f < |stack| && stack[f].Some? && stack[f].value.Batch? && stack[f].value.split == i;
        assert st[f] == stack[f];
      }
    }
  }

  /** The graph after closing the innermost batch t: its split points at the new join node. */
  function CloseBatch(nodes: seq<GraphNode>, t: Frame): (ns: seq<GraphNode>)
    requires t.Batch? && t.split < |nodes| && nodes[t.split].kind.SplitKind?
    ensures |ns| == |nodes| + 1 && ns[|nodes|] == GraphNode(t.joinId, JoinKind, t.joinParents)
    ensures ns[t.split].kind.SplitKind? && ns[t.split].kind.join == |nodes|
    ensures forall i :: 0 <= i < |nodes| && i != t.split ==> ns[i] == nodes[i]
  {
    var s := t.split;
    nodes[s := nodes[s].(kind := nodes[s].kind.(join := |nodes|))] + [GraphNode(t.joinId, JoinKind, t.joinParents)]
  }

  /** Closing a non-empty batch keeps the graph and the stack consistent. */
  lemma {:induction false} CloseKeeps(nodes: seq<GraphNode>, stack: seq<Option<Frame>>)
    requires ParentsBefore(nodes) && StackShape(stack) && FramesOk(nodes, stack) && SplitsOk(nodes, stack)
    requires |stack| >= 2 && stack[|stack| - 1].Some?
    ensures var t := stack[|stack| - 1].value; var ns := CloseBatch(nodes, t); var st := stack[..|stack| - 1];
      ParentsBefore(ns) && FramesOk(ns, st) && SplitsOk(ns, st)
  {
    var t := stack[|stack| - 1].value;
    assert FrameOk(nodes, t);
    var ns := CloseBatch(nodes, t);
    var st := stack[..|stack| - 1];
    forall i | 0 <= i < |ns|
      ensures forall j :: 0 <= j < |ns[i].parents| ==> ns[i].parents[j] < i
    {
      if i < |nodes| {
        assert ns[i].parents == nodes[i].parents;
      }
    }
    forall f | 0 <= f < |st| && st[f].Some? && st[f].value.Batch?
      ensures FrameOk(ns, st[f].value)
    {
      assert st[f] == stack[f];
      assert FrameOk(nodes, stack[f].value);
    }
    forall i | 0 <= i < |ns| && ns[i].kind.SplitKind?
      ensures SplitOk(ns, st, i)
    {
      if i != t.split && i < |nodes| {
        assert ns[i] == nodes[i];
        assert SplitOk(nodes, stack, i);
        if IsOpenSplit(stack, i) {
          var f :| 0 <= f < |stack| && stack[f].Some? && stack[f].value.Batch? && stack[f].value.split == i;
          if f < |st| {
            assert st[f] == stack[f];
          }
        }
      }
    }
  }

  class ElboState {
    const avgBaselines: bool
    const avgBaselineDecay: real
    const debugWeights: bool
    /** `state.baselines`, kept across steps. */
    var baselines: map<string, real>
    var baselineUpdates: map<string, BaselineUpdate>
    /** The weights seen per address in this step (for the running-mean invariant). */
    ghost var seen: map<string, seq<real>>
    var nodes: seq<GraphNode>
    /** The local weight each node was created with. */
    var weights: seq<real>
    var prevNode: nat
    var mapDataStack: seq<Option<Frame>>
    var mapDataIx: Memo
    /** The `nodeid` counter. */
    var nextId: nat

    ghost predicate Valid()
      reads this
    {
      |nodes| >= 1 && |weights| == |nodes| && nodes[0].kind.RootKind? && prevNode < |nodes| &&
      ParentsBefore(nodes) && StackShape(mapDataStack) && FramesOk(nodes, mapDataStack) &&
      SplitsOk(nodes, mapDataStack) && BaselinesValid()
    }

    /** Every running mean is the mean of the weights seen for its address. */
    ghost predicate BaselinesValid()
      reads this
    {
      RunningMeans(baselineUpdates, seen)
    }

    /**
     * Starting an estimate: a graph holding only the root, and an empty mapData
     * stack. Node ids come from a counter that lives across estimates, so the
     * root's id is whatever the counter holds.
     */
    constructor (avgBaselines: bool, avgBaselineDecay: real, debugWeights: bool, baselines: map<string, real>, firstId: nat)
      ensures Valid() && this.baselines == baselines && baselineUpdates == map[]
      ensures this.avgBaselines == avgBaselines && this.avgBaselineDecay == avgBaselineDecay && this.debugWeights == debugWeights
      ensures nodes == [GraphNode(firstId, RootKind, [])] && weights == [0.0] && prevNode == 0
      ensures mapDataStack == [Some(Base(1.0))] && mapDataIx == map[] && nextId == firstId + 1
    {
      this.avgBaselines := avgBaselines;
      this.avgBaselineDecay := avgBaselineDecay;
      this.debugWeights := debugWeights;
      this.baselines := baselines;
      baselineUpdates := map[];
      seen := map[];
      nodes := [GraphNode(firstId, RootKind, [])];
      weights := [0.0];
      prevNode := 0;
      mapDataStack := [Some(Base(1.0))];
      mapDataIx := map[];
      nextId := firstId + 1;
    }

    /** No batch is open: the graph is ready for `propagateWeights`. */
    lemma {:induction false} ClosedIsWellFormed()
      requires Valid() && |mapDataStack| == 1
      ensures WellFormed(nodes)
    {
      forall i | 0 <= i < |nodes| && nodes[i].kind.SplitKind?
        ensures nodes[i].kind.batchSize > 0 && i < nodes[i].kind.join < |nodes|
      {
        assert SplitOk(nodes, mapDataStack, i);
        assert !IsOpenSplit(mapDataStack, i);
      }
    }

    /** The multiplier of the innermost mapData. */
    function Multiplier(): real
      reads this
      requires |mapDataStack| >= 1 && mapDataStack[|mapDataStack| - 1].Some?
    {
      mapDataStack[|mapDataStack| - 1].value.multiplier
    }

    /**
     * `computeBaseline`: 0 when averaging is off; otherwise fold the weight into
     * this step's running mean for the address, and return the stored baseline,
     * or 0.99 times the weight for an address without one.
     */
    method ComputeBaseline(address: string, weight: real) returns (b: real)
      requires Valid()
      modifies this
      ensures Valid()
      ensures !avgBaselines ==> b == 0.0 && baselineUpdates == old(baselineUpdates)
      ensures avgBaselines ==> b == if address in baselines then baselines[address] else weight * 0.99
      ensures avgBaselines ==> address in baselineUpdates && seen == old(seen)[address := Seen(old(seen), address) + [weight]]
      ensures avgBaselines && address !in old(baselineUpdates) ==> baselineUpdates[address] == BaselineUpdate(1, weight)
      ensures avgBaselines ==> baselineUpdates.Keys == old(baselineUpdates).Keys + {address}
      ensures avgBaselines ==> forall a :: a in baselineUpdates && a != address ==> baselineUpdates[a] == old(baselineUpdates)[a]
      ensures baselines == old(baselines) && nodes == old(nodes) && weights == old(weights) && prevNode == old(prevNode)
      ensures mapDataStack == old(mapDataStack) && mapDataIx == old(mapDataIx) && nextId == old(nextId)
    {
      if !avgBaselines {
        return 0.0;
      }
      AccumulateKeeps(baselineUpdates, seen, address, weight);
      baselineUpdates := Accumulate(baselineUpdates, address, weight);
      seen := seen[address := Seen(seen, address) + [weight]];
      b := if address in baselines then baselines[address] else weight * 0.99;
    }

    /**
     * `updateBaselines`: blend each address's mean for this step into its
     * baseline with the decay, or adopt the mean for a new address; other
     * addresses keep their baselines.
     */
    method UpdateBaselines()
      requires Valid()
      modifies this
      ensures Valid()
      ensures baselines.Keys == old(baselines).Keys + baselineUpdates.Keys
      ensures forall a :: a in baselines ==> baselines[a] == BlendOne(old(baselines), baselineUpdates, avgBaselineDecay, a)
      ensures baselineUpdates == old(baselineUpdates) && nodes == old(nodes) && weights == old(weights)
      ensures prevNode == old(prevNode) && mapDataStack == old(mapDataStack) && mapDataIx == old(mapDataIx)
    {
      baselines := BlendBaselines(baselines, baselineUpdates, avgBaselineDecay);
    }

    /** Append a node with its local weight, made the current node. */
    method Push(kind: Kind, parents: seq<nat>)
      requires Valid() && !kind.SplitKind? && forall j :: 0 <= j < |parents| ==> parents[j] < |nodes|
      modifies this
      ensures Valid()
      ensures nodes == old(nodes) + [GraphNode(old(nextId), kind, parents)]
      ensures weights == old(weights) + [InitialWeight(kind, debugWeights)]
      ensures prevNode == |old(nodes)| && nextId == old(nextId) + 1
      ensures mapDataStack == old(mapDataStack) && mapDataIx == old(mapDataIx)
      ensures baselines == old(baselines) && baselineUpdates == old(baselineUpdates)
    {
      var n := GraphNode(nextId, kind, parents);
      AppendPlain(nodes, mapDataStack, n);
      nodes := nodes + [n];
      weights := weights + [InitialWeight(kind, debugWeights)];
      prevNode := |nodes| - 1;
      nextId := nextId + 1;
    }

    /**
     * `sample` after the guide has drawn: reject a non-finite target or guide
     * score, else add a sample node under the current node.
     */
    method Sample(logp: Num, logq: Num, reparam: bool, address: string) returns (r: Result<()>)
      requires Valid() && mapDataStack[|mapDataStack| - 1].Some?
      modifies this
      ensures Valid()
      ensures !logp.Finite? ==> r == Err(ScoreMessage(logp, "target")) && nodes == old(nodes)
      ensures logp.Finite? && !logq.Finite? ==> r == Err(ScoreMessage(logq, "guide")) && nodes == old(nodes)
      ensures logp.Finite? && logq.Finite? ==>
        && r.Ok?
        && nodes == old(nodes) + [GraphNode(old(nextId), SampleKind(logp.r, logq.r, reparam, address, old(Multiplier())), [old(prevNode)])]
        && weights == old(weights) + [if debugWeights then 1.0 else logq.r - logp.r]
        && prevNode == |old(nodes)|
      ensures mapDataStack == old(mapDataStack) && mapDataIx == old(mapDataIx)
    {
      if !logp.Finite? {
        return Err(ScoreMessage(logp, "target"));
      }
      if !logq.Finite? {
        return Err(ScoreMessage(logq, "guide"));
      }
      var m := Multiplier();
      Push(SampleKind(logp.r, logq.r, reparam, address, m), [prevNode]);
      r := Ok(());
    }

    /** `factor`: reject a non-finite score, else add a factor node under the current node. */
    method Factor(score: Num) returns (r: Result<()>)
      requires Valid() && mapDataStack[|mapDataStack| - 1].Some?
      modifies this
      ensures Valid()
      ensures !score.Finite? ==> r == Err(FactorNotFinite) && nodes == old(nodes) && prevNode == old(prevNode)
      ensures score.Finite? ==>
        && r.Ok?
        && nodes == old(nodes) + [GraphNode(old(nextId), FactorKind(score.r, old(Multiplier())), [old(prevNode)])]
        && weights == old(weights) + [if debugWeights then 1.0 else -score.r]
        && prevNode == |old(nodes)|
      ensures mapDataStack == old(mapDataStack) && mapDataIx == old(mapDataIx)
    {
      if !score.Finite? {
        return Err(FactorNotFinite);
      }
      var m := Multiplier();
      Push(FactorKind(score.r, m), [prevNode]);
      r := Ok(());
    }

    /**
     * `mapDataFetch`: the batch indices for this address (memoised; `null` for
     * a batch that is the whole data set, else `batchSize` indices drawn from
     * the uniform draws `u`), and a new stack entry: a split node and its
     * multiplier for a non-empty batch, `null` for an empty one.
     */
    method MapDataFetch(dataLength: nat, batchSize: nat, address: string, u: seq<real>) returns (ix: Option<seq<nat>>)
      requires Valid() && mapDataStack[|mapDataStack| - 1].Some?
      requires |u| == batchSize && forall k :: 0 <= k < |u| ==> 0.0 <= u[k] < 1.0
      modifies this
      ensures Valid()
      ensures (ix, mapDataIx) == FetchIndices(old(mapDataIx), address, dataLength, batchSize, u)
      ensures batchSize == 0 ==> mapDataStack == old(mapDataStack) + [None] && nodes == old(nodes) && prevNode == old(prevNode)
      ensures batchSize > 0 ==>
        && nodes == old(nodes) + [GraphNode(old(nextId) + 1, SplitKind(batchSize, dataLength, 0), [old(prevNode)])]
        && mapDataStack == old(mapDataStack) + [Some(Batch(|old(nodes)|, old(nextId), [], (dataLength as real / batchSize as real) * old(Multiplier())))]
        && prevNode == old(prevNode)
    {
      var m := Multiplier();
      var fetched := FetchIndices(mapDataIx, address, dataLength, batchSize, u);
      ix := fetched.0;
      mapDataIx := fetched.1;
      if batchSize > 0 {
        var split := GraphNode(nextId + 1, SplitKind(batchSize, dataLength, 0), [prevNode]);
        var t := Batch(|nodes|, nextId, [], (dataLength as real / batchSize as real) * m);
        OpenBatch(nodes, mapDataStack, split, t);
        nodes := nodes + [split];
        weights := weights + [0.0];
        nextId := nextId + 2;
        mapDataStack := mapDataStack + [Some(t)];
        assert m == old(Multiplier());
        assert t == Batch(|old(nodes)|, old(nextId), [], (dataLength as real / batchSize as real) * old(Multiplier()));
      } else {
        PushEmpty(nodes, mapDataStack);
        mapDataStack := mapDataStack + [None];
      }
    }

    /** `mapDataEnter`: each observation starts from the split node. */
    method MapDataEnter()
      requires Valid() && mapDataStack[|mapDataStack| - 1].Some? && mapDataStack[|mapDataStack| - 1].value.Batch?
      modifies this
      ensures Valid() && mapDataStack == old(mapDataStack) && prevNode == mapDataStack[|mapDataStack| - 1].value.split
      ensures nodes == old(nodes) && weights == old(weights)
    {
      assert FrameOk(nodes, mapDataStack[|mapDataStack| - 1].value);
      prevNode := mapDataStack[|mapDataStack| - 1].value.split;
    }

    /** `mapDataLeave`: the node an observation ended on becomes a parent of the join node. */
    method MapDataLeave()
      requires Valid() && mapDataStack[|mapDataStack| - 1].Some? && mapDataStack[|mapDataStack| - 1].value.Batch?
      modifies this
      ensures Valid() && nodes == old(nodes) && prevNode == old(prevNode) && weights == old(weights)
      ensures var t := old(mapDataStack[|mapDataStack| - 1].value);
        mapDataStack == old(mapDataStack)[|old(mapDataStack)| - 1 := Some(t.(joinParents := t.joinParents + [old(prevNode)]))]
    {
      var last := |mapDataStack| - 1;
      var t := mapDataStack[last].value;
      AddJoinParent(nodes, mapDataStack, prevNode);
      mapDataStack := mapDataStack[last := Some(t.(joinParents := t.joinParents + [prevNode]))];
    }

    /**
     * `mapDataFinal`: pop the stack; after a non-empty batch the join node
     * joins the graph and becomes the current node, and an empty batch leaves
     * the current node where it was.
     */
    method MapDataFinal()
      requires Valid() && |mapDataStack| >= 2
      modifies this
      ensures Valid()
      ensures mapDataStack == old(mapDataStack[..|mapDataStack| - 1])
      ensures old(mapDataStack[|mapDataStack| - 1]).None? ==> nodes == old(nodes) && prevNode == old(prevNode)
      ensures old(mapDataStack[|mapDataStack| - 1]).Some? ==>
        && nodes == CloseBatch(old(nodes), old(mapDataStack[|mapDataStack| - 1].value))
        && prevNode == |old(nodes)|
    {
      var last := |mapDataStack| - 1;
      var top := mapDataStack[last];
      if top.Some? {
        assert FrameOk(nodes, top.value);
        CloseKeeps(nodes, mapDataStack);
        var joinAt := |nodes|;
        nodes := CloseBatch(nodes, top.value);
        weights := weights + [0.0];
        prevNode := joinAt;
      } else {
        PopEmpty(nodes, mapDataStack);
      }
      mapDataStack := mapDataStack[..last];
    }
  }
}
