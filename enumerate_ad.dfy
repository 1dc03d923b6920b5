/**
 * Enumeration over the tensor-era distributions: every path through the
 * program is explored from a queue of waiting states, the marginal is
 * accumulated in log space, and an optional probe mode measures the size of
 * the search tree on the first path and gives up when it is too large.
 */
module EnumerateAd {
  import opened Wrappers
  import opened JsNum
  import Numeric
  import Types
  import D = Dict
  import Q = EnumQueue

  // ---------------------------------------------------------------------
  // Strategies

  /** `strategies[name]` for the three names the table holds. */
  function NamedStrategy(name: Option<string>): (s: Option<Q.Strategy>)
    ensures s == Some(Q.LikelyFirst) <==> name == Some("likelyFirst")
    ensures s == Some(Q.DepthFirst) <==> name == Some("depthFirst")
    ensures s == Some(Q.BreadthFirst) <==> name == Some("breadthFirst")
  {
    if name == Some("likelyFirst") then Some(Q.LikelyFirst)
    else if name == Some("depthFirst") then Some(Q.DepthFirst)
    else if name == Some("breadthFirst") then Some(Q.BreadthFirst)
    else None
  }

  /** `defaultStrategy(maxExecutions)`: likely first under a finite bound, depth first otherwise. */
  function DefaultStrategy(maxExecutions: Num): (s: Q.Strategy)
    ensures s == Q.LikelyFirst <==> IsFinite(maxExecutions)
    ensures s != Q.BreadthFirst
  {
    if IsFinite(maxExecutions) then Q.LikelyFirst else Q.DepthFirst
  }

  /** `strategies[options.strategy] || defaultStrategy(options.maxExecutions)`. */
  function ChooseStrategy(name: Option<string>, maxExecutions: Num): Q.Strategy {
    var named := NamedStrategy(name);
    if named.Some? then named.value else DefaultStrategy(maxExecutions)
  }

  /** The maximum number of executions after the defaults are merged in: Infinity unless given. */
  function MaxExecutions(given: Option<Num>): (m: Num)
    ensures given.None? ==> m == PosInf
    ensures given.Some? ==> m == given.value
  {
    if given.Some? then given.value else PosInf
  }

  /** With neither a strategy nor a bound given, the search is depth first; a named strategy always wins. */
  lemma {:induction false} StrategyDefaults(name: Option<string>, given: Option<Num>)
    ensures given.None? && NamedStrategy(name).None? ==> ChooseStrategy(name, MaxExecutions(given)) == Q.DepthFirst
    ensures NamedStrategy(name).None? ==>
      (ChooseStrategy(name, MaxExecutions(given)) == Q.LikelyFirst <==> given.Some? && IsFinite(given.value))
    ensures NamedStrategy(name).Some? ==> ChooseStrategy(name, MaxExecutions(given)) == NamedStrategy(name).value
  {
  }

  // ---------------------------------------------------------------------
  // getComplexity

  /** The number of nodes at depth j of a search tree whose levels branch sizes[0], sizes[1], ... ways. */
  function LevelNodes(sizes: seq<nat>, j: nat): nat
    requires j <= |sizes|
  {
    if j == 0 then 1 else LevelNodes(sizes, j - 1) * sizes[j - 1]
  }

  /** The number of nodes at depths 0 to n. */
  function NodesUpTo(sizes: seq<nat>, n: nat): nat
    requires n <= |sizes|
  {
    if n == 0 then 1 else NodesUpTo(sizes, n - 1) + LevelNodes(sizes, n)
  }

  /** The number of evaluations a full enumeration makes: every node of the search tree. */
  function Complexity(sizes: seq<nat>): nat {
    NodesUpTo(sizes, |sizes|)
  }

  /** `getComplexity(sizes)`: running products of the level sizes, summed after a 1 for the root. */
  method GetComplexity(sizes: seq<nat>) returns (numEvals: nat)
    ensures numEvals == Complexity(sizes)
  {
    var numNodes := 1;
    numEvals := 1;
    var i := 0;
    while i < |sizes|
      invariant 0 <= i <= |sizes|
      invariant numNodes == LevelNodes(sizes, i)
      invariant numEvals == NodesUpTo(sizes, i)
    {
      numNodes := numNodes * sizes[i];
      numEvals := numEvals + numNodes;
      i := i + 1;
    }
  }

  /** Depths below a prefix do not depend on what comes after it. */
  lemma {:induction false} LevelNodesPrefix(sizes: seq<nat>, more: seq<nat>, j: nat)
    requires j <= |sizes|
    ensures LevelNodes(sizes + more, j) == LevelNodes(sizes, j)
  {
    if j > 0 {
      LevelNodesPrefix(sizes, more, j - 1);
      assert (sizes + more)[j - 1] == sizes[j - 1];
    }
  }

  lemma {:induction false} NodesUpToPrefix(sizes: seq<nat>, more: seq<nat>, n: nat)
    requires n <= |sizes|
    ensures NodesUpTo(sizes + more, n) == NodesUpTo(sizes, n)
  {
    if n > 0 {
      NodesUpToPrefix(sizes, more, n - 1);
      LevelNodesPrefix(sizes, more, n);
    }
  }

  /** One more level multiplies the deepest level's nodes by its size and adds them. */
  lemma {:induction false} ComplexityExtend(sizes: seq<nat>, k: nat)
    ensures Complexity(sizes + [k]) == Complexity(sizes) + LevelNodes(sizes, |sizes|) * k
  {
    var s := sizes + [k];
    NodesUpToPrefix(sizes, [k], |sizes|);
    LevelNodesPrefix(sizes, [k], |sizes|);
    assert s[|sizes|] == k;
  }

  /** Every level with at least one value adds at least one node. */
  lemma {:induction false} ComplexityAtLeastDepth(sizes: seq<nat>, n: nat)
    requires n <= |sizes|
    requires forall i :: 0 <= i < |sizes| ==> sizes[i] >= 1
    ensures LevelNodes(sizes, n) >= 1
    ensures NodesUpTo(sizes, n) >= n + 1
  {
    if n > 0 {
      ComplexityAtLeastDepth(sizes, n - 1);
      var a := LevelNodes(sizes, n - 1);
      assert a * sizes[n - 1] >= a * 1;
    }
  }

  /** b to the power n. */
  function Power(b: nat, n: nat): nat {
    if n == 0 then 1 else Power(b, n - 1) * b
  }

  /** When every level branches b ways, the tree has (b^(n+1) - 1) / (b - 1) nodes. */
  lemma {:induction false} UniformComplexity(sizes: seq<nat>, b: nat, n: nat)
    requires n <= |sizes|
    requires forall i :: 0 <= i < |sizes| ==> sizes[i] == b
    ensures LevelNodes(sizes, n) == Power(b, n)
    ensures (b - 1) * NodesUpTo(sizes, n) == Power(b, n + 1) - 1
  {
    if n > 0 {
      UniformComplexity(sizes, b, n - 1);
      var p := Power(b, n);
      var x := NodesUpTo(sizes, n - 1);
      assert LevelNodes(sizes, n) == LevelNodes(sizes, n - 1) * sizes[n - 1] == p;
      assert NodesUpTo(sizes, n) == x + p;
      Distributes(b - 1, x, p);
      assert (b - 1) * p == b * p - p;
      assert Power(b, n + 1) == p * b;
    }
  }

  lemma {:induction false} Distributes(a: int, x: int, y: int)
    ensures a * (x + y) == a * x + a * y
  {
  }

  // ---------------------------------------------------------------------
  // The score aggregator

  /** A bin of the marginal: the log-score summed so far and the value it belongs to (None for `undefined`). */
  datatype Bin = Bin(score: Num, val: Option<Types.Value>)

  type Marginal = D.Dict<Bin>

  /**
   * `ScoreAggregator.add(value, score)` for the value serialised as key: a
   * score of -Infinity is ignored; a new key starts at -Infinity; the bin's
   * score becomes `logaddexp` of its old score and the new one.
   */
  function AggregateAdd(m: Marginal, key: string, val: Option<Types.Value>, score: Num, softplus: real -> real): (r: Marginal)
    requires D.KeysDistinct(m)
    ensures D.KeysDistinct(r)
    ensures score == NegInf ==> r == m
    ensures score != NegInf ==> D.Has(r, key)
  {
    if score == NegInf then m
    else
      var bin := if D.Has(m, key) then D.Get(m, key) else Bin(NegInf, val);
      D.Put(m, key, Bin(Numeric.LogAddExp(bin.score, score, softplus), bin.val))
  }

  /** A value seen for the first time gets exactly its score; a value seen before gets the log of the summed weights. */
  lemma {:induction false} AggregateAddBin(m: Marginal, key: string, val: Option<Types.Value>, score: Num, softplus: real -> real)
    requires D.KeysDistinct(m) && score != NegInf
    ensures var r := AggregateAdd(m, key, val, score, softplus);
      (D.Has(m, key) ==> (D.Get(r, key).score == Numeric.LogAddExp(D.Get(m, key).score, score, softplus) &&
         D.Get(r, key).val == D.Get(m, key).val)) &&
      (!D.Has(m, key) ==> D.Get(r, key).score == score && D.Get(r, key).val == val) &&
      (forall k :: k != key ==> (D.Has(r, k) <==> D.Has(m, k))) &&
      (forall k :: k != key && D.Has(m, k) ==> D.Get(r, k) == D.Get(m, k))
  {
  }

  /** A completed path: the key its return value serialises to, the value and the path's score. */
  datatype PathEnd = PathEnd(key: string, val: Option<Types.Value>, score: Num)

  /** The marginal after the completed paths are added one after the other. */
  function AggregateAll(m: Marginal, ends: seq<PathEnd>, softplus: real -> real): (r: Marginal)
    requires D.KeysDistinct(m)
    ensures D.KeysDistinct(r)
    decreases |ends|
  {
    if ends == [] then m
    else
      var e := ends[|ends| - 1];
      AggregateAdd(AggregateAll(m, ends[..|ends| - 1], softplus), e.key, e.val, e.score, softplus)
  }

  /** The score of a completed path as a predicate, so that quantifiers have a term to hang on. */
  predicate Impossible(e: PathEnd) {
    e.score == NegInf
  }

  /**
   * The marginal stays empty exactly when every completed path had score
   * -Infinity: this is when enumeration reports that all paths have
   * probability zero.
   */
  lemma {:induction false} EmptyIffAllImpossible(ends: seq<PathEnd>, softplus: real -> real)
    ensures AggregateAll([], ends, softplus) == [] <==> forall i :: 0 <= i < |ends| ==> Impossible(ends[i])
    decreases |ends|
  {
    if ends != [] {
      var init := ends[..|ends| - 1];
      var e := ends[|ends| - 1];
      EmptyIffAllImpossible(init, softplus);
      var m := AggregateAll([], init, softplus);
      if e.score == NegInf {
        assert forall i :: 0 <= i < |ends| ==> (Impossible(ends[i]) <==> i == |ends| - 1 || Impossible(init[i]));
      } else {
        assert !Impossible(ends[|ends| - 1]);
        assert D.Has(AggregateAdd(m, e.key, e.val, e.score, softplus), e.key);
      }
    }
  }

  // ---------------------------------------------------------------------
  // getSupport

  const FiniteSupportOnly: string := "Enumerate can only be used with distributions that have finite support."
  const EmptySupport: string := "Enumerate encountered a distribution with empty support!"

  /** What enumeration asks of a distribution: whether it is continuous, and its support if it has a support method. */
  datatype DistInfo = DistInfo(isContinuous: bool, support: Option<seq<Types.Value>>)

  /**
   * `getSupport(dist)`: a continuous or support-less distribution is refused,
   * except in probe mode where there is no support (None) and the path ends;
   * an empty support is refused in every mode.
   */
  function GetSupport(d: DistInfo, probing: bool): (r: Result<Option<seq<Types.Value>>>)
    ensures r == Ok(None) <==> (d.isContinuous || d.support.None?) && probing
    ensures r.Err? <==> ((d.isContinuous || d.support.None?) && !probing) || (!d.isContinuous && d.support == Some([]))
    ensures r.Err? && (d.isContinuous || d.support.None?) ==> r.msg == FiniteSupportOnly
    ensures r.Err? && !(d.isContinuous || d.support.None?) ==> r.msg == EmptySupport
    ensures r.Ok? && r.value.Some? <==> !d.isContinuous && d.support.Some? && d.support.value != []
    ensures r.Ok? && r.value.Some? ==> r.value.value == d.support.value
  {
    if d.isContinuous || d.support.None? then
      if probing then Ok(None) else Err(FiniteSupportOnly)
    else if |d.support.value| == 0 then Err(EmptySupport)
    else Ok(Some(d.support.value))
  }

  /**
   * Probe mode only changes what happens to distributions without a finite
   * support: for the others both modes agree, outside probe mode a path never
   * ends for lack of a support, and in probe mode only an empty support is refused.
   */
  lemma {:induction false} GetSupportModes(d: DistInfo)
    ensures !d.isContinuous && d.support.Some? ==> GetSupport(d, true) == GetSupport(d, false)
    ensures GetSupport(d, false).Ok? ==> GetSupport(d, false).value.Some?
    ensures GetSupport(d, true).Err? ==> GetSupport(d, true).msg == EmptySupport
  {
  }

  // ---------------------------------------------------------------------
  // The coroutine

  /** JavaScript truthiness of a number: neither 0 nor NaN. */
  predicate NumTruthy(x: Num) {
    !x.NaN? && x != Finite(0.0)
  }

  /** Probe mode is on when `options.probe` is a truthy number. */
  predicate Probing(probe: Option<Num>) {
    probe.Some? && NumTruthy(probe.value)
  }

  /** What a step of the coroutine does next. */
  datatype Step =
    | Proceed                        // the current path goes on
    | Resume(state: Q.QState)        // a waiting state is resumed
    | QuitContinuous                 // probe mode met a continuous distribution first: `k(store, -1)`
    | QuitTooComplex(complexity: nat) // probe mode found the tree too large: `k(store, complexity)`
    | Done(marginal: Marginal)       // every path is explored: `k(store, marginal.toDist())`

  /**
   * The probe-mode check at the end of the first path: with no levels seen
   * the program was continuous; otherwise too many evaluations end the
   * search. None when the search goes on.
   */
  function ProbeQuit(probe: Option<Num>, firstTrace: bool, levelSizes: seq<nat>): (q: Option<Step>)
    ensures q.Some? ==> Probing(probe) && firstTrace
    ensures q == Some(QuitContinuous) <==> Probing(probe) && firstTrace && levelSizes == []
    ensures q.Some? && levelSizes != [] ==> q == Some(QuitTooComplex(Complexity(levelSizes))) && Less(probe.value, Finite(Complexity(levelSizes) as real))
  {
    if Probing(probe) && firstTrace then
      if |levelSizes| < 1 then Some(QuitContinuous)
      else if Less(probe.value, Finite(Complexity(levelSizes) as real)) then Some(QuitTooComplex(Complexity(levelSizes)))
      else None
    else None
  }

  /** Outside probe mode the search never quits early. */
  lemma {:induction false} NoProbeNoQuit(probe: Option<Num>, firstTrace: bool, levelSizes: seq<nat>)
    requires !Probing(probe) || !firstTrace
    ensures ProbeQuit(probe, firstTrace, levelSizes) == None
  {
  }

  /** Under a probe bound of at least the tree's size the search goes on once the first path has seen a level. */
  lemma {:induction false} SmallTreeGoesOn(p: real, levelSizes: seq<nat>)
    requires p != 0.0 && levelSizes != [] && Complexity(levelSizes) as real <= p
    ensures ProbeQuit(Some(Finite(p)), true, levelSizes) == None
  {
  }

  const AllPathsZero: string := "All paths explored by Enumerate have probability zero."

  class Enumerate {
    const probe: Option<Num>
    var firstTrace: bool
    var levelSizes: seq<nat>
    var counter: int
    const maxExecutions: Num
    var score: Num
    var marginal: Marginal
    var numCompletedExecutions: nat
    var queue: seq<Q.QState>
    const strategy: Q.Strategy

    predicate Valid()
      reads this
    {
      D.KeysDistinct(marginal)
    }

    /** `new Enumerate(...)` with `options.probe`, `options.maxExecutions` and `options.strategy`. */
    constructor(probe: Option<Num>, maxExecutions: Option<Num>, strategyName: Option<string>)
      ensures Valid()
      ensures this.probe == probe && firstTrace && levelSizes == [] && counter == 1
      ensures this.maxExecutions == MaxExecutions(maxExecutions)
      ensures score == Finite(0.0) && marginal == [] && numCompletedExecutions == 0 && queue == []
      ensures strategy == ChooseStrategy(strategyName, MaxExecutions(maxExecutions))
    {
      this.probe := probe;
      firstTrace := true;
      levelSizes := [];
      counter := 1;
      this.maxExecutions := MaxExecutions(maxExecutions);
      score := Finite(0.0);
      marginal := [];
      numCompletedExecutions := 0;
      queue := [];
      strategy := ChooseStrategy(strategyName, MaxExecutions(maxExecutions));
    }

    /** `nextInQueue()`: every caller has just made sure that a state is waiting. */
    method NextInQueue() returns (next: Q.QState)
      requires queue != []
      modifies this
      ensures next == Q.Deq(strategy, old(queue)).0 && queue == Q.Deq(strategy, old(queue)).1
      ensures score == next.score
      ensures counter == old(counter) + (if Probing(probe) then 1 else 0)
      ensures firstTrace == old(firstTrace) && levelSizes == old(levelSizes)
      ensures marginal == old(marginal) && numCompletedExecutions == old(numCompletedExecutions)
    {
      var d := Q.Deq(strategy, queue);
      queue := d.1;
      if Probing(probe) {
        counter := counter + 1;
      }
      score := d.0.score;
      next := d.0;
    }

    /**
     * What `exit(retval)` does when the path it ends had score s0: probe mode
     * may quit first; otherwise the path is added to the marginal and the
     * next waiting state is resumed while there is one and the bound is not
     * reached, or else enumeration finishes, failing on an empty marginal.
     */
    twostate predicate ExitedAs(s0: Num, key: string, retval: Option<Types.Value>, softplus: real -> real, new r: Result<Step>)
      reads this
      requires old(Valid())
    {
      var quit := ProbeQuit(probe, old(firstTrace), old(levelSizes));
      levelSizes == old(levelSizes) &&
      firstTrace == (old(firstTrace) && !(Probing(probe) && old(levelSizes) != [])) &&
      if quit.Some? then
        r == Ok(quit.value) && score == s0 && queue == old(queue) && counter == old(counter) &&
        marginal == old(marginal) && numCompletedExecutions == old(numCompletedExecutions)
      else
        marginal == AggregateAdd(old(marginal), key, retval, s0, softplus) &&
        numCompletedExecutions == old(numCompletedExecutions) + 1 &&
        if old(queue) != [] && Less(Finite(numCompletedExecutions as real), maxExecutions) then
          var d := Q.Deq(strategy, old(queue));
          r == Ok(Resume(d.0)) && queue == d.1 && score == d.0.score &&
          counter == old(counter) + (if Probing(probe) then 1 else 0)
        else
          queue == old(queue) && score == s0 && counter == old(counter) &&
          r == (if marginal == [] then Err(AllPathsZero) else Ok(Done(marginal)))
    }

    /** `exit(s, retval)`, with the key `util.serialize` gives the return value. */
    method Exit(key: string, retval: Option<Types.Value>, softplus: real -> real) returns (r: Result<Step>)
      requires Valid()
      modifies this
      ensures Valid()
      ensures ExitedAs(old(score), key, retval, softplus, r)
    {
      if Probing(probe) && firstTrace {
        if |levelSizes| < 1 {
          return Ok(QuitContinuous);
        }
        firstTrace := false;
        var complexity := GetComplexity(levelSizes);
        if Less(probe.value, Finite(complexity as real)) {
          return Ok(QuitTooComplex(complexity));
        }
      }
      Record(key, retval, softplus);
      if queue != [] && Less(Finite(numCompletedExecutions as real), maxExecutions) {
        var next := NextInQueue();
        r := Ok(Resume(next));
      } else if marginal == [] {
        r := Err(AllPathsZero);
      } else {
        r := Ok(Done(marginal));
      }
    }

    /** The bookkeeping of `exit`: the path's score goes into its value's bin and one more path has completed. */
    method Record(key: string, retval: Option<Types.Value>, softplus: real -> real)
      requires Valid()
      modifies this
      ensures Valid()
      ensures marginal == AggregateAdd(old(marginal), key, retval, old(score), softplus)
      ensures numCompletedExecutions == old(numCompletedExecutions) + 1
      ensures queue == old(queue) && score == old(score) && counter == old(counter)
      ensures firstTrace == old(firstTrace) && levelSizes == old(levelSizes)
    {
      marginal := AggregateAdd(marginal, key, retval, score, softplus);
      numCompletedExecutions := numCompletedExecutions + 1;
    }

    /** `factor(score)`: the path's score grows, and a path of score -Infinity ends at once (returning `undefined`). */
    method Factor(s: Num, undefinedKey: string, softplus: real -> real) returns (r: Result<Step>)
      requires Valid()
      modifies this
      ensures Valid()
      ensures Add(old(score), s) != NegInf ==> (r == Ok(Proceed) && score == Add(old(score), s) &&
        queue == old(queue) && marginal == old(marginal) && numCompletedExecutions == old(numCompletedExecutions) &&
        counter == old(counter) && firstTrace == old(firstTrace) && levelSizes == old(levelSizes))
      ensures Add(old(score), s) == NegInf ==> ExitedAs(NegInf, undefinedKey, None, softplus, r)
    {
      score := Add(score, s);
      if score == NegInf {
        r := Exit(undefinedKey, None, softplus);
      } else {
        r := Ok(Proceed);
      }
    }

    /**
     * `sample(dist)`: a distribution without a finite support fails, or in
     * probe mode ends the path (returning `undefined`); otherwise the first
     * path in probe mode records the level's size, every value of the support
     * is queued with the path's score plus its own, and the next state is
     * resumed.
     */
    method Sample(cont: nat, d: DistInfo, scoreOf: Types.Value -> Num, undefinedKey: string, softplus: real -> real)
      returns (r: Result<Step>)
      requires Valid()
      modifies this
      ensures Valid()
      ensures GetSupport(d, Probing(probe)).Err? ==> (r == Err(GetSupport(d, Probing(probe)).msg) &&
        score == old(score) && queue == old(queue) && marginal == old(marginal) &&
        numCompletedExecutions == old(numCompletedExecutions) && counter == old(counter) &&
        firstTrace == old(firstTrace) && levelSizes == old(levelSizes))
      ensures GetSupport(d, Probing(probe)) == Ok(None) ==> ExitedAs(old(score), undefinedKey, None, softplus, r)
      ensures GetSupport(d, Probing(probe)).Ok? && GetSupport(d, Probing(probe)).value.Some? ==>
        var supp := d.support.value;
        var full := old(queue) + Successors(cont, supp, old(score), scoreOf);
        r == Ok(Resume(Q.Deq(strategy, full).0)) && queue == Q.Deq(strategy, full).1 &&
        score == Q.Deq(strategy, full).0.score &&
        levelSizes == old(levelSizes) + (if Probing(probe) && old(firstTrace) then [|supp|] else []) &&
        firstTrace == old(firstTrace) && marginal == old(marginal) &&
        numCompletedExecutions == old(numCompletedExecutions) &&
        counter == old(counter) + (if Probing(probe) then 1 else 0)
    {
      var support := GetSupport(d, Probing(probe));
      if support.Err? {
        return Err(support.msg);
      }
      if support.value.None? {
        r := Exit(undefinedKey, None, softplus);
        return;
      }
      var s := support.value.value;
      if Probing(probe) && firstTrace {
        levelSizes := levelSizes + [|s|];
      }
      Enqueue(cont, s, scoreOf);
      var next := NextInQueue();
      r := Ok(Resume(next));
    }

    /** The `_.each` of `sample`: one waiting state per value of the support, in order. */
    method Enqueue(cont: nat, s: seq<Types.Value>, scoreOf: Types.Value -> Num)
      modifies this
      ensures queue == old(queue) + Successors(cont, s, old(score), scoreOf)
      ensures score == old(score) && marginal == old(marginal) && numCompletedExecutions == old(numCompletedExecutions)
      ensures counter == old(counter) && firstTrace == old(firstTrace) && levelSizes == old(levelSizes)
    {
      var i := 0;
      while i < |s|
        invariant 0 <= i <= |s|
        invariant score == old(score) && marginal == old(marginal) && numCompletedExecutions == old(numCompletedExecutions)
        invariant counter == old(counter) && firstTrace == old(firstTrace) && levelSizes == old(levelSizes)
        invariant queue == old(queue) + Successors(cont, s[..i], old(score), scoreOf)
      {
        assert s[..i + 1] == s[..i] + [s[i]];
        SuccessorsSnoc(cont, s[..i], s[i], score, scoreOf);
        queue := Q.Enq(queue, Q.QState(cont, s[i], Add(score, scoreOf(s[i]))));
        i := i + 1;
      }
      assert s[..i] == s;
    }
  }

  /** The states `sample` queues for the values of a support, in order. */
  function Successors(cont: nat, supp: seq<Types.Value>, score: Num, scoreOf: Types.Value -> Num): (r: seq<Q.QState>)
    ensures |r| == |supp|
    ensures forall i :: 0 <= i < |supp| ==> r[i] == Q.QState(cont, supp[i], Add(score, scoreOf(supp[i])))
  {
    seq(|supp|, (i: int) requires 0 <= i < |supp| => Q.QState(cont, supp[i], Add(score, scoreOf(supp[i]))))
  }

  lemma {:induction false} SuccessorsSnoc(cont: nat, supp: seq<Types.Value>, v: Types.Value, score: Num, scoreOf: Types.Value -> Num)
    ensures Successors(cont, supp + [v], score, scoreOf) == Successors(cont, supp, score, scoreOf) + [Q.QState(cont, v, Add(score, scoreOf(v)))]
  {
  }
}
