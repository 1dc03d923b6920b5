/**
 * The single-site Metropolis-Hastings kernel: choosing the random choice to
 * propose a new value for (any choice past the proposal boundary, or only
 * the discrete ones), the early exits of `factor` and `addChoiceToTrace`,
 * and the acceptance counters kept in the trace's `info`.
 *
 * A trace is seen here through the continuity of its choices' distributions,
 * its score and its `info`; the kernel's own proposal trace through its score,
 * its number of factors and whether its continuation has been saved.
 */
module MhKernel {
  import opened Wrappers
  import opened JsNum

  // ---------------------------------------------------------------------
  // Choosing the regeneration point

  /**
   * `proposableDiscreteDistIndices` over the first n choices: the indices
   * from the proposal boundary on whose distribution is not continuous, in
   * increasing order.
   */
  function Proposable(continuous: seq<bool>, boundary: nat, n: nat): (r: seq<nat>)
    requires n <= |continuous|
    ensures forall j :: 0 <= j < |r| ==> boundary <= r[j] < n && !continuous[r[j]]
    ensures forall j, k :: 0 <= j < k < |r| ==> r[j] < r[k]
    ensures forall i :: boundary <= i < n && !continuous[i] ==> i in r
  {
    if n == 0 then []
    else
      var r := Proposable(continuous, boundary, n - 1);
      if n - 1 >= boundary && !continuous[n - 1] then r + [n - 1] else r
  }

  /** The discrete choices a trace offers from the boundary on. */
  function ProposableDiscreteDistIndices(continuous: seq<bool>, boundary: nat): seq<nat> {
    Proposable(continuous, boundary, |continuous|)
  }

  /** `_.range(boundary, length)`: the indices from the boundary to the end. */
  function Range(boundary: nat, length: nat): (r: seq<nat>)
    ensures |r| == if boundary <= length then length - boundary else 0
    ensures forall j :: 0 <= j < |r| ==> r[j] == boundary + j
  {
    if boundary < length then seq(length - boundary, (j: int) requires 0 <= j < length - boundary => boundary + j) else []
  }

  /** The choices `sampleRegenChoice` draws from. */
  function RegenCandidates(continuous: seq<bool>, boundary: nat, discreteOnly: bool): seq<nat> {
    if discreteOnly then ProposableDiscreteDistIndices(continuous, boundary) else Range(boundary, |continuous|)
  }

  /** `numRegenChoices(trace)`. */
  function NumRegenChoices(continuous: seq<bool>, boundary: nat, discreteOnly: bool): int {
    if discreteOnly then |ProposableDiscreteDistIndices(continuous, boundary)| else |continuous| - boundary
  }

  /** `Math.floor(u * n)` for a draw u of `util.random()`. */
  function Draw(u: real, n: nat): (k: int)
    requires 0.0 <= u < 1.0 && n > 0
    ensures 0 <= k < n
  {
    var x := u * n as real;
    assert x < n as real by {
      assert (1.0 - u) * n as real > 0.0;
    }
    x.Floor
  }

  /** `sampleRegenChoiceAny(trace)`: a uniform pick past the boundary, or -1 when there is nothing past it. */
  function SampleRegenChoiceAny(length: nat, boundary: nat, u: real): (r: int)
    requires 0.0 <= u < 1.0
    ensures r == -1 <==> length <= boundary
    ensures r != -1 ==> boundary <= r < length
  {
    var numChoices := length - boundary;
    if numChoices > 0 then boundary + Draw(u, numChoices) else -1
  }

  /** `sampleRegenChoiceDiscrete(trace)`: a uniform pick among the discrete choices past the boundary, or -1. */
  function SampleRegenChoiceDiscrete(continuous: seq<bool>, boundary: nat, u: real): (r: int)
    requires 0.0 <= u < 1.0
    ensures r == -1 <==> forall i :: boundary <= i < |continuous| ==> continuous[i]
    ensures r != -1 ==> boundary <= r < |continuous| && !continuous[r]
  {
    var indices := ProposableDiscreteDistIndices(continuous, boundary);
    if |indices| > 0 then
      var r := indices[Draw(u, |indices|)];
      assert r in indices;
      r
    else
      -1
  }

  function SampleRegenChoice(continuous: seq<bool>, boundary: nat, discreteOnly: bool, u: real): int
    requires 0.0 <= u < 1.0
  {
    if discreteOnly then SampleRegenChoiceDiscrete(continuous, boundary, u)
    else SampleRegenChoiceAny(|continuous|, boundary, u)
  }

  /**
   * `numRegenChoices` counts exactly the candidates `sampleRegenChoice`
   * draws from (when the boundary is within the trace), and the draw is
   * the candidate at position ⌊u·n⌋, or -1 when there is none.
   */
  lemma {:induction false} RegenChoiceIsUniformPick(continuous: seq<bool>, boundary: nat, discreteOnly: bool, u: real)
    requires 0.0 <= u < 1.0
    ensures var cands := RegenCandidates(continuous, boundary, discreteOnly);
      (boundary <= |continuous| ==> NumRegenChoices(continuous, boundary, discreteOnly) == |cands|) &&
      (cands == [] ==> SampleRegenChoice(continuous, boundary, discreteOnly, u) == -1) &&
      (cands != [] ==> SampleRegenChoice(continuous, boundary, discreteOnly, u) == cands[Draw(u, |cands|)])
  {
  }

  /** Every candidate is drawn for some value of the random draw: u = k / n picks the k-th. */
  lemma {:induction false} EveryCandidateReachable(n: nat, k: nat)
    requires k < n
    ensures var u := k as real / n as real; 0.0 <= u < 1.0 && Draw(u, n) == k
  {
    var u := k as real / n as real;
    assert u * n as real == k as real;
  }

  /** Outside the boundary nothing is proposed: the kernel continues with the old trace unchanged. */
  lemma {:induction false} NothingToPropose(continuous: seq<bool>, boundary: nat, discreteOnly: bool, u: real)
    requires 0.0 <= u < 1.0
    ensures SampleRegenChoice(continuous, boundary, discreteOnly, u) < 0 <==> RegenCandidates(continuous, boundary, discreteOnly) == []
  {
    RegenChoiceIsUniformPick(continuous, boundary, discreteOnly, u);
  }

  // ---------------------------------------------------------------------
  // The kernel

  /** The acceptance counters a trace may carry. */
  datatype Info = Info(accepted: int, total: int)

  /** What `finish(trace, accepted)` writes into the info of the trace it continues with. */
  function FinishInfo(prev: Option<Info>, accepted: bool): (r: Option<Info>)
    ensures r.Some? <==> prev.Some?
    ensures r.Some? ==> r.value.total == prev.value.total + 1
    ensures r.Some? ==> r.value.accepted == prev.value.accepted + (if accepted then 1 else 0)
  {
    if prev.Some? then Some(Info(prev.value.accepted + (if accepted then 1 else 0), prev.value.total + 1)) else None
  }

  /** Counters that have counted only proposals. */
  predicate Sane(i: Info) {
    0 <= i.accepted <= i.total
  }

  /** The number of accepted proposals in a run of them. */
  function CountAccepted(decisions: seq<bool>): (n: nat)
    ensures n <= |decisions|
  {
    if decisions == [] then 0 else CountAccepted(decisions[..|decisions| - 1]) + (if decisions[|decisions| - 1] then 1 else 0)
  }

  /** The info after the kernel ran once for each decision, each run starting from the trace of the one before. */
  function InfoAfter(i: Info, decisions: seq<bool>): Info {
    if decisions == [] then i else FinishInfo(Some(InfoAfter(i, decisions[..|decisions| - 1])), decisions[|decisions| - 1]).value
  }

  /**
   * Over a run of the kernel the counters add up: total grows by one per
   * step, accepted by one per accepted step, so the rate stays in [0, 1].
   */
  lemma {:induction false} InfoCounts(i: Info, decisions: seq<bool>)
    requires Sane(i)
    ensures InfoAfter(i, decisions).total == i.total + |decisions|
    ensures InfoAfter(i, decisions).accepted == i.accepted + CountAccepted(decisions)
    ensures Sane(InfoAfter(i, decisions))
  {
    if decisions != [] {
      InfoCounts(i, decisions[..|decisions| - 1]);
    }
  }

  /** Which trace the kernel continues with. */
  datatype Which = OldTrace | NewTrace

  /** What a step of the kernel does next. */
  datatype Step =
    | Continue                    // the program goes on: `k(s)` or `k(s, val)`
    | ExitEarly                   // the exit factor was reached: the continuation is saved and the proposal is judged
    | Finish(trace: Which, accepted: bool, info: Option<Info>)

  /** The options of `makeMHKernel` and of its run, after the defaults are merged in. */
  datatype Options = Options(discreteOnly: bool, adRequired: bool, permissive: bool, proposalBoundary: nat, exitFactor: int)

  /** `mergeDefaults(runOpts, {proposalBoundary: 0, exitFactor: 0})`. */
  function RunOptions(proposalBoundary: Option<nat>, exitFactor: Option<int>): (r: (nat, int))
    ensures r.0 == (if proposalBoundary.Some? then proposalBoundary.value else 0)
    ensures r.1 == (if exitFactor.Some? then exitFactor.value else 0)
  {
    (if proposalBoundary.Some? then proposalBoundary.value else 0, if exitFactor.Some? then exitFactor.value else 0)
  }

  /** The constructor's `assert.notStrictEqual(oldTrace.score, -Infinity)`, skipped when permissive. */
  function CheckOldTrace(oldScore: Num, permissive: bool): (r: Result<()>)
    ensures r.Err? <==> !permissive && oldScore == NegInf
  {
    if !permissive && oldScore == NegInf then Err("AssertionError: -Infinity !== -Infinity") else Ok(())
  }

  /** The start of `run`: the regeneration point, or None when the kernel continues with the old trace at once. */
  function RunStart(continuous: seq<bool>, o: Options, u: real): (r: Option<nat>)
    requires 0.0 <= u < 1.0
    ensures r.None? <==> RegenCandidates(continuous, o.proposalBoundary, o.discreteOnly) == []
    ensures r.Some? ==> r.value in RegenCandidates(continuous, o.proposalBoundary, o.discreteOnly)
  {
    RegenChoiceIsUniformPick(continuous, o.proposalBoundary, o.discreteOnly, u);
    var i := SampleRegenChoice(continuous, o.proposalBoundary, o.discreteOnly, u);
    if i < 0 then None else Some(i)
  }

  class MHKernel {
    const options: Options
    const oldScore: Num
    const oldInfo: Option<Info>
    var score: Num
    var numFactors: int
    var continuationSaved: bool

    /**
     * `new MHKernel(...)` once the old trace passed the constructor's check;
     * the proposal trace starts as the old trace up to the regeneration
     * point, with that score and factor count.
     */
    constructor(options: Options, oldScore: Num, oldInfo: Option<Info>, score: Num, numFactors: int)
      requires CheckOldTrace(oldScore, options.permissive).Ok?
      ensures this.options == options && this.oldScore == oldScore && this.oldInfo == oldInfo
      ensures this.score == score && this.numFactors == numFactors && !continuationSaved
    {
      this.options := options;
      this.oldScore := oldScore;
      this.oldInfo := oldInfo;
      this.score := score;
      this.numFactors := numFactors;
      continuationSaved := false;
    }

    /** `finish(trace, accepted)`: the counters of the old trace's info go into the trace continued with. */
    function FinishWith(trace: Which, accepted: bool): (r: Step)
      reads this
      ensures r.Finish? && r.trace == trace && r.accepted == accepted
      ensures r.info == FinishInfo(oldInfo, accepted)
    {
      Finish(trace, accepted, FinishInfo(oldInfo, accepted))
    }

    /**
     * `factor(score)`: a factor of -Infinity rejects the proposal at once;
     * otherwise it is counted and added, and reaching the exit factor saves
     * the continuation and ends the proposal early.
     */
    method Factor(s: Num) returns (r: Step)
      modifies this
      ensures s == NegInf ==> (r == FinishWith(OldTrace, false) && score == old(score) &&
        numFactors == old(numFactors) && continuationSaved == old(continuationSaved))
      ensures s != NegInf ==> numFactors == old(numFactors) + 1 && score == Add(old(score), s)
      ensures s != NegInf && numFactors == options.exitFactor ==> r == ExitEarly && continuationSaved
      ensures s != NegInf && numFactors != options.exitFactor ==> r == Continue && continuationSaved == old(continuationSaved)
    {
      if s == NegInf {
        return FinishWith(OldTrace, false);
      }
      numFactors := numFactors + 1;
      score := Add(score, s);
      if numFactors == options.exitFactor {
        continuationSaved := true;
        return ExitEarly;
      }
      return Continue;
    }

    /** `addChoiceToTrace`: the choice's score is added, and a trace of score -Infinity rejects the proposal. */
    method AddChoiceToTrace(choiceScore: Num) returns (r: Step)
      modifies this
      ensures score == Add(old(score), choiceScore)
      ensures numFactors == old(numFactors) && continuationSaved == old(continuationSaved)
      ensures r == if score == NegInf then FinishWith(OldTrace, false) else Continue
    {
      score := Add(score, choiceScore);
      if score == NegInf {
        return FinishWith(OldTrace, false);
      }
      return Continue;
    }

    /** `exit`: the proposal is accepted when the draw u falls below the acceptance probability. */
    method Exit(u: real, acceptProb: real) returns (r: Step)
      ensures r == FinishWith(if u < acceptProb then NewTrace else OldTrace, u < acceptProb)
    {
      var accept := u < acceptProb;
      r := FinishWith(if accept then NewTrace else OldTrace, accept);
    }
  }

  /** A factor of -Infinity is always rejected and counted as a rejected proposal. */
  lemma {:induction false} ImpossibleFactorRejects(oldInfo: Info)
    requires Sane(oldInfo)
    ensures var i := FinishInfo(Some(oldInfo), false).value;
      Sane(i) && i.accepted == oldInfo.accepted && i.total == oldInfo.total + 1
  {
  }
}
