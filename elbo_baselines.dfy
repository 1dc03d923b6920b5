/**
 * The ELBO's baselines: a running mean of the weights seen per address during
 * one step, blended into the baselines kept across steps.
 */
module ElboBaselines {
  import ElboGraph

  /** A running mean: how many weights have been seen and their mean. */
  datatype BaselineUpdate = BaselineUpdate(n: nat, mean: real)

  /** The running mean of a non-empty list of weights, folded in one weight at a time. */
  function Mean(s: seq<real>): real
    requires |s| > 0
  {
    if |s| == 1 then s[0]
    else RunningStep(|s| - 1, Mean(s[..|s| - 1]), s[|s| - 1])
  }

  /** The mean of n + 1 values, from the mean of the first n and the last one. */
  function RunningStep(n: nat, mean: real, w: real): real {
    (n as real * mean + w) / (n + 1) as real
  }

  /** The running mean is the average of the weights. */
  lemma {:induction false} MeanIsAverage(s: seq<real>)
    requires |s| > 0
    ensures Mean(s) == ElboGraph.Sum(s) / |s| as real
  {
    if |s| == 1 {
      assert s[..0] == [];
    } else {
      var init := s[..|s| - 1];
      MeanIsAverage(init);
      var n := |init| as real;
      assert n * (ElboGraph.Sum(init) / n) == ElboGraph.Sum(init);
      assert Mean(s) == (n * Mean(init) + s[|s| - 1]) / (n + 1.0);
    }
  }

  /** Each running mean counts and averages the weights seen for its address. */
  ghost predicate RunningMeans(updates: map<string, BaselineUpdate>, seen: map<string, seq<real>>) {
    updates.Keys == seen.Keys &&
    forall a :: a in updates ==> updates[a].n == |seen[a]| && |seen[a]| > 0 && updates[a].mean == Mean(seen[a])
  }

  /** The running-mean update of `computeBaseline` for one weight. */
  function Accumulate(updates: map<string, BaselineUpdate>, address: string, weight: real): (r: map<string, BaselineUpdate>)
    ensures r.Keys == updates.Keys + {address}
    ensures forall a :: a in updates && a != address ==> r[a] == updates[a]
    ensures address !in updates ==> r[address] == BaselineUpdate(1, weight)
  {
    if address !in updates then updates[address := BaselineUpdate(1, weight)]
    else
      var prev := updates[address];
      updates[address := BaselineUpdate(prev.n + 1, RunningStep(prev.n, prev.mean, weight))]
  }

  /** The update keeps every running mean equal to the mean of the weights seen. */
  lemma {:induction false} AccumulateKeeps(updates: map<string, BaselineUpdate>, seen: map<string, seq<real>>, address: string, weight: real)
    requires RunningMeans(updates, seen)
    ensures RunningMeans(Accumulate(updates, address, weight), seen[address := Seen(seen, address) + [weight]])
  {
    var r := Accumulate(updates, address, weight);
    var s2 := seen[address := Seen(seen, address) + [weight]];
    if address !in updates {
      assert Seen(seen, address) + [weight] == [weight];
    } else {
      var prev := updates[address];
      var olds := seen[address];
      var ns := olds + [weight];
      assert ns[..|ns| - 1] == olds;
      assert Mean(ns) == RunningStep(|olds|, Mean(olds), weight);
      assert s2[address] == ns;
    }
  }

  /** The weights seen for address a so far. */
  function Seen(m: map<string, seq<real>>, a: string): seq<real> {
    if a in m then m[a] else []
  }

  /**
   * An address's baseline after the step: blended with this step's mean by the
   * decay, the mean itself for a new address, unchanged for an address not seen.
   */
  function BlendOne<K>(baselines: map<K, real>, updates: map<K, BaselineUpdate>, decay: real, a: K): real
    requires a in baselines || a in updates
  {
    if a !in updates then baselines[a]
    else if a in baselines then decay * baselines[a] + (1.0 - decay) * updates[a].mean
    else updates[a].mean
  }

  /** The loop of `updateBaselines`, over the addresses seen in this step. */
  method BlendBaselines<K>(baselines: map<K, real>, updates: map<K, BaselineUpdate>, decay: real) returns (nb: map<K, real>)
    ensures nb.Keys == baselines.Keys + updates.Keys
    ensures forall a :: a in nb ==> nb[a] == BlendOne(baselines, updates, decay, a)
  {
    nb := baselines;
    var todo := updates.Keys;
    while todo != {}
      invariant todo <= updates.Keys
      invariant forall a :: a in nb <==> a in baselines || (a in updates && a !in todo)
      invariant forall a :: a in nb && a !in todo ==> nb[a] == BlendOne(baselines, updates, decay, a)
      invariant forall a :: a in todo && a in baselines ==> nb[a] == baselines[a]
      decreases |todo|
    {
      var a :| a in todo;
      var v := BlendOne(baselines, updates, decay, a);
      ghost var nb0 := nb;
      nb := nb[a := v];
      todo := todo - {a};
      forall x | x in nb && x !in todo
        ensures nb[x] == BlendOne(baselines, updates, decay, x)
      {
        if x != a {
          assert nb[x] == nb0[x];
        }
      }
    }
  }
}
