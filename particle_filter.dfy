/**
 * Sequential importance resampling where every `factor` is a
 * synchronisation point: the particles run one at a time up to their next
 * factor, and when the last running particle gets there, all are resampled
 * by residual resampling and their weights reset to the average weight.
 *
 * Particles are values here: every particle the filter creates or copies
 * is a new object, so no two positions of the particle array share one.
 * Continuations are identified by numbers and stores are dictionaries.
 */
module ParticleFilter {
  import opened Wrappers
  import opened JsNum
  import Numeric
  import Types
  import D = Dict
  import Dists
  import Discrete

  type Store = map<string, Types.Value>

  /** A particle; `completed` is absent, hence false, until the particle exits. */
  datatype Particle = Particle(continuation: nat, weight: Num, score: Num, value: Option<Types.Value>, store: Store, completed: bool)

  predicate Running(p: Particle) {
    !p.completed
  }

  /**
   * `copyParticle(p)`: continuation, weight, score, value and (a copy of)
   * the store; `completed` is not copied, so a copy is always running.
   */
  function CopyParticle(p: Particle): (c: Particle)
    ensures c.continuation == p.continuation && c.weight == p.weight && c.score == p.score
    ensures c.value == p.value && c.store == p.store
    ensures Running(c)
  {
    Particle(p.continuation, p.weight, p.score, p.value, p.store, false)
  }

  /** `copyParticles(ps)`. */
  function CopyParticles(ps: seq<Particle>): (cs: seq<Particle>)
    ensures |cs| == |ps| && forall i :: 0 <= i < |ps| ==> cs[i] == CopyParticle(ps[i])
  {
    seq(|ps|, (i: int) requires 0 <= i < |ps| => CopyParticle(ps[i]))
  }

  /**
   * A copy of a running particle is equal to it, so copying twice is copying
   * once, for one particle and for a whole array.
   */
  lemma {:induction false} CopyOfRunning(p: Particle, ps: seq<Particle>)
    ensures Running(p) ==> CopyParticle(p) == p
    ensures CopyParticle(CopyParticle(p)) == CopyParticle(p)
    ensures (forall i :: 0 <= i < |ps| ==> Running(ps[i])) ==> CopyParticles(ps) == ps
    ensures CopyParticles(CopyParticles(ps)) == CopyParticles(ps)
  {
    if forall i :: 0 <= i < |ps| ==> Running(ps[i]) {
      assert forall i :: 0 <= i < |ps| ==> CopyParticles(ps)[i] == ps[i];
    }
    assert forall i :: 0 <= i < |ps| ==> CopyParticles(CopyParticles(ps))[i] == CopyParticles(ps)[i];
  }

  // ---------------------------------------------------------------------
  // Finding the next particle to run

  /** `util.indexOfPred(ps, running, start)`: the first running particle at or after start, or -1. */
  function IndexOfRunning(ps: seq<Particle>, start: nat): (i: int)
    ensures i == -1 <==> forall j :: start <= j < |ps| ==> !Running(ps[j])
    ensures i != -1 ==> start <= i < |ps| && Running(ps[i]) && forall j :: start <= j < i ==> !Running(ps[j])
    decreases |ps| - start
  {
    if start >= |ps| then -1
    else if Running(ps[start]) then start
    else IndexOfRunning(ps, start + 1)
  }

  /** `util.lastIndexOfPred(ps, running)` over the first n particles: the last running one, or -1. */
  function LastIndexOfRunning(ps: seq<Particle>, n: nat): (i: int)
    requires n <= |ps|
    ensures i == -1 <==> forall j :: 0 <= j < n ==> !Running(ps[j])
    ensures i != -1 ==> 0 <= i < n && Running(ps[i]) && forall j :: i < j < n ==> !Running(ps[j])
  {
    if n == 0 then -1
    else if Running(ps[n - 1]) then n - 1
    else LastIndexOfRunning(ps, n - 1)
  }

  /** `nextRunningParticleIndex()`: the first running particle after the active one, wrapping round to the first. */
  function NextRunning(ps: seq<Particle>, active: nat): (i: int)
    ensures i == -1 <==> forall j :: 0 <= j < |ps| ==> !Running(ps[j])
    ensures i != -1 ==> 0 <= i < |ps| && Running(ps[i])
  {
    var next := IndexOfRunning(ps, active + 1);
    if next >= 0 then next else IndexOfRunning(ps, 0)
  }

  /**
   * The next particle is the nearest running one after the active one when
   * there is one, and otherwise the first running one: with the active
   * particle running and none after it, that wraps round to the first.
   */
  lemma {:induction false} NextRunningIsNearest(ps: seq<Particle>, active: nat)
    ensures (exists j :: active < j < |ps| && Running(ps[j])) ==>
      active < NextRunning(ps, active) && forall j :: active < j < NextRunning(ps, active) ==> !Running(ps[j])
    ensures (forall j :: active < j < |ps| ==> !Running(ps[j])) ==> NextRunning(ps, active) == IndexOfRunning(ps, 0)
  {
  }

  /** `allParticlesAdvanced()`: the active particle is the last running one. */
  predicate AllParticlesAdvanced(ps: seq<Particle>, active: int) {
    active == LastIndexOfRunning(ps, |ps|)
  }

  /** With the active particle running, all have advanced exactly when no running particle comes after it. */
  lemma {:induction false} AllAdvancedIff(ps: seq<Particle>, active: nat)
    requires active < |ps| && Running(ps[active])
    ensures AllParticlesAdvanced(ps, active) <==> forall j :: active < j < |ps| ==> !Running(ps[j])
  {
    var last := LastIndexOfRunning(ps, |ps|);
    if forall j :: active < j < |ps| ==> !Running(ps[j]) {
      assert last >= active;
    }
  }

  // ---------------------------------------------------------------------
  // Residual resampling

  /** `Math.floor(w)` as the number of times the `for` loop copies a particle. */
  function RetainCount(w: real): nat {
    if w.Floor > 0 then w.Floor else 0
  }

  /** k copies of a particle. */
  function Copies(p: Particle, k: nat): (r: seq<Particle>)
    ensures |r| == k && forall i :: 0 <= i < k ==> r[i] == CopyParticle(p)
  {
    seq(k, (i: int) => CopyParticle(p))
  }

  /** The retained particles from the first n: ⌊w_i⌋ copies of particle i, in order. */
  function Retained(ps: seq<Particle>, ws: seq<real>, n: nat): seq<Particle>
    requires n <= |ps| == |ws|
  {
    if n == 0 then [] else Retained(ps, ws, n - 1) + Copies(ps[n - 1], RetainCount(ws[n - 1]))
  }

  /** The number of retained particles from the first n. */
  function RetainTotal(ws: seq<real>, n: nat): nat
    requires n <= |ws|
  {
    if n == 0 then 0 else RetainTotal(ws, n - 1) + RetainCount(ws[n - 1])
  }

  /** The fractional parts `w - nRetained`, the weights of the multinomial draws. */
  function Residuals(ws: seq<real>): (r: seq<real>)
    ensures |r| == |ws| && forall i :: 0 <= i < |ws| ==> r[i] == ws[i] - ws[i].Floor as real
  {
    seq(|ws|, (i: int) requires 0 <= i < |ws| => ws[i] - ws[i].Floor as real)
  }

  /**
   * The k new particles, each a copy of the particle the multinomial draw
   * picks with the residuals as weights, u = draws(i) being the i-th draw.
   */
  function Fresh(ps: seq<Particle>, residuals: seq<real>, k: nat, draws: nat -> real): (r: seq<Particle>)
    requires |ps| == |residuals| && (k > 0 ==> |ps| > 0)
    ensures |r| == k
    ensures forall i :: 0 <= i < k ==> r[i] == CopyParticle(ps[DrawnIndex(residuals, draws, i)])
  {
    seq(k, (i: int) requires 0 <= i < k => CopyParticle(ps[DrawnIndex(residuals, draws, i)]))
  }

  /** The index `multinomialSample(residuals)` gives for the i-th draw. */
  function DrawnIndex(residuals: seq<real>, draws: nat -> real, i: nat): (j: nat)
    requires |residuals| > 0
    ensures j < |residuals|
  {
    Discrete.PickIn(residuals, draws(i) * Numeric.UnliftedSum(residuals))
  }

  /** Every particle with its weight replaced. */
  function WithWeight(ps: seq<Particle>, w: Num): (r: seq<Particle>)
    ensures |r| == |ps| && forall i :: 0 <= i < |ps| ==> r[i] == ps[i].(weight := w)
  {
    seq(|ps|, (i: int) requires 0 <= i < |ps| => ps[i].(weight := w))
  }

  /** `m - retainedParticles.length`, clipped at 0 as the `for` loop does. */
  function NumNew(m: nat, retained: nat): nat {
    if m > retained then m - retained else 0
  }

  /** The particles after residual resampling: the new ones, then the retained ones, all with the average weight. */
  function Resampled(ps: seq<Particle>, ws: seq<real>, avgW: Num, draws: nat -> real): seq<Particle>
    requires |ps| == |ws|
  {
    var retained := Retained(ps, ws, |ps|);
    WithWeight(Fresh(ps, Residuals(ws), NumNew(|ps|, |retained|), draws) + retained, avgW)
  }

  lemma {:induction false} RetainedSize(ps: seq<Particle>, ws: seq<real>, n: nat)
    requires n <= |ps| == |ws|
    ensures |Retained(ps, ws, n)| == RetainTotal(ws, n)
    ensures forall i :: 0 <= i < |Retained(ps, ws, n)| ==> Running(Retained(ps, ws, n)[i])
  {
    if n > 0 {
      RetainedSize(ps, ws, n - 1);
    }
  }

  /** No more copies are kept than the expected weights add up to. */
  lemma {:induction false} RetainTotalBelowSum(ws: seq<real>, n: nat)
    requires n <= |ws|
    requires forall i :: 0 <= i < |ws| ==> ws[i] >= 0.0
    ensures RetainTotal(ws, n) as real <= Numeric.SumTo(ws, n)
  {
    if n > 0 {
      RetainTotalBelowSum(ws, n - 1);
      assert RetainCount(ws[n - 1]) as real <= ws[n - 1];
    }
  }

  /**
   * After resampling every particle is running and carries the average
   * weight, and when the expected weights `exp(w - avgW)` add up to the
   * number of particles, as they do in exact arithmetic, there are as many
   * particles as before.
   */
  lemma {:induction false} ResampledShape(ps: seq<Particle>, ws: seq<real>, avgW: Num, draws: nat -> real)
    requires |ps| == |ws|
    ensures var r := Resampled(ps, ws, avgW, draws);
      |r| >= |ps| && forall i :: 0 <= i < |r| ==> Running(r[i]) && r[i].weight == avgW
    ensures (forall i :: 0 <= i < |ws| ==> ws[i] >= 0.0) && Numeric.Sum(ws) == |ps| as real ==>
      |Resampled(ps, ws, avgW, draws)| == |ps|
  {
    RetainedSize(ps, ws, |ps|);
    var retained := Retained(ps, ws, |ps|);
    var drawn := Fresh(ps, Residuals(ws), NumNew(|ps|, |retained|), draws);
    assert forall i :: 0 <= i < |drawn| ==> Running(drawn[i]);
    assert forall i :: 0 <= i < |drawn + retained| ==> Running((drawn + retained)[i]) by {
      forall i | 0 <= i < |drawn + retained| ensures Running((drawn + retained)[i]) {
        if i >= |drawn| {
          assert (drawn + retained)[i] == retained[i - |drawn|];
        }
      }
    }
    if (forall i :: 0 <= i < |ws| ==> ws[i] >= 0.0) && Numeric.Sum(ws) == |ps| as real {
      RetainTotalBelowSum(ws, |ws|);
    }
  }

  // ---------------------------------------------------------------------
  // The histogram of `finish`

  /** A histogram from `JSON.stringify` keys to the value counted and its count. */
  type Hist<V> = D.Dict<Dists.Outcome<V>>
  type Histogram = Hist<Option<Types.Value>>

  /** The entry with its count raised by one. */
  function Bumped<V>(e: D.Entry<Dists.Outcome<V>>): D.Entry<Dists.Outcome<V>> {
    D.Entry(e.key, Dists.Outcome(e.val.val, e.val.prob + 1.0))
  }

  /** `hist[k].prob += 1` on the entry keyed k, searched for from the last entry back. */
  function Bump<V>(h: Hist<V>, key: string): Hist<V> {
    if h == [] then []
    else if h[|h| - 1].key == key then h[..|h| - 1] + [Bumped(h[|h| - 1])]
    else Bump(h[..|h| - 1], key) + [h[|h| - 1]]
  }

  /** One more value keyed `key`: a new key starts from 0, then `prob += 1`. */
  function HistAdd<V>(h: Hist<V>, key: string, val: V): Hist<V> {
    if D.Has(h, key) then Bump(h, key) else h + [D.Entry(key, Dists.Outcome(val, 0.0 + 1.0))]
  }

  /**
   * With distinct keys, bumping raises the one entry with the key, in place,
   * and leaves every other entry where and as it was.
   */
  lemma {:induction false} BumpInPlace<V>(h: Hist<V>, key: string)
    requires D.KeysDistinct(h)
    ensures |Bump(h, key)| == |h|
    ensures forall j :: 0 <= j < |h| ==> Bump(h, key)[j] == if h[j].key == key then Bumped(h[j]) else h[j]
  {
    if h != [] {
      var n := |h|;
      var init := h[..n - 1];
      var r := Bump(h, key);
      if h[n - 1].key == key {
        assert r == init + [Bumped(h[n - 1])];
      } else {
        BumpInPlace(init, key);
        assert r == Bump(init, key) + [h[n - 1]];
      }
    }
  }

  /** Counting a value keeps the keys of the histogram distinct: a present key stays put, a new one goes last. */
  lemma {:induction false} HistAddDistinct<V>(h: Hist<V>, key: string, val: V)
    requires D.KeysDistinct(h)
    ensures D.KeysDistinct(HistAdd(h, key, val))
    ensures D.Has(h, key) ==> D.Keys(HistAdd(h, key, val)) == D.Keys(h)
    ensures !D.Has(h, key) ==> HistAdd(h, key, val) == h + [D.Entry(key, Dists.Outcome(val, 1.0))]
  {
    var r := HistAdd(h, key, val);
    if D.Has(h, key) {
      BumpInPlace(h, key);
      assert forall k :: 0 <= k < |r| ==> r[k].key == h[k].key;
    } else {
      forall k | 0 <= k < |h|
        ensures h[k].key != key
      {
        assert D.Keys(h)[k] == h[k].key;
      }
    }
  }

  /** The total count of a histogram, summed from its last entry back. */
  function Total<V>(h: Hist<V>): real {
    if h == [] then 0.0 else Total(h[..|h| - 1]) + h[|h| - 1].val.prob
  }

  lemma {:induction false} TotalAppend<V>(h: Hist<V>, e: D.Entry<Dists.Outcome<V>>)
    ensures Total(h + [e]) == Total(h) + e.val.prob
  {
    assert (h + [e])[..|h|] == h;
  }

  /** The total is the sum of the probabilities `_.each` would visit. */
  lemma {:induction false} TotalIsSum<V>(h: Hist<V>)
    ensures Total(h) == Numeric.Sum(Dists.Probs(h))
  {
    var n := |h|;
    if n > 0 {
      TotalIsSum(h[..n - 1]);
      assert Dists.Probs(h) == Dists.Probs(h[..n - 1]) + [h[n - 1].val.prob];
      Numeric.SumConcat(Dists.Probs(h[..n - 1]), [h[n - 1].val.prob]);
      assert Numeric.SumTo([h[n - 1].val.prob], 0) == 0.0;
    } else {
      assert Dists.Probs(h) == [];
    }
  }

  /** Raising the entry at position j (or a later one with the same key) adds 1 to the total. */
  lemma {:induction false} BumpCounts<V>(h: Hist<V>, key: string, j: nat)
    requires j < |h| && h[j].key == key
    ensures Total(Bump(h, key)) == Total(h) + 1.0
  {
    var n := |h|;
    var r := Bump(h, key);
    if h[n - 1].key == key {
      assert r[..n - 1] == h[..n - 1];
    } else {
      BumpCounts(h[..n - 1], key, j);
      assert r[..|r| - 1] == Bump(h[..n - 1], key);
    }
  }

  /** Each value counted adds exactly 1 to the total of the histogram. */
  lemma {:induction false} HistAddCounts<V>(h: Hist<V>, key: string, val: V)
    ensures Total(HistAdd(h, key, val)) == Total(h) + 1.0
  {
    if D.Has(h, key) {
      BumpCounts(h, key, D.Find(h, key));
    } else {
      TotalAppend(h, D.Entry(key, Dists.Outcome(val, 0.0 + 1.0)));
    }
  }

  /** The histogram of the first n values, under the given keys. */
  function HistOf<V>(keys: seq<string>, vals: seq<V>, n: nat): Hist<V>
    requires n <= |keys| && n <= |vals|
  {
    if n == 0 then [] else HistAdd(HistOf(keys, vals, n - 1), keys[n - 1], vals[n - 1])
  }

  /** The counts of the histogram add up to the number of values counted. */
  lemma {:induction false} HistOfCounts<V>(keys: seq<string>, vals: seq<V>, n: nat)
    requires n <= |keys| && n <= |vals|
    ensures Total(HistOf(keys, vals, n)) == n as real
  {
    if n > 0 {
      HistOfCounts(keys, vals, n - 1);
      HistOfStep(keys, vals, n);
      CountUp(n, Total(HistOf(keys, vals, n - 1)));
    }
  }

  lemma {:induction false} CountUp(n: nat, t: real)
    requires n > 0 && t == (n - 1) as real
    ensures t + 1.0 == n as real
  {
  }

  /** Counting one more value adds one to the total. */
  lemma {:induction false} HistOfStep<V>(keys: seq<string>, vals: seq<V>, n: nat)
    requires 0 < n <= |keys| && n <= |vals|
    ensures Total(HistOf(keys, vals, n)) == Total(HistOf(keys, vals, n - 1)) + 1.0
  {
    HistAddCounts(HistOf(keys, vals, n - 1), keys[n - 1], vals[n - 1]);
  }

  /** No two entries of the histogram share a key. */
  lemma {:induction false} HistOfDistinct<V>(keys: seq<string>, vals: seq<V>, n: nat)
    requires n <= |keys| && n <= |vals|
    ensures D.KeysDistinct(HistOf(keys, vals, n))
  {
    if n > 0 {
      HistOfDistinct(keys, vals, n - 1);
      HistAddDistinct(HistOf(keys, vals, n - 1), keys[n - 1], vals[n - 1]);
    }
  }

  /** The `JSON.stringify` key of each particle's value. */
  function KeysOf(ps: seq<Particle>, stringify: Option<Types.Value> -> string): (ks: seq<string>)
    ensures |ks| == |ps| && forall i :: 0 <= i < |ps| ==> ks[i] == stringify(ps[i].value)
  {
    seq(|ps|, (i: int) requires 0 <= i < |ps| => stringify(ps[i].value))
  }

  /** Each particle's value. */
  function ValuesOf(ps: seq<Particle>): (vs: seq<Option<Types.Value>>)
    ensures |vs| == |ps| && forall i :: 0 <= i < |ps| ==> vs[i] == ps[i].value
  {
    seq(|ps|, (i: int) requires 0 <= i < |ps| => ps[i].value)
  }

  /** The histogram of the particles' values, keyed by `JSON.stringify`. */
  function HistOfParticles(ps: seq<Particle>, stringify: Option<Types.Value> -> string): (h: Histogram)
    ensures D.KeysDistinct(h)
    ensures Numeric.Sum(Dists.Probs(h)) == |ps| as real
  {
    var h := HistOf(KeysOf(ps, stringify), ValuesOf(ps), |ps|);
    HistOfDistinct(KeysOf(ps, stringify), ValuesOf(ps), |ps|);
    HistOfCounts(KeysOf(ps, stringify), ValuesOf(ps), |ps|);
    TotalIsSum(h);
    h
  }

  /** The counting loop of `finish`: one `HistAdd` per value, in order. */
  method Count<V>(keys: seq<string>, vals: seq<V>) returns (hist: Hist<V>)
    requires |keys| == |vals|
    ensures hist == HistOf(keys, vals, |keys|)
  {
    hist := [];
    var i := 0;
    while i < |keys|
      invariant 0 <= i <= |keys|
      invariant hist == HistOf(keys, vals, i)
    {
      hist := HistAdd(hist, keys[i], vals[i]);
      i := i + 1;
    }
  }

  // ---------------------------------------------------------------------
  // The coroutine

  /** What the filter does next. */
  datatype Step =
    | Resume(index: nat)     // the particle at index runs on, from its continuation and store
    | Finished(result: Outcome)

  /**
   * What `finish` hands to the continuation: the histogram (empty with
   * `justSample`), the particles when `justSample`, the history when kept,
   * and the weight of the first particle as the normalisation constant.
   */
  datatype Outcome = Outcome(hist: Histogram, samples: Option<seq<Particle>>, history: Option<seq<seq<Particle>>>, normalizationConstant: Num)

  const AllMinusInfinity: string := "Error! All particles -Infinity"

  class Filter {
    var particles: seq<Particle>
    var particleIndex: int
    var history: seq<seq<Particle>>
    const strict: bool
    const justSample: bool
    const saveHistory: bool

    /** The active particle exists. */
    predicate Valid()
      reads this
    {
      0 <= particleIndex < |particles|
    }

    /**
     * `new ParticleFilter(...)`: numParticles particles that start the
     * program from the store s with weight and score 0; options left out
     * take their defaults (strict, no justSample, saveHistory).
     */
    constructor(s: Store, exitK: nat, numParticles: nat, strict: Option<bool>, justSample: Option<bool>, saveHistory: Option<bool>)
      ensures |particles| == numParticles && particleIndex == 0 && history == []
      ensures forall i :: 0 <= i < numParticles ==>
        particles[i] == Particle(exitK, Finite(0.0), Finite(0.0), None, s, false)
      ensures this.strict == (if strict.Some? then strict.value else true)
      ensures this.justSample == (if justSample.Some? then justSample.value else false)
      ensures this.saveHistory == (if saveHistory.Some? then saveHistory.value else true)
    {
      var ps: seq<Particle> := [];
      var i := 0;
      while i < numParticles
        invariant 0 <= i <= numParticles && |ps| == i
        invariant forall j :: 0 <= j < i ==> ps[j] == Particle(exitK, Finite(0.0), Finite(0.0), None, s, false)
      {
        ps := ps + [Particle(exitK, Finite(0.0), Finite(0.0), None, s, false)];
        i := i + 1;
      }
      particles := ps;
      particleIndex := 0;
      history := [];
      this.strict := if strict.Some? then strict.value else true;
      this.justSample := if justSample.Some? then justSample.value else false;
      this.saveHistory := if saveHistory.Some? then saveHistory.value else true;
    }

    /** `run()`: the first particle starts; with no particles reading it fails. */
    method Run() returns (r: Result<Step>)
      ensures r.Ok? <==> Valid()
      ensures r.Ok? ==> r.value == Resume(particleIndex)
    {
      if !Valid() {
        return Err("TypeError: Cannot read property 'continuation' of undefined");
      }
      return Ok(Resume(particleIndex));
    }

    /** `sample`: the score of the sampled value is added to the active particle's score. */
    method Sample(choiceScore: Num)
      requires Valid()
      modifies this
      ensures Valid()
      ensures particles == old(particles)[old(particleIndex) := old(particles)[old(particleIndex)].(score := Add(old(particles)[old(particleIndex)].score, choiceScore))]
      ensures particleIndex == old(particleIndex) && history == old(history)
    {
      var p := particles[particleIndex];
      particles := particles[particleIndex := p.(score := Add(p.score, choiceScore))];
    }

    /**
     * `resampleParticles()`, where ws are the expected copy counts
     * `exp(weight - avgW)` of the particles and draws(i) the i-th uniform
     * draw: an average weight of -Infinity throws in strict mode and otherwise
     * keeps the particles; any other average resamples them residually. Either
     * way every weight becomes avgW, and the history gets a copy before and after.
     */
    method ResampleParticles(ws: seq<real>, avgW: Num, draws: nat -> real) returns (r: Result<()>)
      requires |ws| == |particles|
      modifies this
      ensures avgW == NegInf && strict ==> (r == Err(AllMinusInfinity) && particles == old(particles) &&
        history == old(history) + (if saveHistory then [CopyParticles(old(particles))] else []))
      ensures !(avgW == NegInf && strict) ==> (r == Ok(()) && history == old(history) +
        (if saveHistory then [CopyParticles(old(particles)), CopyParticles(particles)] else []))
      ensures avgW == NegInf && !strict ==> particles == WithWeight(old(particles), NegInf)
      ensures avgW != NegInf ==> particles == Resampled(old(particles), ws, avgW, draws)
      ensures particleIndex == old(particleIndex)
    {
      if saveHistory {
        history := history + [CopyParticles(particles)];
      }
      if avgW == NegInf {
        if strict {
          return Err(AllMinusInfinity);
        }
      } else {
        var retained, residuals := RetainCopies(particles, ws);
        var drawn := DrawNew(particles, residuals, NumNew(|particles|, |retained|), draws);
        particles := drawn + retained;
      }
      particles := SetWeights(particles, avgW);
      if saveHistory {
        history := history + [CopyParticles(particles)];
      }
      r := Ok(());
    }

    /** The loop that gives every particle the weight w, in place. */
    static method SetWeights(ps: seq<Particle>, w: Num) returns (r: seq<Particle>)
      ensures r == WithWeight(ps, w)
    {
      r := ps;
      var i := 0;
      while i < |r|
        invariant 0 <= i <= |r| == |ps|
        invariant forall j :: 0 <= j < i ==> r[j] == ps[j].(weight := w)
        invariant forall j :: i <= j < |r| ==> r[j] == ps[j]
      {
        r := r[i := r[i].(weight := w)];
        i := i + 1;
      }
    }

    /** The `_.each` of the resampling: ⌊w⌋ copies of each particle in turn, and the fractional parts. */
    static method RetainCopies(ps: seq<Particle>, ws: seq<real>) returns (retained: seq<Particle>, residuals: seq<real>)
      requires |ps| == |ws|
      ensures retained == Retained(ps, ws, |ps|) && residuals == Residuals(ws)
    {
      retained := [];
      residuals := [];
      var n := 0;
      while n < |ps|
        invariant 0 <= n <= |ps|
        invariant retained == Retained(ps, ws, n)
        invariant residuals == Residuals(ws)[..n]
      {
        var w := ws[n];
        var nRetained := w.Floor;
        residuals := residuals + [w - nRetained as real];
        var i := 0;
        ghost var start := retained;
        while i < nRetained
          invariant 0 <= i <= RetainCount(w)
          invariant retained == start + Copies(ps[n], i)
        {
          retained := retained + [CopyParticle(ps[n])];
          i := i + 1;
        }
        assert Residuals(ws)[..n + 1] == Residuals(ws)[..n] + [w - nRetained as real];
        n := n + 1;
      }
      assert Residuals(ws)[..|ps|] == Residuals(ws);
    }

    /** The second loop of the resampling: k copies of particles drawn by the residuals. */
    static method DrawNew(ps: seq<Particle>, residuals: seq<real>, k: nat, draws: nat -> real) returns (drawn: seq<Particle>)
      requires |ps| == |residuals| && (k > 0 ==> |ps| > 0)
      ensures drawn == Fresh(ps, residuals, k, draws)
    {
      drawn := [];
      var i := 0;
      while i < k
        invariant 0 <= i <= k && |drawn| == i
        invariant forall l :: 0 <= l < i ==> drawn[l] == Fresh(ps, residuals, k, draws)[l]
      {
        var j := Discrete.Sample(residuals, draws(i));
        ghost var x := draws(i) * Numeric.UnliftedSum(residuals);
        assert |residuals| > 0;
        assert j == Discrete.Pick(residuals, x);
        assert j == Discrete.PickIn(residuals, x);
        assert j == DrawnIndex(residuals, draws, i);
        drawn := drawn + [CopyParticle(ps[j])];
        i := i + 1;
      }
    }

    /**
     * `factor(score)`: the active particle's weight and score grow and it
     * waits at its continuation cc with store s. When it was the last running
     * particle, all are resampled and the first running particle goes on;
     * otherwise the next running particle does.
     */
    method Factor(score: Num, cc: nat, s: Store, ws: seq<real>, avgW: Num, draws: nat -> real) returns (r: Result<Step>)
      requires Valid() && Running(particles[particleIndex])
      requires |ws| == |particles|
      modifies this
      ensures r.Ok? ==> Valid() && r.value == Resume(particleIndex)
      ensures var p := old(particles)[old(particleIndex)];
        var waiting := old(particles)[old(particleIndex) := p.(weight := Add(p.weight, score), score := Add(p.score, score), continuation := cc, store := s)];
        (!AllParticlesAdvanced(waiting, old(particleIndex)) ==> (r.Ok? && particles == waiting &&
          particleIndex == NextRunning(waiting, old(particleIndex)) && history == old(history))) &&
        (AllParticlesAdvanced(waiting, old(particleIndex)) && avgW != NegInf ==> (r.Ok? &&
          particles == Resampled(waiting, ws, avgW, draws) && particleIndex == 0)) &&
        (AllParticlesAdvanced(waiting, old(particleIndex)) && avgW == NegInf && !strict ==> (r.Ok? &&
          particles == WithWeight(waiting, NegInf) && particleIndex == IndexOfRunning(waiting, 0))) &&
        (AllParticlesAdvanced(waiting, old(particleIndex)) && avgW == NegInf && strict ==> r == Err(AllMinusInfinity))
    {
      var p := particles[particleIndex];
      particles := particles[particleIndex := p.(weight := Add(p.weight, score), score := Add(p.score, score), continuation := cc, store := s)];
      if AllParticlesAdvanced(particles, particleIndex) {
        ghost var waiting := particles;
        ghost var active := particleIndex;
        var ok := ResampleParticles(ws, avgW, draws);
        if ok.Err? {
          return Err(ok.msg);
        }
        if avgW != NegInf {
          ResampledShape(waiting, ws, avgW, draws);
          assert Running(particles[0]);
        } else {
          assert particles[active] == waiting[active].(weight := NegInf);
        }
        particleIndex := IndexOfRunning(particles, 0);
        if particleIndex < 0 {
          // `factor` calls `finish()` here without returning its result;
          // resampling always leaves a running particle, so this is never reached.
          assert false;
        }
        return Ok(Resume(particleIndex));
      }
      assert Running(particles[particleIndex]);
      particleIndex := NextRunning(particles, particleIndex);
      return Ok(Resume(particleIndex));
    }

    /**
     * `exit(retval)`: the active particle keeps its value and completes; the
     * next running particle goes on, or when there is none the filter finishes.
     */
    method Exit(retval: Option<Types.Value>, stringify: Option<Types.Value> -> string) returns (r: Step)
      requires Valid()
      modifies this
      ensures Valid()
      ensures particles == old(particles)[old(particleIndex) := old(particles)[old(particleIndex)].(value := retval, completed := true)]
      ensures NextRunning(particles, old(particleIndex)) >= 0 ==> (r == Resume(particleIndex) &&
        particleIndex == NextRunning(particles, old(particleIndex)) && Running(particles[particleIndex]))
      ensures NextRunning(particles, old(particleIndex)) < 0 ==> (r == Finished(FinalOutcome(particles, stringify)) &&
        particleIndex == old(particleIndex))
      ensures history == old(history)
    {
      var p := particles[particleIndex];
      particles := particles[particleIndex := p.(value := retval, completed := true)];
      var next := NextRunning(particles, particleIndex);
      if next >= 0 {
        particleIndex := next;
        return Resume(next);
      }
      var o := Finish(stringify);
      return Finished(o);
    }

    /** The result of `finish`. */
    function FinalOutcome(ps: seq<Particle>, stringify: Option<Types.Value> -> string): (o: Outcome)
      requires |ps| > 0
      reads this
      ensures o.normalizationConstant == ps[0].weight
      ensures justSample ==> o.hist == [] && o.samples == Some(ps)
      ensures !justSample ==> o.samples.None? && Numeric.Sum(Dists.Probs(o.hist)) == |ps| as real
      ensures D.KeysDistinct(o.hist)
      ensures o.history == if saveHistory then Some(history) else None
    {
      Outcome(if justSample then [] else HistOfParticles(ps, stringify), if justSample then Some(ps) else None,
        if saveHistory then Some(history) else None, ps[0].weight)
    }

    /** `finish()`: the histogram of the particles' values (unless only samples are wanted) and the first weight. */
    method Finish(stringify: Option<Types.Value> -> string) returns (o: Outcome)
      requires Valid()
      ensures o == FinalOutcome(particles, stringify)
    {
      var hist: Histogram := [];
      if !justSample {
        hist := Count(KeysOf(particles, stringify), ValuesOf(particles));
      }
      o := Outcome(hist, if justSample then Some(particles) else None,
        if saveHistory then Some(history) else None, particles[0].weight);
    }
  }
}
