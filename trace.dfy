/**
 * The execution trace used by the MCMC kernels: the list of random choices
 * made so far, a map from each choice's address to the choice, the running
 * score, the number of factors met, and the saved continuation, store and
 * final value. Continuations are tokens of type K, stores values of type S,
 * distributions values of type D and sampled values values of type V.
 */
module Trace {
  import opened Wrappers

  datatype Choice<K, D, V, S> = Choice(
    k: K,
    address: string,
    dist: D,
    /** The trace score before this choice was added. */
    score: real,
    choiceScore: real,
    val: V,
    store: S,
    /** The number of factors met before this choice was added. */
    numFactors: nat)

  /** The address map that adding the choices of `cs` one by one builds. */
  function AddressMap<K, D, V, S>(cs: seq<Choice<K, D, V, S>>): map<string, Choice<K, D, V, S>> {
    if cs == [] then map[]
    else AddressMap(cs[..|cs| - 1])[cs[|cs| - 1].address := cs[|cs| - 1]]
  }

  /** Registering one more choice of a prefix extends the prefix's address map. */
  lemma {:induction false} AddressMapStep<K, D, V, S>(cs: seq<Choice<K, D, V, S>>, j: nat)
    requires j < |cs|
    ensures AddressMap(cs[..j + 1]) == AddressMap(cs[..j])[cs[j].address := cs[j]]
  {
    assert cs[..j + 1][..j] == cs[..j];
  }

  /** The `forEach` of `upto`: the address map built by registering the choices in order. */
  method RegisterAll<K, D, V, S>(cs: seq<Choice<K, D, V, S>>) returns (m: map<string, Choice<K, D, V, S>>)
    ensures m == AddressMap(cs)
  {
    m := map[];
    var j := 0;
    assert cs[..0] == [];
    while j < |cs|
      invariant 0 <= j <= |cs| && m == AddressMap(cs[..j])
    {
      AddressMapStep(cs, j);
      m := m[cs[j].address := cs[j]];
      j := j + 1;
    }
    assert cs[..j] == cs;
  }

  /** The last index in `cs` whose choice has address `a`, if any. */
  predicate IsLastWithAddress<K, D, V, S>(cs: seq<Choice<K, D, V, S>>, a: string, i: nat) {
    i < |cs| && cs[i].address == a && forall j :: i < j < |cs| ==> cs[j].address != a
  }

  /** An address is mapped to the last choice made at that address. */
  lemma {:induction false} AddressMapIsLast<K, D, V, S>(cs: seq<Choice<K, D, V, S>>, a: string)
    ensures a in AddressMap(cs) <==> exists i :: 0 <= i < |cs| && cs[i].address == a
    ensures a in AddressMap(cs) ==> exists i: nat :: IsLastWithAddress(cs, a, i) && AddressMap(cs)[a] == cs[i]
    decreases |cs|
  {
    if cs != [] {
      var n := |cs| - 1;
      var init := cs[..n];
      AddressMapIsLast(init, a);
      if cs[n].address == a {
        assert IsLastWithAddress(cs, a, n);
      } else if a in AddressMap(init) {
        var i: nat :| IsLastWithAddress(init, a, i) && AddressMap(init)[a] == init[i];
        assert IsLastWithAddress(cs, a, i);
      } else {
        forall i | 0 <= i < |cs| ensures cs[i].address != a {
          if i < n {
            assert cs[i] == init[i];
          }
        }
      }
    }
  }

  predicate DistinctAddresses<K, D, V, S>(cs: seq<Choice<K, D, V, S>>) {
    forall i, j :: 0 <= i < j < |cs| ==> cs[i].address != cs[j].address
  }

  /** With distinct addresses the map has one key per choice. */
  lemma {:induction false} AddressMapSize<K, D, V, S>(cs: seq<Choice<K, D, V, S>>)
    requires DistinctAddresses(cs)
    ensures |AddressMap(cs).Keys| == |cs|
    decreases |cs|
  {
    if cs != [] {
      var n := |cs| - 1;
      AddressMapSize(cs[..n]);
      AddressMapIsLast(cs[..n], cs[n].address);
      assert cs[n].address !in AddressMap(cs[..n]);
      assert AddressMap(cs).Keys == AddressMap(cs[..n]).Keys + {cs[n].address};
    }
  }

  /** `scoreAllChoices`: the choice scores added up from the left. */
  function SumChoiceScores<K, D, V, S>(cs: seq<Choice<K, D, V, S>>): real {
    if cs == [] then 0.0 else SumChoiceScores(cs[..|cs| - 1]) + cs[|cs| - 1].choiceScore
  }

  class Trace<K(==), D, V, S> {
    const initialStore: S
    const baseAddress: string
    var choices: seq<Choice<K, D, V, S>>
    var addressMap: map<string, Choice<K, D, V, S>>
    var length: nat
    var score: real
    var numFactors: nat
    var k: Option<K>
    var store: Option<S>
    var address: Option<string>
    var value: Option<V>

    /** How the trace's own methods keep the fields: the map and length follow the choices. */
    ghost predicate Valid()
      reads this
    {
      addressMap == AddressMap(choices) && length == |choices|
    }

    /** The assertions of `checkConsistency` that concern the trace's own fields. */
    predicate Consistent()
      reads this
    {
      (k.Some? <==> store.Some?) &&
      |choices| == length &&
      |addressMap.Keys| == length &&
      (forall i :: 0 <= i < |choices| ==> choices[i].address in addressMap) &&
      (value.Some? ==> k.None? && store.None?)
    }

    constructor (initialStore: S, baseAddress: string)
      ensures this.initialStore == initialStore && this.baseAddress == baseAddress
      ensures choices == [] && addressMap == map[] && length == 0
      ensures score == 0.0 && numFactors == 0
      ensures k.None? && store.None? && address.None? && value.None?
      ensures Valid() && Consistent()
    {
      this.initialStore := initialStore;
      this.baseAddress := baseAddress;
      choices := [];
      addressMap := map[];
      length := 0;
      score := 0.0;
      numFactors := 0;
      k := None;
      store := None;
      address := None;
      value := None;
    }

    /** `fresh`: an empty trace for the same program, store and address. */
    method Fresh() returns (t: Trace<K, D, V, S>)
      ensures fresh(t) && t.initialStore == initialStore && t.baseAddress == baseAddress
      ensures t.choices == [] && t.length == 0 && t.score == 0.0 && t.numFactors == 0
      ensures t.k.None? && t.store.None? && t.value.None?
      ensures t.Valid() && t.Consistent()
    {
      t := new Trace(initialStore, baseAddress);
    }

    /** `choiceAtIndex`: the choice at `index`, `undefined` past the end. */
    function ChoiceAtIndex(index: nat): (r: Option<Choice<K, D, V, S>>)
      reads this
      ensures r.Some? <==> index < |choices|
      ensures r.Some? ==> r.value == choices[index]
    {
      if index < |choices| then Some(choices[index]) else None
    }

    /** `findChoice`: the entry of the address map, `undefined` when absent. */
    function FindChoice(a: string): (r: Option<Choice<K, D, V, S>>)
      reads this
      ensures r.Some? <==> a in addressMap
      ensures r.Some? ==> r.value == addressMap[a]
    {
      if a in addressMap then Some(addressMap[a]) else None
    }

    method SaveContinuation(s: S, k: K)
      modifies this
      ensures store == Some(s) && this.k == Some(k)
      ensures choices == old(choices) && addressMap == old(addressMap) && length == old(length)
      ensures score == old(score) && numFactors == old(numFactors)
      ensures address == old(address) && value == old(value)
    {
      store := Some(s);
      this.k := Some(k);
    }

    /**
     * `addChoice`: record a sample. The score of `dist` at `val` is computed by
     * the distribution, which is not part of this model, and is passed in.
     */
    method AddChoice(dist: D, val: V, a: string, s: S, continuation: K, choiceScore: real)
      requires Valid()
      modifies this
      ensures Valid()
      ensures choices == old(choices) + [Choice(continuation, a, dist, old(score), choiceScore, val, s, old(numFactors))]
      ensures addressMap == old(addressMap)[a := choices[|choices| - 1]]
      ensures length == old(length) + 1 && score == old(score) + choiceScore
      ensures FindChoice(a) == Some(choices[|choices| - 1])
      ensures numFactors == old(numFactors) && k == old(k) && store == old(store)
      ensures address == old(address) && value == old(value)
      ensures ScoreAllFactors() == old(ScoreAllFactors())
      ensures old(Consistent() && a !in addressMap) ==> Consistent()
    {
      var choice := Choice(continuation, a, dist, score, choiceScore, val, s, numFactors);
      ghost var before := choices;
      choices := choices + [choice];
      assert choices[..|choices| - 1] == before;
      addressMap := addressMap[a := choice];
      length := length + 1;
      score := score + choiceScore;
    }

    function ScoreAllChoices(): real
      reads this
    {
      SumChoiceScores(choices)
    }

    /** `scoreAllFactors`: the part of the score that did not come from choices. */
    function ScoreAllFactors(): (r: real)
      reads this
      ensures r + ScoreAllChoices() == score
    {
      score - ScoreAllChoices()
    }

    /**
     * `complete`: fails when a value is already set; otherwise stores the value
     * and clears the continuation and store.
     */
    method Complete(v: V) returns (r: Result<()>)
      modifies this
      ensures old(value).Some? ==> r.Err? && value == old(value) && k == old(k) && store == old(store)
      ensures old(value).None? ==> r.Ok? && value == Some(v) && IsComplete()
      ensures choices == old(choices) && addressMap == old(addressMap) && length == old(length)
      ensures score == old(score) && numFactors == old(numFactors) && address == old(address)
      ensures old(Consistent()) ==> Consistent()
    {
      if value.Some? {
        return Err("AssertionError: value already set");
      }
      value := Some(v);
      k := None;
      store := None;
      r := Ok(());
    }

    predicate IsComplete()
      reads this
    {
      k.None? && store.None?
    }

    /**
     * `upto(i)`: a fresh trace holding the first i choices, its score and
     * factor count taken from the record of choice i. Fails unless i < length.
     */
    method Upto(i: nat) returns (r: Result<Trace<K, D, V, S>>)
      requires Valid()
      ensures i >= length ==> r.Err?
      ensures i < length ==> r.Ok? && fresh(r.value)
      ensures r.Ok? ==> r.value.Valid() && r.value.choices == choices[..i] && r.value.length == i
      ensures r.Ok? ==> r.value.score == choices[i].score && r.value.numFactors == choices[i].numFactors
      ensures r.Ok? ==> r.value.k.None? && r.value.store.None? && r.value.value.None?
      ensures r.Ok? ==> r.value.initialStore == initialStore && r.value.baseAddress == baseAddress
    {
      if !(i < length) {
        return Err("AssertionError: i < this.length");
      }
      var cs := choices[..i];
      var t := Fresh();
      t.choices := cs;
      var m := RegisterAll(cs);
      t.addressMap := m;
      t.length := |cs|;
      t.score := choices[i].score;
      t.numFactors := choices[i].numFactors;
      r := Ok(t);
    }

    /** `copy`: a fresh trace with the same fields (new containers, same contents). */
    method Copy() returns (t: Trace<K, D, V, S>)
      ensures fresh(t) && t.initialStore == initialStore && t.baseAddress == baseAddress
      ensures t.choices == choices && t.addressMap == addressMap && t.length == length
      ensures t.score == score && t.numFactors == numFactors && t.k == k && t.store == store
      ensures t.address == address && t.value == value
      ensures Valid() ==> t.Valid()
      ensures Consistent() ==> t.Consistent()
    {
      t := Fresh();
      t.choices := choices;
      t.addressMap := addressMap;
      t.length := length;
      t.score := score;
      t.k := k;
      t.store := store;
      t.address := address;
      t.value := value;
      t.numFactors := numFactors;
    }
  }

  /**
   * A trace kept by its own methods, with one choice per address, passes the
   * checks of `checkConsistency` that concern the choices.
   */
  lemma {:induction false} ValidIsConsistent<K, D, V, S>(t: Trace<K, D, V, S>)
    requires t.Valid() && DistinctAddresses(t.choices)
    requires t.k.Some? <==> t.store.Some?
    requires t.value.Some? ==> t.k.None? && t.store.None?
    ensures t.Consistent()
  {
    AddressMapSize(t.choices);
    forall i | 0 <= i < |t.choices| ensures t.choices[i].address in t.addressMap {
      AddressMapIsLast(t.choices, t.choices[i].address);
    }
  }

  /**
   * In a trace kept by its own methods with one choice per address, looking
   * up the address of the choice at an index gives that same choice back.
   */
  lemma {:induction false} ChoiceAtIndexIsFound<K, D, V, S>(t: Trace<K, D, V, S>, i: nat)
    requires t.Valid() && DistinctAddresses(t.choices)
    ensures t.ChoiceAtIndex(i).Some? ==> t.FindChoice(t.ChoiceAtIndex(i).value.address) == t.ChoiceAtIndex(i)
  {
    if i < |t.choices| {
      var a := t.choices[i].address;
      AddressMapIsLast(t.choices, a);
      var j: nat :| IsLastWithAddress(t.choices, a, j) && AddressMap(t.choices)[a] == t.choices[j];
      assert j == i;
    }
  }

  /** In a trace kept by its own methods, `findChoice` answers with the latest choice made at that address. */
  lemma {:induction false} FindChoiceIsLatest<K, D, V, S>(t: Trace<K, D, V, S>, a: string)
    requires t.Valid()
    ensures t.FindChoice(a).Some? <==> exists i :: 0 <= i < |t.choices| && t.choices[i].address == a
    ensures t.FindChoice(a).Some? ==> exists i: nat :: IsLastWithAddress(t.choices, a, i) && t.FindChoice(a).value == t.choices[i]
  {
    AddressMapIsLast(t.choices, a);
  }
}
