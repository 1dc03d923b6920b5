/**
 * The multinomial distribution: counts of n independent discrete draws. Its
 * support is built from every multiset of n state indices, enumerated as a
 * non-decreasing index sequence by a recursive search that pushes onto and
 * pops from one shared array, and turned into a histogram of counts.
 */
module Multinomial {
  import opened JsNum
  import opened Numeric
  import JsString
  import Discrete

  /** The shared `got` array of the combination search. */
  class IndexList {
    var elems: seq<nat>

    constructor ()
      ensures elems == []
    {
      elems := [];
    }

    /** `got.push(i)` */
    method Push(i: nat)
      modifies this
      ensures elems == old(elems) + [i]
    {
      elems := elems + [i];
    }

    /** `got.pop()` */
    method Pop() returns (last: nat)
      requires |elems| > 0
      modifies this
      ensures elems == old(elems)[..|old(elems)| - 1] && last == old(elems)[|old(elems)| - 1]
    {
      last := elems[|elems| - 1];
      elems := elems[..|elems| - 1];
    }
  }

  /** The combinations the search yields from the prefix got, extending it with indices from pos to d - 1. */
  function Combinations(k: nat, d: nat, got: seq<nat>, pos: nat): seq<seq<nat>>
    requires |got| <= k
    decreases k - |got|, 1, 0
  {
    if |got| == k then [got] else Branches(k, d, got, pos)
  }

  /** The combinations that extend got with i, then with i + 1, ..., up to d - 1, in that order. */
  function Branches(k: nat, d: nat, got: seq<nat>, i: nat): seq<seq<nat>>
    requires |got| < k
    decreases k - |got|, 0, if i < d then d - i else 0
  {
    if i >= d then [] else Combinations(k, d, got + [i], i) + Branches(k, d, got, i + 1)
  }

  /**
   * `allDiscreteCombinations(k, states, got, pos)` with d states: the list of
   * combinations, with got restored to what it held on entry.
   */
  method AllDiscreteCombinations(k: nat, d: nat, got: IndexList, pos: nat) returns (support: seq<seq<nat>>)
    requires |got.elems| <= k
    modifies got
    ensures got.elems == old(got.elems)
    ensures support == Combinations(k, d, old(got.elems), pos)
    decreases k - |got.elems|
  {
    if |got.elems| == k {
      return [got.elems];
    }
    support := [];
    var start := got.elems;
    var i := pos;
    while i < d
      invariant pos <= i || d <= pos
      invariant got.elems == start
      invariant support + Branches(k, d, start, i) == Branches(k, d, start, pos)
    {
      got.Push(i);
      var more := AllDiscreteCombinations(k, d, got, i);
      assert support + more + Branches(k, d, start, i + 1) == support + Branches(k, d, start, i);
      support := support + more;
      var _ := got.Pop();
      assert got.elems == start;
      i := i + 1;
    }
    assert Branches(k, d, start, i) == [];
    assert support + [] == support;
  }

  /** A non-decreasing sequence of indices, each at least lo and below d. */
  predicate Rising(s: seq<nat>, lo: nat, d: nat)
    decreases |s|
  {
    s == [] || (lo <= s[0] < d && Rising(s[1..], s[0], d))
  }

  /**
   * What the search from got and pos yields: the sequences of length k that
   * begin with got and continue with a rising run of indices from pos on.
   */
  predicate Extends(c: seq<nat>, k: nat, d: nat, got: seq<nat>, pos: nat) {
    |c| == k && |got| <= k && c[..|got|] == got && Rising(c[|got|..], pos, d)
  }

  /** The combinations yielded are exactly the extensions of got. */
  lemma {:induction false} CombinationsExactly(k: nat, d: nat, got: seq<nat>, pos: nat, c: seq<nat>)
    requires |got| <= k
    ensures c in Combinations(k, d, got, pos) <==> Extends(c, k, d, got, pos)
    decreases k - |got|, 1, 0
  {
    if |got| == k {
      if Extends(c, k, d, got, pos) {
        assert c == c[..|got|];
      }
    } else {
      BranchesExactly(k, d, got, pos, c);
      if Extends(c, k, d, got, pos) {
        assert c[|got|..] != [];
      }
    }
  }

  /** The branches from i on yield the extensions of got whose next index is at least i. */
  lemma {:induction false} BranchesExactly(k: nat, d: nat, got: seq<nat>, i: nat, c: seq<nat>)
    requires |got| < k
    ensures c in Branches(k, d, got, i) <==> Extends(c, k, d, got, i) && c[|got|..] != []
    decreases k - |got|, 0, if i < d then d - i else 0
  {
    if i < d {
      CombinationsExactly(k, d, got + [i], i, c);
      BranchesExactly(k, d, got, i + 1, c);
      if |c| == k && c[..|got|] == got {
        var rest := c[|got|..];
        assert c[|got| + 1..] == rest[1..];
        if rest != [] && rest[0] == i {
          assert c[..|got| + 1] == got + [i];
        }
        if c[..|got| + 1] == got + [i] {
          assert rest[0] == i;
        }
      }
    }
  }

  /** `allDiscreteCombinations(k, states, [], 0)` yields exactly the non-decreasing index sequences of length k. */
  lemma {:induction false} CombinationsFromEmpty(k: nat, d: nat, c: seq<nat>)
    ensures c in Combinations(k, d, [], 0) <==> |c| == k && Rising(c, 0, d)
  {
    CombinationsExactly(k, d, [], 0, c);
    assert c[..0] == [] && c[0..] == c;
  }

  /** How many of the samples are the state j: `_.countBy(samples)[j]`, 0 when absent. */
  function Count(samples: seq<nat>, j: nat): nat {
    multiset(samples)[j]
  }

  /** All the samples are state indices below d. */
  predicate Below(samples: seq<nat>, d: nat) {
    forall i :: 0 <= i < |samples| ==> samples[i] < d
  }

  /**
   * `buildHistogramFromCombinations(samples, states)` as evidently intended:
   * position j holds the count of state j, 0 for a state not sampled.
   */
  function Histogram(samples: seq<nat>, d: nat): (h: seq<nat>)
    requires Below(samples, d)
    ensures |h| == d && forall j :: 0 <= j < d ==> h[j] == Count(samples, j)
  {
    seq(d, (j: int) requires 0 <= j < d => Count(samples, j))
  }

  /** The sum of the counts. */
  function Total(h: seq<nat>): nat {
    if h == [] then 0 else Total(h[..|h| - 1]) + h[|h| - 1]
  }

  /** Raising one count by one raises the total by one. */
  lemma {:induction false} TotalOfBump(h: seq<nat>, g: seq<nat>, x: nat)
    requires |h| == |g| && x < |h| && g[x] == h[x] + 1
    requires forall j :: 0 <= j < |h| && j != x ==> g[j] == h[j]
    ensures Total(g) == Total(h) + 1
    decreases |h|
  {
    var n := |h| - 1;
    if x < n {
      TotalOfBump(h[..n], g[..n], x);
    } else {
      TotalSame(h[..n], g[..n]);
    }
  }

  /** Equal counts, equal totals. */
  lemma {:induction false} TotalSame(h: seq<nat>, g: seq<nat>)
    requires |h| == |g| && forall j :: 0 <= j < |h| ==> g[j] == h[j]
    ensures Total(g) == Total(h)
  {
    assert g == h;
  }

  /** The histogram of state indices has d counts summing to the number of samples. */
  lemma {:induction false} HistogramSum(samples: seq<nat>, d: nat)
    requires Below(samples, d)
    ensures Total(Histogram(samples, d)) == |samples|
    decreases |samples|
  {
    if samples == [] {
      assert forall j :: 0 <= j < d ==> Histogram(samples, d)[j] == 0;
      AllZero(Histogram(samples, d));
    } else {
      var init := samples[..|samples| - 1];
      var x := samples[|samples| - 1];
      assert samples == init + [x];
      assert multiset(samples) == multiset(init) + multiset{x};
      HistogramSum(init, d);
      TotalOfBump(Histogram(init, d), Histogram(samples, d), x);
    }
  }

  /** Counts that are all zero total zero. */
  lemma {:induction false} AllZero(h: seq<nat>)
    requires forall j :: 0 <= j < |h| ==> h[j] == 0
    ensures Total(h) == 0
    decreases |h|
  {
    if h != [] {
      AllZero(h[..|h| - 1]);
    }
  }

  /** `String(j)`, the key `_.countBy` files the count of state j under. */
  function Key(j: nat): string {
    JsString.NatToString(j)
  }

  /** `a < b` on strings: code unit by code unit, a proper prefix first. */
  predicate TextLess(a: string, b: string)
    decreases |a|
  {
    |b| > 0 && (|a| == 0 || a[0] < b[0] || (a[0] == b[0] && TextLess(a[1..], b[1..])))
  }

  /** A stable insertion of x into keys already in order, before the first key whose text is greater. */
  function InsertByKey(x: nat, s: seq<nat>): (r: seq<nat>)
    ensures |r| == |s| + 1
  {
    if s == [] then [x]
    else if TextLess(Key(x), Key(s[0])) then [x] + s
    else [s[0]] + InsertByKey(x, s[1..])
  }

  /**
   * The order `_.sortBy(hist, function(val, key) { return key; })` lists the
   * states in: the keys 0, ..., d - 1 sorted as strings, stably.
   */
  function KeyOrder(d: nat): (r: seq<nat>)
    ensures |r| == d
  {
    if d == 0 then [] else InsertByKey(d - 1, KeyOrder(d - 1))
  }

  /**
   * `buildHistogramFromCombinations(samples, states)` as the underscore-based
   * copies write it: underscore's `_.sortBy` hands the iteratee the key, a
   * string, so the counts are listed in the string order of their keys and
   * with more than ten states the count of state 10 comes before that of
   * state 2. The lodash-based copy calls `.object()`, which only lodash 3
   * has, and lodash 3's `_.sortBy` also hands the iteratee the key, so it
   * lists the counts in the same order.
   */
  function HistogramAsWritten(samples: seq<nat>, d: nat): (h: seq<nat>)
    requires Below(samples, d)
    ensures |h| == d && forall p :: 0 <= p < d ==> h[p] == Count(samples, KeyOrder(d)[p])
  {
    var order := KeyOrder(d);
    seq(d, (p: int) requires 0 <= p < d => Count(samples, order[p]))
  }

  /** The indices 0, ..., d - 1. */
  function Indices(d: nat): (r: seq<nat>)
    ensures |r| == d && forall i :: 0 <= i < d ==> r[i] == i
  {
    seq(d, (i: int) requires 0 <= i < d => i)
  }

  /** A key no greater than every key already listed goes last. */
  lemma {:induction false} InsertLast(x: nat, s: seq<nat>)
    requires forall i :: 0 <= i < |s| ==> !TextLess(Key(x), Key(s[i]))
    ensures InsertByKey(x, s) == s + [x]
    decreases |s|
  {
    if s != [] {
      InsertLast(x, s[1..]);
      assert [s[0]] + (s[1..] + [x]) == s + [x];
    }
  }

  /** The key of a one-digit state is its digit. */
  lemma {:induction false} DigitKey(j: nat)
    requires j < 10
    ensures Key(j) == [('0' as int + j) as char]
  {
  }

  /** Up to ten states, the string order of the keys is the numeric order. */
  lemma {:induction false} FewStatesInOrder(d: nat)
    requires d <= 10
    ensures KeyOrder(d) == Indices(d)
  {
    if d > 0 {
      FewStatesInOrder(d - 1);
      var prev, last := Indices(d - 1), d - 1;
      forall i | 0 <= i < |prev|
        ensures !TextLess(Key(last), Key(prev[i]))
      {
        DigitKey(last);
        DigitKey(i);
      }
      InsertLast(last, prev);
      assert prev + [last] == Indices(d);
    }
  }

  /** Up to ten states, the histogram as written is the intended one. */
  lemma {:induction false} AsWrittenAgreesUpToTen(samples: seq<nat>, d: nat)
    requires d <= 10 && Below(samples, d)
    ensures HistogramAsWritten(samples, d) == Histogram(samples, d)
  {
    FewStatesInOrder(d);
  }

  /** The key of state 10 sorts after those of states 0 and 1 but before that of state 2. */
  lemma {:induction false} KeyOfTen()
    ensures Key(10) == ['1', '0']
    ensures !TextLess(Key(10), Key(0)) && !TextLess(Key(10), Key(1)) && TextLess(Key(10), Key(2))
  {
    assert Key(10) == JsString.NatToString(1) + ['0'];
    DigitKey(0);
    DigitKey(1);
    DigitKey(2);
    assert Key(10)[1..] == ['0'];
  }

  /** With eleven states the order is 0, 1, 10, 2, ..., 9, so the last position holds state 9. */
  lemma {:induction false} ElevenStatesOrder()
    ensures KeyOrder(11)[10] == 9 && KeyOrder(11)[2] == 10
  {
    FewStatesInOrder(10);
    var s := Indices(10);
    KeyOfTen();
    assert InsertByKey(10, s) == [s[0]] + InsertByKey(10, s[1..]);
    assert InsertByKey(10, s[1..]) == [s[1]] + InsertByKey(10, s[2..]);
    assert InsertByKey(10, s[2..]) == [10] + s[2..];
  }

  /** A single draw of state 10 among eleven states lands at position 2 instead of position 10. */
  lemma {:induction false} StateTenMisplaced(samples: seq<nat>)
    requires samples == [10]
    ensures HistogramAsWritten(samples, 11)[10] == 0 && Histogram(samples, 11)[10] == 1
    ensures HistogramAsWritten(samples, 11)[2] == 1 && Histogram(samples, 11)[2] == 0
  {
    ElevenStatesOrder();
  }

  /** A rising run of indices stays below d. */
  lemma {:induction false} RisingIsBelow(s: seq<nat>, lo: nat, d: nat)
    requires Rising(s, lo, d)
    ensures Below(s, d)
    decreases |s|
  {
    if s != [] {
      RisingIsBelow(s[1..], s[0], d);
      assert forall i :: 1 <= i < |s| ==> s[i] == s[1..][i - 1];
    }
  }

  /** The histogram of the i-th combination of n draws from d states. */
  function HistogramOf(n: nat, d: nat, i: nat): (h: seq<nat>)
    requires i < |Combinations(n, d, [], 0)|
    ensures |h| == d && Total(h) == n
  {
    var c := Combinations(n, d, [], 0)[i];
    CombinationsFromEmpty(n, d, c);
    RisingIsBelow(c, 0, d);
    HistogramSum(c, d);
    Histogram(c, d)
  }

  /**
   * The multinomial `support()`: one histogram per combination of n draws
   * from the d states, each of d counts summing to n.
   */
  function Support(n: nat, d: nat): (r: seq<seq<nat>>)
    ensures |r| == |Combinations(n, d, [], 0)|
    ensures forall i :: 0 <= i < |r| ==> |r[i]| == d && Total(r[i]) == n
  {
    seq(|Combinations(n, d, [], 0)|, (i: int) requires 0 <= i < |Combinations(n, d, [], 0)| => HistogramOf(n, d, i))
  }

  /** The histogram of the i-th combination in the order the copies as written list it. */
  function HistogramOfAsWritten(n: nat, d: nat, i: nat): (h: seq<nat>)
    requires i < |Combinations(n, d, [], 0)|
    ensures |h| == d
    ensures d <= 10 ==> h == HistogramOf(n, d, i)
  {
    var c := Combinations(n, d, [], 0)[i];
    CombinationsFromEmpty(n, d, c);
    RisingIsBelow(c, 0, d);
    if d <= 10 then
      AsWrittenAgreesUpToTen(c, d);
      HistogramAsWritten(c, d)
    else HistogramAsWritten(c, d)
  }

  /**
   * The multinomial `support()` as written: the histograms listed by
   * `HistogramAsWritten`. Up to ten states it is the intended support.
   */
  function SupportAsWritten(n: nat, d: nat): (r: seq<seq<nat>>)
    ensures |r| == |Combinations(n, d, [], 0)|
    ensures forall i :: 0 <= i < |r| ==> |r[i]| == d
    ensures d <= 10 ==> r == Support(n, d)
  {
    seq(|Combinations(n, d, [], 0)|, (i: int) requires 0 <= i < |Combinations(n, d, [], 0)| => HistogramOfAsWritten(n, d, i))
  }

  /** With one draw, the combinations are the single states in order. */
  lemma {:induction false} SingleDrawBranches(d: nat, i: nat)
    requires i <= d
    ensures |Branches(1, d, [], i)| == d - i
    ensures forall j :: i <= j < d ==> Branches(1, d, [], i)[j - i] == [j]
    decreases d - i
  {
    if i < d {
      SingleDrawBranches(d, i + 1);
      assert [] + [i] == [i];
      assert Combinations(1, d, [i], i) == [[i]];
    }
  }

  /**
   * With one draw from eleven states, the support as written lists, for the
   * draw of state 10, a histogram whose 1 sits at position 2 instead of at
   * position 10.
   */
  lemma {:induction false} SupportAsWrittenMisplacesTen()
    ensures |Support(1, 11)| == 11 && |SupportAsWritten(1, 11)| == 11
    ensures Support(1, 11)[10][10] == 1 && Support(1, 11)[10][2] == 0
    ensures SupportAsWritten(1, 11)[10][10] == 0 && SupportAsWritten(1, 11)[10][2] == 1
  {
    SingleDrawBranches(11, 0);
    assert Combinations(1, 11, [], 0)[10] == [10];
    StateTenMisplaced([10]);
  }

  /** The states the inverse-CDF draws pick from a non-empty weight array, in draw order. */
  function PickedStates(theta: seq<real>, draws: seq<real>): (r: seq<nat>)
    requires |theta| > 0
    ensures |r| == |draws| && Below(r, |theta|)
  {
    if draws == [] then []
    else PickedStates(theta, draws[..|draws| - 1]) + [PickedState(theta, draws[|draws| - 1])]
  }

  /** The state the uniform draw u picks from a non-empty weight array. */
  function PickedState(theta: seq<real>, u: real): (r: nat)
    requires |theta| > 0
    ensures r < |theta| && r == Discrete.Pick(theta, u * UnliftedSum(theta))
  {
    Discrete.SampleInRange(theta, u * UnliftedSum(theta));
    Discrete.Pick(theta, u * UnliftedSum(theta))
  }

  /** `discrete.sample(theta)` for the draw u, as a state of a non-empty weight array. */
  method SampleState(theta: seq<real>, u: real) returns (j: nat)
    requires |theta| > 0
    ensures j == PickedState(theta, u)
  {
    var k := Discrete.Sample(theta, u);
    assert k == PickedState(theta, u);
    j := k;
  }

  /** One more draw appends its state. */
  lemma {:induction false} PickedStatesStep(theta: seq<real>, draws: seq<real>, i: nat)
    requires |theta| > 0 && i < |draws|
    ensures PickedStates(theta, draws[..i + 1]) == PickedStates(theta, draws[..i]) + [PickedState(theta, draws[i])]
  {
    var upTo := draws[..i + 1];
    assert upTo[..|upTo| - 1] == draws[..i];
    assert upTo[|upTo| - 1] == draws[i];
  }

  /**
   * `sample(theta, n)`, given the n uniform draws: a count per state of how
   * often the discrete sampler picked it. For an empty weight array the
   * sampler gives -1, whose increment does not touch the array.
   */
  method Sample(theta: seq<real>, n: nat, draws: seq<real>) returns (counts: seq<nat>)
    requires |draws| == n
    ensures |counts| == |theta|
    ensures |theta| > 0 ==> counts == Histogram(PickedStates(theta, draws), |theta|) && Total(counts) == n
  {
    var a := new nat[|theta|](_ => 0);
    if |theta| == 0 {
      return a[..];
    }
    ghost var picks: seq<nat> := [];
    assert a[..] == Histogram(picks, |theta|);
    var i := 0;
    while i < n
      invariant 0 <= i <= n
      invariant picks == PickedStates(theta, draws[..i])
      invariant a[..] == Histogram(picks, |theta|)
    {
      var j := SampleState(theta, draws[i]);
      HistogramStep(picks, j, |theta|);
      PickedStatesStep(theta, draws, i);
      a[j] := a[j] + 1;
      picks := picks + [j];
      i := i + 1;
    }
    counts := a[..];
    assert draws[..n] == draws;
    HistogramSum(picks, |theta|);
  }

  /** One more sample of state x raises the count of x by one. */
  lemma {:induction false} HistogramStep(samples: seq<nat>, x: nat, d: nat)
    requires Below(samples, d) && x < d
    ensures Below(samples + [x], d)
    ensures Histogram(samples + [x], d) == Histogram(samples, d)[x := Histogram(samples, d)[x] + 1]
  {
    assert multiset(samples + [x]) == multiset(samples) + multiset{x};
    assert Below(samples + [x], d) by {
      forall i | 0 <= i < |samples + [x]|
        ensures (samples + [x])[i] < d
      {
        if i < |samples| {
          assert (samples + [x])[i] == samples[i];
        }
      }
    }
  }

  /** The sum of numbers, from 0 and from the left, as `numeric.sum` adds them. */
  function NumSum(xs: seq<Num>): Num
    decreases |xs|
  {
    if xs == [] then Finite(0.0) else Add(NumSum(xs[..|xs| - 1]), xs[|xs| - 1])
  }

  /** `x[i] = numeric.lnfact(val[i])` for each state; NaN past the end of val. */
  function LnFacts(d: nat, val: seq<real>, lnfact: real -> real): (x: seq<Num>)
    ensures |x| == d
  {
    seq(d, (i: int) requires 0 <= i < d => if i < |val| then Finite(lnfact(val[i])) else NaN)
  }

  /** The term of state i: 0 for a zero count, otherwise `val[i] * Math.log(ps[i])`; NaN past the end of val. */
  function Term(ps: seq<real>, val: seq<real>, i: nat, log: real -> real): Num
    requires i < |ps|
  {
    if i >= |val| then NaN
    else if val[i] == 0.0 then Finite(0.0)
    else Mul(Finite(val[i]), JsLog(Finite(ps[i]), log))
  }

  /** `y`: the terms of all the states. */
  function Terms(ps: seq<real>, val: seq<real>, log: real -> real): (y: seq<Num>)
    ensures |y| == |ps| && forall i :: 0 <= i < |ps| ==> y[i] == Term(ps, val, i, log)
  {
    seq(|ps|, (i: int) requires 0 <= i < |ps| => Term(ps, val, i, log))
  }

  /**
   * `score(val)`: -Infinity unless the counts sum to n; otherwise
   * `lnfact(n) - sum(x) + sum(y)`, where lnfact stands for `numeric.lnfact`.
   */
  method Score(ps: seq<real>, n: nat, val: seq<real>, lnfact: real -> real, log: real -> real) returns (s: Num)
    ensures Sum(val) != n as real ==> s == NegInf
    ensures Sum(val) == n as real ==>
      s == Add(Add(Finite(lnfact(n as real)), Negate(NumSum(LnFacts(|ps|, val, lnfact)))), NumSum(Terms(ps, val, log)))
  {
    if Sum(val) != n as real {
      return NegInf;
    }
    var x: seq<Num> := [];
    var y: seq<Num> := [];
    var i := 0;
    while i < |ps|
      invariant 0 <= i <= |ps|
      invariant x == LnFacts(|ps|, val, lnfact)[..i]
      invariant y == Terms(ps, val, log)[..i]
    {
      x := x + [if i < |val| then Finite(lnfact(val[i])) else NaN];
      y := y + [if i >= |val| then NaN else if val[i] == 0.0 then Finite(0.0) else Mul(Finite(val[i]), JsLog(Finite(ps[i]), log))];
      i := i + 1;
    }
    assert x == LnFacts(|ps|, val, lnfact) && y == Terms(ps, val, log);
    s := Add(Add(Finite(lnfact(n as real)), Negate(NumSum(x))), NumSum(y));
  }

  /** A term is finite or -Infinity. */
  predicate FiniteOrNegInf(x: Num) {
    x.Finite? || x.NegInf?
  }

  /** A sum of finite numbers and -Infinities is -Infinity as soon as one term is. */
  lemma {:induction false} SumWithNegInf(xs: seq<Num>, k: nat)
    requires forall i :: 0 <= i < |xs| ==> FiniteOrNegInf(xs[i])
    requires k < |xs| && xs[k] == NegInf
    ensures NumSum(xs) == NegInf
    decreases |xs|
  {
    var init := xs[..|xs| - 1];
    if k < |xs| - 1 {
      SumWithNegInf(init, k);
    } else {
      SumFiniteOrNegInf(init);
    }
  }

  /** A sum of finite numbers and -Infinities is one or the other. */
  lemma {:induction false} SumFiniteOrNegInf(xs: seq<Num>)
    requires forall i :: 0 <= i < |xs| ==> FiniteOrNegInf(xs[i])
    ensures FiniteOrNegInf(NumSum(xs))
    decreases |xs|
  {
    if xs != [] {
      SumFiniteOrNegInf(xs[..|xs| - 1]);
    }
  }

  /** A sum of finite numbers is finite. */
  lemma {:induction false} SumOfFinite(xs: seq<Num>)
    requires forall i :: 0 <= i < |xs| ==> xs[i].Finite?
    ensures NumSum(xs).Finite?
    decreases |xs|
  {
    if xs != [] {
      SumOfFinite(xs[..|xs| - 1]);
    }
  }

  /** Probabilities in [0, 1], one count per state. */
  predicate WellFormed(ps: seq<real>, val: seq<real>) {
    |val| == |ps| && forall i :: 0 <= i < |ps| ==> 0.0 <= ps[i] <= 1.0 && val[i] >= 0.0
  }

  /** The terms of well-formed counts are finite or -Infinity: never NaN, even for a zero probability with a zero count. */
  lemma {:induction false} TermsNeverNaN(ps: seq<real>, val: seq<real>, log: real -> real)
    requires WellFormed(ps, val)
    ensures forall i :: 0 <= i < |ps| ==> FiniteOrNegInf(Terms(ps, val, log)[i])
    ensures (forall i :: 0 <= i < |ps| ==> ps[i] > 0.0 || val[i] == 0.0) ==> NumSum(Terms(ps, val, log)).Finite?
  {
    var y := Terms(ps, val, log);
    if forall i :: 0 <= i < |ps| ==> ps[i] > 0.0 || val[i] == 0.0 {
      SumOfFinite(y);
    }
  }

  /** A positive count of a state of probability 0 makes the terms sum to -Infinity. */
  lemma {:induction false} ImpossibleStateTerms(ps: seq<real>, val: seq<real>, log: real -> real, k: nat)
    requires WellFormed(ps, val) && k < |ps| && ps[k] == 0.0 && val[k] > 0.0
    ensures NumSum(Terms(ps, val, log)) == NegInf
  {
    TermsNeverNaN(ps, val, log);
    SumWithNegInf(Terms(ps, val, log), k);
  }

  /** Counts that sum to n but give a state of probability 0 a positive count score -Infinity. */
  lemma {:induction false} ImpossibleStateScores(ps: seq<real>, n: nat, val: seq<real>, lnfact: real -> real, log: real -> real, k: nat)
    requires WellFormed(ps, val) && k < |ps| && ps[k] == 0.0 && val[k] > 0.0
    ensures Add(Add(Finite(lnfact(n as real)), Negate(NumSum(LnFacts(|ps|, val, lnfact)))), NumSum(Terms(ps, val, log))) == NegInf
  {
    ImpossibleStateTerms(ps, val, log, k);
    SumOfFinite(LnFacts(|ps|, val, lnfact));
  }
}
