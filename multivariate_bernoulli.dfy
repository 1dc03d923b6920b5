/**
 * The multivariate Bernoulli distribution over vectors of 0s and 1s: the
 * binary encoding its support is enumerated by, the score's shape check and
 * its per-coordinate terms, and sampling from given uniform draws.
 */
module MultivariateBernoulli {
  import opened Wrappers
  import opened JsNum
  import opened Numeric
  import Types
  import BitOps = Bits

  /** The number a little-endian bit vector stands for: the sum of bits[i] * 2^i. */
  function BitsValue(bits: seq<int>): int
    decreases |bits|
  {
    if bits == [] then 0 else bits[0] + 2 * BitsValue(bits[1..])
  }

  /** Every element is 0 or 1. */
  predicate IsBinary(bits: seq<int>) {
    forall i :: 0 <= i < |bits| ==> bits[i] == 0 || bits[i] == 1
  }

  /** The length low bits of x, least significant first, as halving x gives them. */
  function Bits(x: int, length: nat): (bits: seq<int>)
    ensures |bits| == length
    decreases length
  {
    if length == 0 then [] else [x % 2] + Bits(x / 2, length - 1)
  }

  /** For 0 <= x < 2^length the bits are 0s and 1s and stand for x. */
  lemma {:induction false} BitsEncode(x: int, length: nat)
    requires 0 <= x < BitOps.Pow2(length)
    ensures IsBinary(Bits(x, length)) && BitsValue(Bits(x, length)) == x
    decreases length
  {
    if length > 0 {
      BitsEncode(x / 2, length - 1);
      var bits := Bits(x, length);
      assert bits[1..] == Bits(x / 2, length - 1);
    }
  }

  /** Decoding and encoding again gives back a binary vector. */
  lemma {:induction false} BitsDecode(bits: seq<int>)
    requires IsBinary(bits)
    ensures 0 <= BitsValue(bits) < BitOps.Pow2(|bits|) && Bits(BitsValue(bits), |bits|) == bits
    decreases |bits|
  {
    if bits != [] {
      assert IsBinary(bits[1..]) by {
        forall i | 0 <= i < |bits[1..]|
          ensures bits[1..][i] == 0 || bits[1..][i] == 1
        {
          assert bits[1..][i] == bits[i + 1];
        }
      }
      BitsDecode(bits[1..]);
      var v := BitsValue(bits);
      assert v % 2 == bits[0] && v / 2 == BitsValue(bits[1..]);
      assert Bits(v, |bits|) == [bits[0]] + Bits(BitsValue(bits[1..]), |bits| - 1);
    }
  }

  /** Different numbers below 2^length have different encodings. */
  lemma {:induction false} BitsInjective(x: int, y: int, length: nat)
    requires 0 <= x < BitOps.Pow2(length) && 0 <= y < BitOps.Pow2(length)
    requires Bits(x, length) == Bits(y, length)
    ensures x == y
  {
    BitsEncode(x, length);
    BitsEncode(y, length);
  }

  /**
   * `toBinaryArray(x, length)` as evidently intended: the assertion fails
   * unless 0 <= x < 2^length; then one bit per step, halving x each time.
   */
  method ToBinaryArray(x: int, length: nat) returns (r: Result<seq<int>>)
    ensures r.Ok? <==> 0 <= x < BitOps.Pow2(length)
    ensures r.Ok? ==> r.value == Bits(x, length)
    ensures r.Ok? ==> |r.value| == length && IsBinary(r.value) && BitsValue(r.value) == x
  {
    if !(x >= 0 && x < BitOps.Pow2(length)) {
      return Err("AssertionError");
    }
    BitsEncode(x, length);
    var arr: seq<int> := [];
    var y := x;
    var i := 0;
    while i < length
      invariant 0 <= i <= length
      invariant arr + Bits(y, length - i) == Bits(x, length)
    {
      assert Bits(y, length - i) == [y % 2] + Bits(y / 2, length - i - 1);
      arr := arr + [y % 2];
      y := y / 2;
      i := i + 1;
    }
    assert arr + [] == arr;
    return Ok(arr);
  }

  /** `ToInt32(x)`: x modulo 2^32, read as a signed 32-bit integer. */
  function ToInt32(x: int): (r: int)
    ensures -0x8000_0000 <= r < 0x8000_0000
  {
    var m := x % 0x1_0000_0000;
    if m >= 0x8000_0000 then m - 0x1_0000_0000 else m
  }

  /** `a % 2`: the remainder takes the sign of a. */
  function JsRem2(a: int): (r: int)
    ensures -1 <= r <= 1
  {
    if a >= 0 then a % 2 else -((-a) % 2)
  }

  /** The bits `toBinaryArray` computes as written: `x % 2`, then `x = x >> 1`, which first truncates x to 32 bits. */
  function BitsAsWritten(x: int, length: nat): (bits: seq<int>)
    ensures |bits| == length
    decreases length
  {
    if length == 0 then [] else [JsRem2(x)] + BitsAsWritten(ToInt32(x) / 2, length - 1)
  }

  /** `toBinaryArray(x, length)` as written. */
  method ToBinaryArrayAsWritten(x: int, length: nat) returns (r: Result<seq<int>>)
    ensures r.Ok? <==> 0 <= x < BitOps.Pow2(length)
    ensures r.Ok? ==> r.value == BitsAsWritten(x, length)
  {
    if !(x >= 0 && x < BitOps.Pow2(length)) {
      return Err("AssertionError");
    }
    var arr: seq<int> := [];
    var y := x;
    var i := 0;
    while i < length
      invariant 0 <= i <= length
      invariant arr + BitsAsWritten(y, length - i) == BitsAsWritten(x, length)
    {
      assert BitsAsWritten(y, length - i) == [JsRem2(y)] + BitsAsWritten(ToInt32(y) / 2, length - i - 1);
      arr := arr + [JsRem2(y)];
      y := ToInt32(y) / 2;
      i := i + 1;
    }
    assert arr + [] == arr;
    return Ok(arr);
  }

  /** Below 2^31 the shift does not truncate, so the two agree. */
  lemma {:induction false} AsWrittenAgreesBelow31(x: int, length: nat)
    requires 0 <= x < 0x8000_0000
    ensures BitsAsWritten(x, length) == Bits(x, length)
    decreases length
  {
    if length > 0 {
      AsWrittenAgreesBelow31(x / 2, length - 1);
    }
  }

  /** 2^(a + b) == 2^a * 2^b */
  lemma {:induction false} Pow2Add(a: nat, b: nat)
    ensures BitOps.Pow2(a + b) == BitOps.Pow2(a) * BitOps.Pow2(b)
    decreases a
  {
    if a > 0 {
      Pow2Add(a - 1, b);
      assert BitOps.Pow2(a + b) == 2 * BitOps.Pow2(a - 1 + b);
      assert 2 * (BitOps.Pow2(a - 1) * BitOps.Pow2(b)) == (2 * BitOps.Pow2(a - 1)) * BitOps.Pow2(b);
    }
  }

  /** 2^31 written out. */
  lemma {:induction false} TwoTo31()
    ensures BitOps.Pow2(31) == 0x8000_0000 && BitOps.Pow2(32) == 0x1_0000_0000
  {
    assert BitOps.Pow2(2) == 4;
    assert BitOps.Pow2(4) == 16 by { Pow2Add(2, 2); }
    assert BitOps.Pow2(8) == 256 by { Pow2Add(4, 4); }
    assert BitOps.Pow2(16) == 0x1_0000 by { Pow2Add(8, 8); }
    assert BitOps.Pow2(32) == 0x1_0000_0000 by { Pow2Add(16, 16); }
    assert BitOps.Pow2(32) == 2 * BitOps.Pow2(31);
  }

  /** 2^a <= 2^b when a <= b. */
  lemma {:induction false} Pow2Monotone(a: nat, b: nat)
    requires a <= b
    ensures BitOps.Pow2(a) <= BitOps.Pow2(b)
    decreases b - a
  {
    if a < b {
      Pow2Monotone(a, b - 1);
    }
  }

  /** Every vector length up to 31 can be encoded without truncation. */
  lemma {:induction false} Pow2Below31(n: nat)
    requires n <= 31
    ensures BitOps.Pow2(n) <= 0x8000_0000
  {
    Pow2Monotone(n, 31);
    TwoTo31();
  }

  /** At most 31 coordinates, the encoding as written is the intended one. */
  lemma {:induction false} AsWrittenAgreesUpTo31(x: int, length: nat)
    requires length <= 31 && 0 <= x < BitOps.Pow2(length)
    ensures BitsAsWritten(x, length) == Bits(x, length)
  {
    Pow2Below31(length);
    AsWrittenAgreesBelow31(x, length);
  }

  /** -2^j fits in 32 bits for j <= 31. */
  lemma {:induction false} NegativePowerFits(j: nat)
    requires j <= 31
    ensures ToInt32(-(BitOps.Pow2(j) as int)) == -(BitOps.Pow2(j) as int)
  {
    Pow2Below31(j);
  }

  /** Shifting -2^j keeps it a negative power of 2, down to -1, whose remainder is -1. */
  lemma {:induction false} NegativePowerTopBit(j: nat)
    requires j <= 31
    ensures BitsAsWritten(-(BitOps.Pow2(j) as int), j + 1)[j] == -1
  {
    if j > 0 {
      NegativePowerFits(j);
      assert ToInt32(-(BitOps.Pow2(j) as int)) / 2 == -(BitOps.Pow2(j - 1) as int);
      NegativePowerTopBit(j - 1);
      assert BitsAsWritten(-(BitOps.Pow2(j) as int), j + 1)[j] == BitsAsWritten(-(BitOps.Pow2(j - 1) as int), j)[j - 1];
    }
  }

  /** With 32 coordinates, 2^31 encodes as written with a top bit of -1 instead of 1. */
  lemma {:induction false} TopBitOf32(x: int)
    requires x == BitOps.Pow2(31)
    ensures 0 <= x < BitOps.Pow2(32)
    ensures BitsAsWritten(x, 32)[31] == -1 && Bits(x, 32)[31] == 1
  {
    TwoTo31();
    assert ToInt32(x) == -0x8000_0000;
    assert ToInt32(x) / 2 == -(BitOps.Pow2(30) as int);
    assert BitsAsWritten(x, 32)[31] == BitsAsWritten(-(BitOps.Pow2(30) as int), 31)[30];
    NegativePowerTopBit(30);
    PowerTopBit(31);
  }

  /** The top bit of 2^j among j + 1 bits is 1. */
  lemma {:induction false} PowerTopBit(j: nat)
    ensures Bits(BitOps.Pow2(j), j + 1)[j] == 1
  {
    if j > 0 {
      PowerTopBit(j - 1);
      assert Bits(BitOps.Pow2(j), j + 1)[j] == Bits(BitOps.Pow2(j - 1), j)[j - 1];
    }
  }

  /** A bit vector as a `[d, 1]` tensor of numbers. */
  function BitVector(bits: seq<int>): (v: Types.Value)
    ensures Types.IsVector(v) && v.dims[0] == |bits| && |v.data| == |bits|
    ensures forall i :: 0 <= i < |bits| ==> v.data[i] == Finite(bits[i] as real)
  {
    Types.TensorValue([|bits|, 1], seq(|bits|, (i: int) requires 0 <= i < |bits| => Finite(bits[i] as real)))
  }

  lemma {:induction false} BitVectorInjective(a: seq<int>, b: seq<int>)
    requires BitVector(a) == BitVector(b)
    ensures a == b
  {
    assert |a| == |b|;
    forall i | 0 <= i < |a|
      ensures a[i] == b[i]
    {
      assert BitVector(a).data[i] == BitVector(b).data[i];
    }
  }

  /** `support()`: the 2^d vectors given by the encodings of 0, 1, ..., 2^d - 1. */
  function Support(d: nat): (r: seq<Types.Value>)
    ensures |r| == BitOps.Pow2(d)
    ensures forall x :: 0 <= x < BitOps.Pow2(d) ==> r[x] == BitVector(Bits(x, d))
  {
    seq(BitOps.Pow2(d), (x: int) requires 0 <= x < BitOps.Pow2(d) => BitVector(Bits(x, d)))
  }

  /** No vector occurs twice in the support. */
  lemma {:induction false} SupportDistinct(d: nat, x: int, y: int)
    requires 0 <= x < BitOps.Pow2(d) && 0 <= y < BitOps.Pow2(d) && x != y
    ensures Support(d)[x] != Support(d)[y]
  {
    if Support(d)[x] == Support(d)[y] {
      BitVectorInjective(Bits(x, d), Bits(y, d));
      BitsInjective(x, y, d);
    }
  }

  /** Every vector of d 0s and 1s is in the support, and every member of the support is one. */
  lemma {:induction false} SupportIsBinaryVectors(d: nat, v: Types.Value)
    ensures v in Support(d) <==> exists bits :: |bits| == d && IsBinary(bits) && v == BitVector(bits)
  {
    if v in Support(d) {
      var x :| 0 <= x < |Support(d)| && Support(d)[x] == v;
      BitsEncode(x, d);
    }
    if exists bits :: |bits| == d && IsBinary(bits) && v == BitVector(bits) {
      var bits :| |bits| == d && IsBinary(bits) && v == BitVector(bits);
      BitsDecode(bits);
      assert Support(d)[BitsValue(bits)] == v;
    }
  }

  /** The shape test of the score: a column vector with as many rows as there are probabilities. */
  predicate Shaped(ps: seq<real>, x: Types.Value) {
    Types.IsVector(x) && x.dims[0] == |ps|
  }

  /** A tensor holds one number per element of its dimensions. */
  predicate Consistent(x: Types.Value) {
    Types.IsVector(x) ==> |x.data| == x.dims[0]
  }

  /** One coordinate's term: `log(x * p + (x - 1) * (p - 1))`. */
  function Term(xi: Num, p: real, log: real -> real): Num {
    JsLog(Add(Mul(xi, Finite(p)), Mul(Add(xi, Finite(-1.0)), Finite(p - 1.0))), log)
  }

  /** The sum of the first n terms. */
  function Terms(data: seq<Num>, ps: seq<real>, n: nat, log: real -> real): Num
    requires n <= |data| && n <= |ps|
  {
    if n == 0 then Finite(0.0) else Add(Terms(data, ps, n - 1, log), Term(data[n - 1], ps[n - 1], log))
  }

  /** `score(x)`: -Infinity for a value of the wrong shape, otherwise the sum of the coordinates' terms. */
  function Score(ps: seq<real>, x: Types.Value, log: real -> real): (s: Num)
    requires Consistent(x)
    ensures !Shaped(ps, x) ==> s == NegInf
    ensures Shaped(ps, x) ==> s == Terms(x.data, ps, |ps|, log)
  {
    if !Shaped(ps, x) then NegInf else Terms(x.data, ps, |ps|, log)
  }

  /** The older copy of the score asserts the shape instead: an `AssertionError` where the other gives -Infinity. */
  function ScoreAsserting(ps: seq<real>, x: Types.Value, log: real -> real): (r: Result<Num>)
    requires Consistent(x)
    ensures r.Err? <==> !Shaped(ps, x)
    ensures r.Ok? ==> r.value == Score(ps, x, log)
  {
    if !Shaped(ps, x) then Err("AssertionError") else Ok(Terms(x.data, ps, |ps|, log))
  }

  /** A coordinate of 1 contributes log p and one of 0 contributes log(1 - p). */
  lemma {:induction false} TermOfBit(b: int, p: real, log: real -> real)
    requires b == 0 || b == 1
    ensures Term(Finite(b as real), p, log) == JsLog(Finite(if b == 1 then p else 1.0 - p), log)
  {
    if b == 1 {
      assert Add(Mul(Finite(1.0), Finite(p)), Mul(Add(Finite(1.0), Finite(-1.0)), Finite(p - 1.0))) == Finite(p);
    } else {
      assert Add(Mul(Finite(0.0), Finite(p)), Mul(Add(Finite(0.0), Finite(-1.0)), Finite(p - 1.0))) == Finite(1.0 - p);
    }
  }

  /** The log-probability of one coordinate: log p for a 1, log(1 - p) for a 0. */
  function BitLogProb(b: int, p: real, log: real -> real): real {
    log(if b == 1 then p else 1.0 - p)
  }

  /** The log-probability of independent coordinates: the sum of log p or log(1 - p). */
  function BitsLogProb(bits: seq<int>, ps: seq<real>, n: nat, log: real -> real): real
    requires n <= |bits| && n <= |ps|
  {
    if n == 0 then 0.0
    else BitsLogProb(bits, ps, n - 1, log) + BitLogProb(bits[n - 1], ps[n - 1], log)
  }

  /** Strictly between 0 and 1. */
  predicate Open(ps: seq<real>) {
    forall i :: 0 <= i < |ps| ==> 0.0 < ps[i] < 1.0
  }

  lemma {:induction false} TermsOfBits(bits: seq<int>, ps: seq<real>, n: nat, log: real -> real)
    requires |bits| == |ps| && n <= |ps| && IsBinary(bits) && Open(ps)
    ensures Terms(BitVector(bits).data, ps, n, log) == Finite(BitsLogProb(bits, ps, n, log))
  {
    TermsOfData(BitVector(bits).data, bits, ps, n, log);
  }

  /** `TermsOfBits` for any data holding the bits as numbers. */
  lemma {:induction false} TermsOfData(data: seq<Num>, bits: seq<int>, ps: seq<real>, n: nat, log: real -> real)
    requires |data| == |bits| == |ps| && n <= |ps| && IsBinary(bits) && Open(ps)
    requires forall i :: 0 <= i < |bits| ==> data[i] == Finite(bits[i] as real)
    ensures Terms(data, ps, n, log) == Finite(BitsLogProb(bits, ps, n, log))
  {
    if n > 0 {
      TermsOfData(data, bits, ps, n - 1, log);
      var b, p := bits[n - 1], ps[n - 1];
      assert data[n - 1] == Finite(b as real);
      assert (b == 0 || b == 1) && 0.0 < p < 1.0;
      TermsStep(data, ps, n, log, BitsLogProb(bits, ps, n - 1, log), b);
    }
  }

  /** One more finite term adds its value to a finite sum. */
  lemma {:induction false} TermsStep(data: seq<Num>, ps: seq<real>, n: nat, log: real -> real, rest: real, b: int)
    requires 0 < n <= |data| && n <= |ps| && (b == 0 || b == 1) && 0.0 < ps[n - 1] < 1.0
    requires Terms(data, ps, n - 1, log) == Finite(rest) && data[n - 1] == Finite(b as real)
    ensures Terms(data, ps, n, log) == Finite(rest + BitLogProb(b, ps[n - 1], log))
  {
    FiniteTermOfBit(b, ps[n - 1], log);
  }

  /** Inside (0, 1), the term of a bit is the finite log of its probability. */
  lemma {:induction false} FiniteTermOfBit(b: int, p: real, log: real -> real)
    requires (b == 0 || b == 1) && 0.0 < p < 1.0
    ensures Term(Finite(b as real), p, log) == Finite(BitLogProb(b, p, log))
  {
    TermOfBit(b, p, log);
    var q := if b == 1 then p else 1.0 - p;
    assert q > 0.0;
  }

  /** Every member of the support scores the log of the product of its coordinates' probabilities. */
  lemma {:induction false} ScoreOfBinaryVector(bits: seq<int>, ps: seq<real>, log: real -> real)
    requires |bits| == |ps| && IsBinary(bits) && Open(ps)
    ensures Score(ps, BitVector(bits), log) == Finite(BitsLogProb(bits, ps, |ps|, log))
  {
    TermsOfBits(bits, ps, |ps|, log);
  }

  /** A coordinate that is certain to be 0 (p == 0) makes a 1 there impossible: the term is -Infinity. */
  lemma {:induction false} ImpossibleCoordinate(log: real -> real)
    ensures Term(Finite(1.0), 0.0, log) == NegInf
  {
  }

  /** The coordinates `sample` draws: the n-th draw decides coordinate d - 1 - n, which is 1 when the draw is below its probability. */
  function SampleBits(ps: seq<real>, draws: seq<real>): (bits: seq<int>)
    requires |draws| == |ps|
    ensures |bits| == |ps| && IsBinary(bits)
  {
    seq(|ps|, (i: int) requires 0 <= i < |ps| => if draws[|ps| - 1 - i] < ps[i] then 1 else 0)
  }

  /** `sample()`: fills the vector from the last coordinate down, one uniform draw each. */
  method Sample(ps: seq<real>, draws: seq<real>) returns (x: Types.Value)
    requires |draws| == |ps|
    ensures x == BitVector(SampleBits(ps, draws))
  {
    var data := new real[|ps|];
    var n := |ps|;
    var k := 0;
    while n > 0
      invariant 0 <= n <= |ps| && k == |ps| - n
      invariant forall i :: n <= i < |ps| ==> data[i] == SampleBits(ps, draws)[i] as real
      decreases n
    {
      n := n - 1;
      data[n] := if draws[k] < ps[n] then 1.0 else 0.0;
      k := k + 1;
    }
    var bits := SampleBits(ps, draws);
    var nums := seq(|ps|, (i: int) requires 0 <= i < |ps| reads data => Finite(data[i]));
    assert nums == BitVector(bits).data;
    x := Types.TensorValue([|ps|, 1], nums);
  }

  /** Every sample is in the support. */
  lemma {:induction false} SampleInSupport(ps: seq<real>, draws: seq<real>)
    requires |draws| == |ps|
    ensures BitVector(SampleBits(ps, draws)) in Support(|ps|)
  {
    SupportIsBinaryVectors(|ps|, BitVector(SampleBits(ps, draws)));
  }
}
