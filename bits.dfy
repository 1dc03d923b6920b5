/**
 * JavaScript's bitwise operators on non-negative integers that fit in 31 bits,
 * written out bit by bit, with the facts the heap layouts rely on. Shifts are
 * defined by repeated halving and doubling, so every fact below is proved with
 * linear arithmetic only.
 */
module Bits {
  function Pow2(k: nat): (r: nat)
    ensures r >= 1
  {
    if k == 0 then 1 else 2 * Pow2(k - 1)
  }

  /** `a & b` */
  function And(a: nat, b: nat): nat {
    if a == 0 || b == 0 then 0
    else 2 * And(a / 2, b / 2) + (if a % 2 == 1 && b % 2 == 1 then 1 else 0)
  }

  /** `a | b` */
  function Or(a: nat, b: nat): nat {
    if a == 0 then b
    else if b == 0 then a
    else 2 * Or(a / 2, b / 2) + (if a % 2 == 1 || b % 2 == 1 then 1 else 0)
  }

  /** `a & ~b` */
  function AndNot(a: nat, b: nat): nat {
    if a == 0 then 0
    else if b == 0 then a
    else 2 * AndNot(a / 2, b / 2) + (if a % 2 == 1 && b % 2 == 0 then 1 else 0)
  }

  /** `a >> k` (and `a >>> k`): a divided by 2^k, rounded down. */
  function Shr(a: nat, k: nat): nat {
    if k == 0 then a else Shr(a / 2, k - 1)
  }

  /** `a << k`: a times 2^k. */
  function Shl(a: nat, k: nat): nat {
    if k == 0 then a else 2 * Shl(a, k - 1)
  }

  /** The low k bits of a: a modulo 2^k. */
  function Low(a: nat, k: nat): nat {
    if k == 0 then 0 else 2 * Low(a / 2, k - 1) + a % 2
  }

  /** a = (a >> k << k) + (low k bits of a), and the low bits are below 2^k. */
  lemma {:induction false} Split(a: nat, k: nat)
    ensures a == Shl(Shr(a, k), k) + Low(a, k)
    ensures Low(a, k) < Pow2(k)
  {
    if k > 0 {
      Split(a / 2, k - 1);
    }
  }

  /** The decomposition of `Split` is unique. */
  lemma {:induction false} Join(q: nat, r: nat, k: nat)
    requires r < Pow2(k)
    ensures Shr(Shl(q, k) + r, k) == q
    ensures Low(Shl(q, k) + r, k) == r
  {
    if k > 0 {
      var x := Shl(q, k) + r;
      assert x / 2 == Shl(q, k - 1) + r / 2 && x % 2 == r % 2;
      Join(q, r / 2, k - 1);
    }
  }

  lemma {:induction false} ShlOne(k: nat)
    ensures Shl(1, k) == Pow2(k)
  {
    if k > 0 {
      ShlOne(k - 1);
    }
  }

  lemma {:induction false} ShlAdd(a: nat, b: nat, k: nat)
    ensures Shl(a + b, k) == Shl(a, k) + Shl(b, k)
  {
    if k > 0 {
      ShlAdd(a, b, k - 1);
    }
  }

  lemma {:induction false} ShlGrows(a: nat, k: nat)
    ensures Shl(a, k) >= a
  {
    if k > 0 {
      ShlGrows(a, k - 1);
    }
  }

  /** Shifting left by k+1 is shifting by k, then by one. */
  lemma {:induction false} ShlSucc(a: nat, k: nat)
    ensures Shl(a, k + 1) == Shl(2 * a, k)
  {
    if k > 0 {
      ShlSucc(a, k - 1);
    }
  }

  lemma {:induction false} ShlMono(a: nat, b: nat, k: nat)
    requires a <= b
    ensures Shl(a, k) <= Shl(b, k)
  {
    ShlAdd(a, b - a, k);
  }

  lemma {:induction false} AndLowMask(x: nat, k: nat)
    ensures And(x, Pow2(k) - 1) == Low(x, k)
  {
    if k > 0 && x > 0 {
      var b := Pow2(k) - 1;
      assert b % 2 == 1 && b / 2 == Pow2(k - 1) - 1;
      AndLowMask(x / 2, k - 1);
    } else if k > 0 {
      LowZero(k);
    }
  }

  lemma {:induction false} LowZero(k: nat)
    ensures Low(0, k) == 0
  {
    if k > 0 {
      LowZero(k - 1);
    }
  }

  lemma {:induction false} AndNotLowMask(x: nat, k: nat)
    ensures AndNot(x, Pow2(k) - 1) == Shl(Shr(x, k), k)
  {
    if k > 0 && x > 0 {
      var b := Pow2(k) - 1;
      assert b % 2 == 1 && b / 2 == Pow2(k - 1) - 1;
      AndNotLowMask(x / 2, k - 1);
    } else if k > 0 {
      ShrZero(k);
    }
  }

  lemma {:induction false} ShrZero(k: nat)
    ensures Shr(0, k) == 0 && Shl(0, k) == 0
  {
    if k > 0 {
      ShrZero(k - 1);
    }
  }

  /** `x & 2^k` is non-zero exactly when bit k of x is set. */
  lemma {:induction false} AndBit(x: nat, k: nat)
    ensures And(x, Pow2(k)) != 0 <==> Shr(x, k) % 2 == 1
  {
    if k > 0 && x > 0 {
      AndBit(x / 2, k - 1);
    } else if k > 0 {
      ShrZero(k);
    }
  }

  /** `x & (2^k - 2)` is zero exactly when the low k bits of x are 0 or 1. */
  lemma {:induction false} AndMaskMinusOne(x: nat, k: nat)
    requires k >= 1
    ensures And(x, Pow2(k) - 2) == 0 <==> Low(x, k) < 2
  {
    var b := Pow2(k) - 2;
    assert b % 2 == 0 && b / 2 == Pow2(k - 1) - 1;
    if x == 0 {
      LowZero(k);
    } else if k == 1 {
      assert b == 0;
      LowZero(0);
    } else {
      AndLowMask(x / 2, k - 1);
      assert And(x, b) == 2 * Low(x / 2, k - 1);
    }
  }

  lemma {:induction false} OrPlusAnd(a: nat, b: nat)
    ensures Or(a, b) + And(a, b) == a + b
  {
    if a > 0 && b > 0 {
      OrPlusAnd(a / 2, b / 2);
    }
  }

  /** No common bits between a multiple of 2^k and a number below 2^k. */
  lemma {:induction false} AndDisjoint(q: nat, y: nat, k: nat)
    requires y < Pow2(k)
    ensures And(Shl(q, k), y) == 0
  {
    if k > 0 && Shl(q, k) > 0 && y > 0 {
      assert Shl(q, k) / 2 == Shl(q, k - 1) && Shl(q, k) % 2 == 0;
      AndDisjoint(q, y / 2, k - 1);
    }
  }

  lemma {:induction false} OrDisjoint(q: nat, y: nat, k: nat)
    requires y < Pow2(k)
    ensures Or(Shl(q, k), y) == Shl(q, k) + y
  {
    AndDisjoint(q, y, k);
    OrPlusAnd(Shl(q, k), y);
  }

  /** Shifting right by k+1 is shifting by k, then halving. */
  lemma {:induction false} ShrSucc(a: nat, k: nat)
    ensures Shr(a, k + 1) == Shr(a, k) / 2
  {
    if k > 0 {
      ShrSucc(a / 2, k - 1);
    }
  }

  lemma {:induction false} ShrOne(a: nat)
    ensures Shr(a, 1) == a / 2
  {
  }

  /** Bit k of (2p + b) * 2^k + r, for r below 2^k, is b. */
  lemma {:induction false} BitOfJoin(p: nat, b: nat, r: nat, k: nat)
    requires b <= 1 && r < Pow2(k)
    ensures And(Shl(2 * p + b, k) + r, Pow2(k)) != 0 <==> b == 1
  {
    Join(2 * p + b, r, k);
    AndBit(Shl(2 * p + b, k) + r, k);
  }

  /** Powers of two strictly increase. */
  lemma {:induction false} Pow2Increasing(a: nat, b: nat)
    requires a < b
    ensures Pow2(a) < Pow2(b)
    decreases b
  {
    if a < b - 1 {
      Pow2Increasing(a, b - 1);
    }
  }
}
