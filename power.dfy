/** power(base, exp) from CalculatePower.h: repeated multiplication down
    to the terminating case exp == 1. */
module Power {

  /** power(base, exp). An exponent below 1 never reaches the terminating
      condition, so callers must pass exp >= 1. For every exponent it
      accepts, power is base^exp as the reference computes it. */
  function Power(base: int, exp: int): (r: int)
    requires exp >= 1
    ensures r == PowBySquaring(base, exp)
    decreases exp
  {
    PowBySquaringStep(base, exp);
    if exp == 1 then base else base * Power(base, exp - 1)
  }

  /** An independent definition of base^exp by repeated squaring. */
  function PowBySquaring(base: int, exp: nat): int
    decreases exp
  {
    if exp == 0 then 1
    else if exp % 2 == 0 then PowBySquaring(base * base, exp / 2)
    else base * PowBySquaring(base, exp - 1)
  }

  /** The reference also peels off one factor at a time. */
  lemma {:induction false} PowBySquaringStep(base: int, exp: nat)
    requires exp >= 1
    ensures PowBySquaring(base, exp) == base * PowBySquaring(base, exp - 1)
    decreases exp
  {
    if exp % 2 == 0 {
      var k := exp / 2;
      var sq := base * base;
      PowBySquaringStep(sq, k);
      var p := PowBySquaring(sq, k - 1);
      assert PowBySquaring(base, exp) == sq * p;
      assert PowBySquaring(base, exp - 2) == p by {
        if k > 1 {
          assert (exp - 2) % 2 == 0 && (exp - 2) / 2 == k - 1;
        }
      }
      assert PowBySquaring(base, exp - 1) == base * p;
      assert sq * p == base * (base * p);
    }
  }

  /** Adding exponents multiplies powers. */
  lemma {:induction false} PowerAdd(base: int, m: int, n: int)
    requires m >= 1 && n >= 1
    ensures Power(base, m + n) == Power(base, m) * Power(base, n)
    decreases n
  {
    if n == 1 {
      assert Power(base, m + 1) == base * Power(base, m);
    } else {
      PowerAdd(base, m, n - 1);
      var x, y := Power(base, m), Power(base, n - 1);
      assert Power(base, m + n) == base * (x * y);
      assert Power(base, n) == base * y;
      MulSwap(base, x, y);
    }
  }

  lemma MulSwap(a: int, b: int, c: int)
    ensures a * (b * c) == b * (a * c)
  {
  }

  /** Squaring the base doubles the exponent. */
  lemma {:induction false} PowerOfSquare(base: int, k: int)
    requires k >= 1
    ensures Power(base * base, k) == Power(base, 2 * k)
    decreases k
  {
    if k == 1 {
      assert Power(base, 2) == base * base;
    } else {
      PowerOfSquare(base, k - 1);
      PowerAdd(base, 2 * (k - 1), 2);
      assert Power(base, 2) == base * base;
      assert Power(base * base, k) == (base * base) * Power(base * base, k - 1);
    }
  }

  /** A positive base gives a positive power; a negative base gives a
      negative power exactly for odd exponents. */
  lemma {:induction false} PowerSign(base: int, exp: int)
    requires exp >= 1
    ensures base > 0 ==> Power(base, exp) > 0
    ensures base < 0 ==> (Power(base, exp) < 0 <==> exp % 2 == 1)
    ensures base < 0 ==> Power(base, exp) != 0
    decreases exp
  {
    if exp > 1 {
      PowerSign(base, exp - 1);
      if base > 0 {
        assert base * Power(base, exp - 1) > 0;
      } else if base < 0 {
        if Power(base, exp - 1) < 0 {
          assert base * Power(base, exp - 1) > 0;
        } else {
          assert base * Power(base, exp - 1) < 0;
        }
      }
    }
  }

  /** The three calls in CalculatePower. */
  lemma PowerDemos()
    ensures Power(2, 8) == 256
    ensures Power(5, 4) == 625
    ensures Power(11, 2) == 121
  {
  }
}
