/** Euclid's algorithm as written in GreatestCommonDivisor.h, with C++'s
    truncating `%` on int. */
module Gcd {
  import opened CInt

  /** gcd(a, b): `b` when it divides `a`, otherwise gcd(b, a % b). The
      divisor must be non-zero since `a % b` is evaluated first; the
      magnitude of the divisor falls at every step. */
  function Gcd(a: int, b: int): (g: int)
    requires b != 0
    ensures g != 0
    decreases Abs(b)
  {
    if Rem(a, b) == 0 then b else Gcd(b, Rem(a, b))
  }

  ghost predicate Divides(d: int, x: int) {
    exists k :: x == d * k
  }

  lemma DividesCombination(c: int, a: int, b: int, q: int, r: int)
    requires Divides(c, b) && a == b * q + r
    ensures Divides(c, a) <==> Divides(c, r)
  {
    var j :| b == c * j;
    assert b * q == c * (j * q);
    if Divides(c, a) {
      var i :| a == c * i;
      assert r == c * (i - j * q);
    }
    if Divides(c, r) {
      var m :| r == c * m;
      assert a == c * (j * q + m);
    }
  }

  lemma DividesSelf(b: int)
    ensures Divides(b, b)
  {
    assert b == b * 1;
  }

  /** The result divides both arguments. */
  lemma {:induction false} GcdDividesBoth(a: int, b: int)
    requires b != 0
    ensures Divides(Gcd(a, b), a) && Divides(Gcd(a, b), b)
    decreases Abs(b)
  {
    var r := Rem(a, b);
    DividesSelf(b);
    if r == 0 {
      DividesCombination(b, a, b, Div(a, b), r);
      assert r == b * 0;
    } else {
      GcdDividesBoth(b, r);
      DividesCombination(Gcd(b, r), a, b, Div(a, b), r);
    }
  }

  /** Every common divisor of the arguments divides the result. */
  lemma {:induction false} CommonDivisorDividesGcd(c: int, a: int, b: int)
    requires b != 0 && Divides(c, a) && Divides(c, b)
    ensures Divides(c, Gcd(a, b))
    decreases Abs(b)
  {
    var r := Rem(a, b);
    if r != 0 {
      DividesCombination(c, a, b, Div(a, b), r);
      CommonDivisorDividesGcd(c, b, r);
    }
  }

  lemma DivisorBound(c: int, g: int)
    requires g != 0 && Divides(c, g)
    ensures Abs(c) <= Abs(g)
  {
    var k :| g == c * k;
    AbsProduct(c, k);
    assert Abs(k) >= 1;
    AtLeastOnce(Abs(c), Abs(k));
  }

  lemma AbsProduct(c: int, k: int)
    ensures Abs(c * k) == Abs(c) * Abs(k)
  {
    if c < 0 {
      assert c * k == -((-c) * k);
      NonNegativeProduct(-c, k);
    } else {
      NonNegativeProduct(c, k);
    }
  }

  lemma NonNegativeProduct(c: nat, k: int)
    ensures Abs(c * k) == c * Abs(k)
  {
    if k < 0 {
      assert c * k == -(c * -k);
    }
  }

  lemma AtLeastOnce(n: nat, k: nat)
    requires k >= 1
    ensures n * k >= n
  {
    assert n * k == n + n * (k - 1);
  }

  /** The result is a greatest common divisor: it divides both arguments
      and no common divisor is larger in magnitude. */
  lemma GcdIsGreatest(c: int, a: int, b: int)
    requires b != 0 && Divides(c, a) && Divides(c, b)
    ensures Abs(c) <= Abs(Gcd(a, b))
  {
    CommonDivisorDividesGcd(c, a, b);
    DivisorBound(c, Gcd(a, b));
  }

  /** For a non-negative dividend and a positive divisor the remainders stay
      non-negative, so the result is the positive greatest common divisor. */
  lemma {:induction false} GcdPositive(a: int, b: int)
    requires a >= 0 && b > 0
    ensures Gcd(a, b) > 0
    decreases b
  {
    var r := Rem(a, b);
    if r != 0 {
      GcdPositive(b, r);
    }
  }

  /** The three calls in CalculateGreatestCommonDivisor. */
  lemma GcdDemos()
    ensures Gcd(48, 18) == 6
    ensures Gcd(45, 60) == 15
    ensures Gcd(60, 45) == 15
  {
    NonNegativeAgrees(48, 18);
    NonNegativeAgrees(18, 12);
    NonNegativeAgrees(12, 6);
    NonNegativeAgrees(45, 60);
    NonNegativeAgrees(60, 45);
    NonNegativeAgrees(45, 15);
  }
}
