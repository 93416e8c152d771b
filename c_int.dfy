/** C++ integer semantics that the demos rely on: the range of a 32-bit `int`
    and the `/` and `%` operators, which truncate toward zero (Dafny's own
    `/` and `%` are Euclidean). */
module CInt {

  const Int32Min: int := -0x8000_0000
  const Int32Max: int := 0x7fff_ffff

  predicate InInt32(x: int) {
    Int32Min <= x <= Int32Max
  }

  function Abs(x: int): (r: nat)
    ensures r == x || r == -x
  {
    if x < 0 then -x else x
  }

  lemma NatDivMod(n: int, d: int)
    requires n >= 0 && d > 0
    ensures n / d >= 0 && 0 <= n % d < d && n == d * (n / d) + n % d
  {
  }

  /** C++ `a / b`: the quotient truncated toward zero. */
  function Div(a: int, b: int): (q: int)
    requires b != 0
    ensures Abs(q) == Abs(a) / Abs(b)
    ensures (a >= 0) == (b > 0) ==> q >= 0
    ensures (a >= 0) != (b > 0) ==> q <= 0
  {
    var n, d := Abs(a), Abs(b);
    NatDivMod(n, d);
    var m: int := n / d;
    if (a >= 0) == (b > 0) then m else -m
  }

  /** C++ `a % b`: the remainder that goes with `Div`; it takes the sign of `a`. */
  function Rem(a: int, b: int): (r: int)
    requires b != 0
    ensures Abs(r) < Abs(b)
    ensures a >= 0 ==> r >= 0
    ensures a <= 0 ==> r <= 0
    ensures a == b * Div(a, b) + r
  {
    var n, d := Abs(a), Abs(b);
    NatDivMod(n, d);
    var m: int := n % d;
    DivRemIdentity(a, b);
    if a >= 0 then m else -m
  }

  lemma DivRemIdentity(a: int, b: int)
    requires b != 0
    ensures a == b * Div(a, b) + (if a >= 0 then Abs(a) % Abs(b) else -(Abs(a) % Abs(b)))
  {
    var n, d := Abs(a), Abs(b);
    NatDivMod(n, d);
    var q: int, m: int := n / d, n % d;
    if a >= 0 && b > 0 {
      assert Div(a, b) == q;
    } else if a >= 0 {
      assert Div(a, b) == -q;
      assert b * -q == d * q;
    } else if b > 0 {
      assert Div(a, b) == -q;
      assert b * -q == -(d * q);
    } else {
      assert Div(a, b) == q;
      assert b * q == -(d * q);
    }
  }

  /** For non-negative operands the C++ operators agree with Dafny's. */
  lemma NonNegativeAgrees(a: int, b: int)
    requires a >= 0 && b > 0
    ensures Div(a, b) == a / b && Rem(a, b) == a % b
  {
  }
}
