/** ShowDecimalDigits, SwapNumbers and the integer literals of
    UserDefinedLiterals in Numbers.h and CppExamples/Numbers.h. The digit
    code runs on any int with C++'s truncating `/` and `%`; its promises are
    stated for the four-digit numbers it is written for. `int` in the swaps
    is a 32-bit two's-complement value, so the XOR swap works on bv32. */
module Numbers {
  import opened CInt

  datatype Digits = Digits(d1: int, d2: int, d3: int, d4: int)

  /** The thousands, hundreds, tens and units digit of a natural number. */
  function DecimalDigits(n: nat): (r: Digits)
    ensures 0 <= r.d1 < 10 && 0 <= r.d2 < 10 && 0 <= r.d3 < 10 && 0 <= r.d4 < 10
  {
    Digits(n / 1000 % 10, n / 100 % 10, n / 10 % 10, n % 10)
  }

  /** The value of four decimal digits. */
  function Value(d: Digits): int {
    1000 * d.d1 + 100 * d.d2 + 10 * d.d3 + d.d4
  }

  predicate AreDigits(d: Digits) {
    0 <= d.d1 < 10 && 0 <= d.d2 < 10 && 0 <= d.d3 < 10 && 0 <= d.d4 < 10
  }

  /** A four-digit number is recomposed from its digits, and those are the
      only digits 0..9 that recompose to it. */
  lemma DigitsRecompose(n: nat, e: Digits)
    requires n <= 9999
    ensures Value(DecimalDigits(n)) == n
    ensures AreDigits(e) && Value(e) == n ==> e == DecimalDigits(n)
  {
    var a, r0 := n / 10, n % 10;
    var b, r1 := a / 10, a % 10;
    var c, r2 := b / 10, b % 10;
    assert n == 100 * b + (10 * r1 + r0);
    DivMod(n, b, 10 * r1 + r0, 100);
    assert n == 1000 * c + (100 * r2 + 10 * r1 + r0);
    DivMod(n, c, 100 * r2 + 10 * r1 + r0, 1000);
    DivMod(c, 0, c, 10);
    if AreDigits(e) && Value(e) == n {
      SameValueSameDigits(e, DecimalDigits(n));
    }
  }

  /** n == base * q + r with 0 <= r < base determines quotient and
      remainder. */
  lemma DivMod(n: int, q: int, r: int, base: int)
    requires base == 10 || base == 100 || base == 1000
    requires n == base * q + r && 0 <= r < base
    ensures n / base == q && n % base == r
  {
  }

  /** Digits are positional: equal values mean equal digits. */
  lemma SameValueSameDigits(e: Digits, d: Digits)
    requires AreDigits(e) && AreDigits(d) && Value(e) == Value(d)
    ensures e == d
  {
    var v := Value(e);
    DivMod(v, 100 * e.d1 + 10 * e.d2 + e.d3, e.d4, 10);
    DivMod(v, 100 * d.d1 + 10 * d.d2 + d.d3, d.d4, 10);
    var x := v / 10;
    DivMod(x, 10 * e.d1 + e.d2, e.d3, 10);
    DivMod(x, 10 * d.d1 + d.d2, d.d3, 10);
    var y := x / 10;
    DivMod(y, e.d1, e.d2, 10);
    DivMod(y, d.d1, d.d2, 10);
  }

  lemma HundredsPlace(n: nat)
    ensures n % 1000 / 100 == n / 100 % 10
  {
    var q, r := n / 1000, n % 1000;
    assert n == 100 * (10 * q + r / 100) + r % 100;
  }

  lemma ThousandsPlace(n: nat)
    requires n <= 9999
    ensures n / 1000 % 10 == n / 1000
  {
    assert n / 1000 < 10;
  }

  lemma TensPlace(n: nat)
    ensures n % 100 / 10 == n / 10 % 10
  {
    var q, r := n / 100, n % 100;
    assert n == 10 * (10 * q + r / 10) + r % 10;
  }

  /** On non-negative numbers the C++ operators of Method #1 pick the
      digits. */
  lemma Method1Digits(n: int)
    requires n >= 0
    ensures Div(n, 1000) == n / 1000
    ensures Div(Rem(n, 1000), 100) == n / 100 % 10
    ensures Div(Rem(n, 100), 10) == n / 10 % 10
    ensures Rem(n, 10) == n % 10
  {
    NonNegativeAgrees(n, 1000);
    NonNegativeAgrees(n, 100);
    NonNegativeAgrees(n, 10);
    NonNegativeAgrees(n % 1000, 100);
    NonNegativeAgrees(n % 100, 10);
    assert Div(Rem(n, 1000), 100) == n % 1000 / 100;
    assert Div(Rem(n, 100), 10) == n % 100 / 10;
    HundredsPlace(n);
    TensPlace(n);
  }

  /** Method #1: d1 = n / 1000, d2 = n % 1000 / 100, d3 = n % 100 / 10,
      d4 = n % 10. Above 9999 the thousands "digit" keeps the higher
      places. */
  method Method1(n: int) returns (d: Digits)
    ensures n >= 0 ==> d == Digits(n / 1000, n / 100 % 10, n / 10 % 10, n % 10)
    ensures 0 <= n <= 9999 ==> d == DecimalDigits(n)
  {
    var d1 := Div(n, 1000);
    var d2 := Div(Rem(n, 1000), 100);
    var d3 := Div(Rem(n, 100), 10);
    var d4 := Rem(n, 10);
    d := Digits(d1, d2, d3, d4);
    if n >= 0 {
      Method1Digits(n);
      if n <= 9999 {
        ThousandsPlace(n);
      }
    }
  }

  /** Each `n /= 10` of Method #2 removes one more place. */
  lemma Method2Digits(n: int)
    requires n >= 0
    ensures Rem(Div(n, 10), 10) == n / 10 % 10
    ensures Rem(Div(Div(n, 10), 10), 10) == n / 100 % 10
    ensures Rem(Div(Div(Div(n, 10), 10), 10), 10) == n / 1000 % 10
    ensures Div(Div(Div(Div(n, 10), 10), 10), 10) == n / 10000
  {
    NonNegativeAgrees(n, 10);
    NonNegativeAgrees(n / 10, 10);
    NonNegativeAgrees(n / 100, 10);
    NonNegativeAgrees(n / 1000, 10);
    assert n / 10 / 10 == n / 100;
    assert n / 100 / 10 == n / 1000;
    assert n / 1000 / 10 == n / 10000;
  }

  /** Method #2: take n % 10 and then n /= 10, four times. The digits are
      those of n's last four places and n is left divided by 10000, so 0
      for a four-digit number. */
  method Method2(n: int) returns (d: Digits, rest: int)
    ensures n >= 0 ==> d == DecimalDigits(n) && rest == n / 10000
    ensures 0 <= n <= 9999 ==> rest == 0
  {
    var m := n;
    var d4 := Rem(m, 10);
    m := Div(m, 10);
    var d3 := Rem(m, 10);
    m := Div(m, 10);
    var d2 := Rem(m, 10);
    m := Div(m, 10);
    var d1 := Rem(m, 10);
    m := Div(m, 10);
    d, rest := Digits(d1, d2, d3, d4), m;
    if n >= 0 {
      NonNegativeAgrees(n, 10);
      Method2Digits(n);
    }
  }

  /** ShowDecimalDigits: 8125 prints 8125 by both methods, and n ends at 0. */
  method ShowDecimalDigits() returns (first: Digits, second: Digits, rest: int)
    ensures first == second == Digits(8, 1, 2, 5) && rest == 0
  {
    first := Method1(8125);
    second, rest := Method2(8125);
  }

  /** Method #1 of SwapNumbers: through a temporary. */
  method SwapWithTemp(n1: bv32, n2: bv32) returns (a: bv32, b: bv32)
    ensures a == n2 && b == n1
  {
    a, b := n1, n2;
    var tmp := a;
    a := b;
    b := tmp;
  }

  /** C++'s `^` on a 32-bit int. */
  function Xor(x: bv32, y: bv32): bv32 {
    x ^ y
  }

  /** XOR-ing with the same value twice gives back the original. */
  lemma XorSwapSteps(x: bv32, y: bv32)
    ensures Xor(y, Xor(x, y)) == x
    ensures Xor(Xor(x, y), x) == y
  {
  }

  /** Method #2: n1 ^= n2; n2 ^= n1; n1 ^= n2. */
  method SwapWithXor(n1: bv32, n2: bv32) returns (a: bv32, b: bv32)
    ensures a == n2 && b == n1
  {
    XorSwapSteps(n1, n2);
    a, b := n1, n2;
    a := Xor(a, b);
    b := Xor(b, a);
    a := Xor(a, b);
  }

  /** The two swaps in a row bring (3, 8) back to (3, 8). */
  method SwapNumbers() returns (between: (bv32, bv32), after: (bv32, bv32))
    ensures between == (8, 3) && after == (3, 8)
  {
    var n1, n2 := SwapWithTemp(3, 8);
    between := (n1, n2);
    n1, n2 := SwapWithXor(n1, n2);
    after := (n1, n2);
  }

  /** The characters of an integer literal after its prefix: digits of the
      base, possibly split by the digit separator '\''. */
  predicate IsLiteral(s: string, base: nat) {
    forall k :: 0 <= k < |s| ==> s[k] == '\'' || ('0' <= s[k] && s[k] as int < '0' as int + base)
  }

  /** The number of digits of a literal, separators not counted. */
  function DigitCount(s: string): nat {
    if s == [] then 0
    else if s[|s| - 1] == '\'' then DigitCount(s[..|s| - 1])
    else DigitCount(s[..|s| - 1]) + 1
  }

  function Pow(base: nat, n: nat): nat {
    if n == 0 then 1 else base * Pow(base, n - 1)
  }

  /** The value of a literal; separators are skipped. A literal of n digits
      in a base is below base^n. */
  function LiteralValue(s: string, base: nat): (v: nat)
    requires 2 <= base <= 10 && IsLiteral(s, base)
    ensures v < Pow(base, DigitCount(s))
  {
    if s == [] then 0
    else if s[|s| - 1] == '\'' then LiteralValue(s[..|s| - 1], base)
    else
      var init := LiteralValue(s[..|s| - 1], base);
      var d := s[|s| - 1] as int - '0' as int;
      AppendDigit(base, init, d, Pow(base, DigitCount(s[..|s| - 1])));
      base * init + d
  }

  /** One more digit multiplies the bound by the base. */
  lemma AppendDigit(base: nat, init: nat, d: int, p: nat)
    requires init < p && 0 <= d < base
    ensures base * init + d < base * p
  {
    assert base * init <= base * (p - 1);
  }

  function WithoutSeparators(s: string): (r: string)
    ensures '\'' !in r
  {
    if s == [] then []
    else if s[|s| - 1] == '\'' then WithoutSeparators(s[..|s| - 1])
    else WithoutSeparators(s[..|s| - 1]) + [s[|s| - 1]]
  }

  /** Digit separators do not change a literal's value. */
  lemma {:induction false} SeparatorsIgnored(s: string, base: nat)
    requires 2 <= base <= 10 && IsLiteral(s, base)
    ensures IsLiteral(WithoutSeparators(s), base)
    ensures LiteralValue(s, base) == LiteralValue(WithoutSeparators(s), base)
  {
    if s != [] {
      var init := s[..|s| - 1];
      SeparatorsIgnored(init, base);
      var c := s[|s| - 1];
      if c != '\'' {
        var w, wInit := WithoutSeparators(s), WithoutSeparators(init);
        assert w == wInit + [c];
        assert w[..|w| - 1] == wInit;
        var d := c as int - '0' as int;
        var v := LiteralValue(init, base);
        assert LiteralValue(s, base) == base * v + d;
        assert LiteralValue(w, base) == base * LiteralValue(wInit, base) + d;
      }
    }
  }

  /** UserDefinedLiterals: 0b001010110 is 86. */
  lemma BinaryLiteralDemo()
    ensures LiteralValue("001010110", 2) == 86
  {
    assert LiteralValue("0", 2) == 0;
    assert "00"[..1] == "0";
    assert LiteralValue("00", 2) == 0;
    assert "001"[..2] == "00";
    assert LiteralValue("001", 2) == 1;
    assert "0010"[..3] == "001";
    assert LiteralValue("0010", 2) == 2;
    assert "00101"[..4] == "0010";
    assert LiteralValue("00101", 2) == 5;
    assert "001010"[..5] == "00101";
    assert LiteralValue("001010", 2) == 10;
    assert "0010101"[..6] == "001010";
    assert LiteralValue("0010101", 2) == 21;
    assert "00101011"[..7] == "0010101";
    assert LiteralValue("00101011", 2) == 43;
    assert "001010110"[..8] == "00101011";
  }

  /** UserDefinedLiterals: 1'000'000 is one million. */
  lemma SeparatedLiteralDemo()
    ensures LiteralValue("1'000'000", 10) == 1000000
  {
    assert LiteralValue("1", 10) == 1;
    assert "1'"[..1] == "1";
    assert LiteralValue("1'", 10) == 1;
    assert "1'0"[..2] == "1'";
    assert LiteralValue("1'0", 10) == 10;
    assert "1'00"[..3] == "1'0";
    assert LiteralValue("1'00", 10) == 100;
    assert "1'000"[..4] == "1'00";
    assert LiteralValue("1'000", 10) == 1000;
    assert "1'000'"[..5] == "1'000";
    assert LiteralValue("1'000'", 10) == 1000;
    assert "1'000'0"[..6] == "1'000'";
    assert LiteralValue("1'000'0", 10) == 10000;
    assert "1'000'00"[..7] == "1'000'0";
    assert LiteralValue("1'000'00", 10) == 100000;
    assert "1'000'000"[..8] == "1'000'00";
  }

  /** The first half of the regrouped literal, 1'00'0, is a thousand. */
  lemma RegroupedThousand()
    ensures LiteralValue("1'00'0", 10) == 1000
  {
    assert LiteralValue("1", 10) == 1;
    assert "1'"[..1] == "1";
    assert LiteralValue("1'", 10) == 1;
    assert "1'0"[..2] == "1'";
    assert LiteralValue("1'0", 10) == 10;
    assert "1'00"[..3] == "1'0";
    assert LiteralValue("1'00", 10) == 100;
    assert "1'00'"[..4] == "1'00";
    assert LiteralValue("1'00'", 10) == 100;
    assert "1'00'0"[..5] == "1'00'";
  }

  /** UserDefinedLiterals: 1'00'0'00'0, separated differently, is the same
      number. */
  lemma RegroupedLiteralDemo()
    ensures LiteralValue("1'00'0'00'0", 10) == 1000000
  {
    RegroupedThousand();
    assert "1'00'0'"[..6] == "1'00'0";
    assert LiteralValue("1'00'0'", 10) == 1000;
    assert "1'00'0'0"[..7] == "1'00'0'";
    assert LiteralValue("1'00'0'0", 10) == 10000;
    assert "1'00'0'00"[..8] == "1'00'0'0";
    assert LiteralValue("1'00'0'00", 10) == 100000;
    assert "1'00'0'00'"[..9] == "1'00'0'00";
    assert LiteralValue("1'00'0'00'", 10) == 100000;
    assert "1'00'0'00'0"[..10] == "1'00'0'00'";
  }
}
