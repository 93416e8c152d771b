/** factorial and its tracing twin visualize from CalculateFactorial.h.

    `factorial` is declared on 32-bit int. Factorial is the mathematical
    function the demo means to print; FactorialAsWritten applies the
    wrap-around of 32-bit two's-complement multiplication at every step,
    which is what the call factorial(13) yields in practice (signed overflow
    is undefined in C++). */
module Factorial {
  import opened CInt

  function Factorial(n: nat): (r: nat)
    ensures r >= 1
  {
    if n == 0 then 1 else n * Factorial(n - 1)
  }

  lemma {:induction false} FactorialMonotone(m: nat, n: nat)
    requires m <= n
    ensures Factorial(m) <= Factorial(n)
    decreases n - m
  {
    if m < n {
      FactorialMonotone(m, n - 1);
      assert Factorial(n) == n * Factorial(n - 1) >= Factorial(n - 1);
    }
  }

  /** 12 is the largest argument whose factorial fits a 32-bit int. */
  lemma FactorialFitsInt32(n: nat)
    ensures InInt32(Factorial(n)) <==> n <= 12
  {
    assert Factorial(12) == 479001600;
    assert Factorial(13) == 6227020800;
    if n <= 12 {
      FactorialMonotone(n, 12);
    } else {
      FactorialMonotone(13, n);
    }
  }

  /** With a 64-bit result type every factorial up to 20! is exact. */
  lemma FactorialFitsInt64(n: nat)
    requires n <= 20
    ensures Factorial(n) < 0x8000_0000_0000_0000
  {
    assert Factorial(13) == 6227020800;
    assert Factorial(16) == 20922789888000;
    assert Factorial(18) == 6402373705728000;
    assert Factorial(20) == 2432902008176640000;
    FactorialMonotone(n, 20);
  }

  /** The value of a mathematical integer in 32-bit two's complement. */
  function Wrap32(x: int): (r: int)
    ensures InInt32(r)
    ensures (x - r) % 0x1_0000_0000 == 0
    ensures InInt32(x) ==> r == x
  {
    (x - Int32Min) % 0x1_0000_0000 + Int32Min
  }

  lemma Wrap32Thirteen()
    ensures Wrap32(6227020800) == 1932053504
  {
    assert 6227020800 - Int32Min == 0x1_0000_0000 + 4079537152;
  }

  /** factorial as compiled: every product wraps to 32 bits. Negative
      arguments never reach the base case, hence `nat`. */
  function FactorialAsWritten(n: nat): (r: int)
    ensures InInt32(r)
  {
    if n == 0 then 1 else Wrap32(n * FactorialAsWritten(n - 1))
  }

  /** Up to 12 the 32-bit computation is exact. */
  lemma {:induction false} AsWrittenExactUpTo12(n: nat)
    requires n <= 12
    ensures FactorialAsWritten(n) == Factorial(n)
  {
    if n > 0 {
      AsWrittenExactUpTo12(n - 1);
      FactorialFitsInt32(n);
    }
  }

  /** The third call of CalculateFactorial prints 1932053504, not 13!. */
  lemma AsWrittenThirteenWraps()
    ensures FactorialAsWritten(13) == 1932053504
    ensures Factorial(13) == 6227020800
  {
    AsWrittenExactUpTo12(12);
    assert Factorial(12) == 479001600;
    assert FactorialAsWritten(13) == Wrap32(6227020800);
    Wrap32Thirteen();
  }

  /** The values CalculateFactorial prints for 7 and 10, and the value
      VisualizeFactorial prints for 5. */
  lemma FactorialDemos()
    ensures Factorial(7) == 5040
    ensures Factorial(10) == 3628800
    ensures Factorial(5) == 120
  {
  }

  /** Decimal rendering of a natural number, as `cout << n` prints it. */
  function Decimal(n: nat): (s: string)
    ensures |s| >= 1 && AllDigits(s)
    decreases n
  {
    if n < 10 then [Digit(n)] else Decimal(n / 10) + [Digit(n % 10)]
  }

  function Digit(d: nat): (c: char)
    requires d < 10
    ensures '0' <= c <= '9' && c as int - '0' as int == d
  {
    (d + '0' as int) as char
  }

  /** Reads a string of decimal digits back. */
  predicate AllDigits(s: string) {
    forall k :: 0 <= k < |s| ==> '0' <= s[k] <= '9'
  }

  function ParseDecimal(s: string): nat
    requires AllDigits(s)
  {
    if s == [] then 0 else 10 * ParseDecimal(s[..|s| - 1]) + (s[|s| - 1] as int - '0' as int)
  }

  lemma {:induction false} DecimalRoundTrip(n: nat)
    ensures ParseDecimal(Decimal(n)) == n
    decreases n
  {
    if n >= 10 {
      var s := Decimal(n);
      DecimalRoundTrip(n / 10);
      assert s[..|s| - 1] == Decimal(n / 10);
    }
  }

  /** `count` copies of `s`: what `for (j = 1; j <= count; j++) cout << s`
      prints; nothing when count <= 0. */
  function Repeat(s: string, count: int): string
    decreases count
  {
    if count <= 0 then [] else Repeat(s, count - 1) + s
  }

  const Bar: string := "|  "

  /** What one line of visualize's output says after its indentation. */
  datatype Message = Call(n: nat) | Return(n: nat, f: nat)

  /** A printed line: its indentation and its message. */
  datatype Line = Line(indent: string, message: Message)

  /** The text of a message as printed. The base case names factorial(1)
      even when it was entered with n == 0. */
  function Text(m: Message): string {
    match m
    case Call(n) => "call factorial(" + Decimal(n) + ")"
    case Return(n, f) =>
      if n <= 1 then "return 1 = factorial(1)"
      else "return " + Decimal(f) + " = " + Decimal(n) + "*factorial(" + Decimal(n - 1) + ")"
  }

  /** A line as it appears on the console. */
  function Render(line: Line): string {
    line.indent + Text(line.message) + "\n"
  }

  /** The lines visualize(n) prints when entered with the depth counter at
      `depth`: its call line, the lines of the nested call, its return line. */
  function Trace(n: nat, depth: int): seq<Line>
    decreases n
  {
    [Line(Repeat(Bar, depth), Call(n))] +
    (if n <= 1 then [] else Trace(n - 1, depth + 1)) +
    [Line(Repeat(Bar, depth), Return(n, Factorial(n)))]
  }

  /** Each of the nested calls (one for n <= 1, n otherwise) prints one
      line on entry and one on return, and the last line reports n!. */
  lemma {:induction false} TraceShape(n: nat, depth: int)
    ensures |Trace(n, depth)| == 2 * (if n <= 1 then 1 else n)
    ensures Trace(n, depth)[0] == Line(Repeat(Bar, depth), Call(n))
    ensures Trace(n, depth)[|Trace(n, depth)| - 1] == Line(Repeat(Bar, depth), Return(n, Factorial(n)))
    decreases n
  {
    if n > 1 {
      TraceShape(n - 1, depth + 1);
    }
  }

  /** The indentation loop `for (j = 1; j <= count; j++) cout << "|  "`. */
  method Indentation(count: int) returns (s: string)
    ensures s == Repeat(Bar, count)
  {
    s := "";
    var j := 1;
    while j <= count
      invariant 1 <= j <= (if count >= 1 then count else 0) + 1
      invariant s == Repeat(Bar, j - 1)
      decreases count - j
    {
      s := s + Bar;
      j := j + 1;
    }
  }

  /** visualize with its function-static depth counter `i` and the lines
      it writes to the console. */
  class Visualizer {
    var depth: int
    var out: seq<Line>

    constructor ()
      ensures depth == 0 && out == []
    {
      depth := 0;
      out := [];
    }

    /** Entry to visualize(n): indent, print the call line, count the
        level. */
    method Enter(n: nat)
      modifies this
      ensures depth == old(depth) + 1
      ensures out == old(out) + [Line(Repeat(Bar, old(depth)), Call(n))]
    {
      var indent := Indentation(depth);
      out := out + [Line(indent, Call(n))];
      depth := depth + 1;
    }

    /** Exit from visualize(n) with result `f`: indent one level less,
        uncount the level, print the return line. */
    method Leave(n: nat, f: nat)
      modifies this
      ensures depth == old(depth) - 1
      ensures out == old(out) + [Line(Repeat(Bar, depth), Return(n, f))]
    {
      var indent := Indentation(depth - 1);
      depth := depth - 1;
      out := out + [Line(indent, Return(n, f))];
    }

    /** visualize(n): returns n! (1 for n <= 1), prints Trace(n, depth) and
        leaves the depth counter as it found it. */
    method Visualize(n: nat) returns (f: nat)
      modifies this
      ensures f == Factorial(n)
      ensures depth == old(depth)
      ensures out == old(out) + Trace(n, old(depth))
      decreases n
    {
      ghost var start, level := out, depth;
      Enter(n);
      ghost var entered := out;
      if n <= 1 {
        f := 1;
      } else {
        var g := Visualize(n - 1);
        f := n * g;
      }
      ghost var inner := out;
      Leave(n, f);
      ghost var call, nested, ret := [Line(Repeat(Bar, level), Call(n))],
        (if n <= 1 then [] else Trace(n - 1, level + 1)), [Line(Repeat(Bar, level), Return(n, Factorial(n)))];
      assert entered == start + call;
      assert inner == entered + nested;
      Concat4(start, call, nested, ret);
    }
  }

  lemma Concat4(a: seq<Line>, b: seq<Line>, c: seq<Line>, d: seq<Line>)
    ensures a + b + c + d == a + (b + c + d)
  {
  }

  /** VisualizeFactorial: visualize(n) returns n!, prints two lines per
      nested call, and its last line reports the result. */
  method VisualizeLines(n: nat) returns (f: nat, lines: nat, last: string)
    ensures f == Factorial(n)
    ensures lines == 2 * (if n <= 1 then 1 else n)
    ensures last == Text(Return(n, f)) + "\n"
  {
    var v := new Visualizer();
    f := v.Visualize(n);
    TraceShape(n, 0);
    assert v.out == Trace(n, 0);
    lines := |v.out|;
    last := Render(v.out[lines - 1]);
  }
}
