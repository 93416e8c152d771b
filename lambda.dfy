/** The lambda examples of Lambda.h and CppExamples/Lambda.h. A lambda
    that captures by value and is not mutable is a Dafny function value
    built from the captured values; a mutable lambda, whose call operator
    updates its copies of the captured variables, is an object whose fields
    are those copies; a variable captured by reference is updated by the
    caller with what the lambda hands back. */
module Lambda {
  import Algorithms
  import Containers
  import Templates

  /** `[](int z) { return z * 2; }`. */
  function DoubleValue(z: int): int
  {
    z * 2
  }

  /** BasicLambda and GenericLambda: 8, 6, 3 and "ab", and count_if with
      the odd predicate counts 2 elements of {1, 2, 3}. The generic `cat`
      lambda `[](auto x, auto y) { return x + y; }` is the `+` of
      Templates, on ints and on strings. */
  lemma BasicLambdaDemo()
    ensures DoubleValue(4) == 8
    ensures (z => z * 3)(2) == 6
    ensures Templates.IntPlus(1, 2) == 3 && Templates.Concat("a", "b") == "ab"
    ensures Algorithms.CountIf([1, 2, 3], Containers.IsOdd) == 2
  {
    assert [1, 2, 3][1..] == [2, 3];
    assert [2, 3][1..] == [3];
  }

  /** `[x](int z) { return z + x; }`: the lambda holds the value x had when
      it was created. */
  function IncreaseValue(x: int): int -> int
  {
    z => z + x
  }

  /** CaptureVariables: 7 before and still 7 after x is set to 10. */
  method CaptureVariables() returns (before: int, after: int)
    ensures before == 7 && after == 7
  {
    var x := 4;
    var increaseValue := IncreaseValue(x);
    before := increaseValue(3);
    x := 10;
    after := increaseValue(3);
  }

  /** ReturnLambda(x): `[x]() -> int { return 2 * x; }`. */
  function ReturnLambda(x: int): () -> int
  {
    () => 2 * x
  }

  /** ReturnAndSetLambda: ReturnLambda(3)() is 6. */
  lemma ReturnLambdaDemo()
    ensures ReturnLambda(3)() == 6
  {
  }

  /** `[](const string& s) -> string { return s; }("Aye!")`: the identity
      lambda, invoked on the spot. */
  function Identity(s: string): string
  {
    s
  }

  lemma IdentityDemo()
    ensures Identity("Aye!") == "Aye!"
    ensures Identity("Call1 ") + Identity("Call2 ") == "Call1 Call2 "
  {
  }

  /** The mutable lambda `[=](int& r) mutable { ... }` of MutableLambda and
      MakeLambdaMutable: x and y are its own copies, updated on every
      call. */
  class MixingLambda {
    var x: int
    var y: int

    constructor (x: int, y: int)
      ensures this.x == x && this.y == y
    {
      this.x, this.y := x, y;
    }

    /** One call: doubles r, shifts y into x and the old r into y, and adds
        both to r. */
    method Call(r: int) returns (result: int)
      modifies this
      ensures x == old(y) && y == r
      ensures result == 3 * r + old(y)
    {
      var old_ := r;
      var r' := r * 2;
      x := y;
      y := old_;
      result := r' + x + y;
    }
  }

  /** The values std::for_each leaves behind: each element tripled plus the
      element before it, the first one plus the y that was captured. */
  function Mixed(v: seq<int>, y: int): (w: seq<int>)
    ensures |w| == |v|
  {
    seq(|v|, k requires 0 <= k < |v| => 3 * v[k] + (if k == 0 then y else v[k - 1]))
  }

  /** std::for_each with the mutable lambda: every element passes through
      the same object, which carries the previous element to the next
      call. */
  method ForEachMixing(v: array<int>, f: MixingLambda)
    modifies v, f
    ensures v[..] == Mixed(old(v[..]), old(f.y))
    ensures v.Length > 0 ==> f.y == old(v[v.Length - 1])
  {
    ghost var s, y0 := v[..], f.y;
    for i := 0 to v.Length
      invariant v[i..] == s[i..]
      invariant v[..i] == Mixed(s, y0)[..i]
      invariant f.y == if i == 0 then y0 else s[i - 1]
    {
      assert v[i] == s[i];
      var r := f.Call(v[i]);
      v[i] := r;
    }
  }

  /** Inverse of Mixed: the element before is known, so each original
      element is recovered from its result. */
  function Unmixed(w: seq<int>, y: int): (v: seq<int>)
    ensures |v| == |w|
  {
    if w == [] then [] else
      var v0 := (w[0] - y) / 3;
      [v0] + Unmixed(w[1..], v0)
  }

  /** Mixed unfolds one element at a time. */
  lemma MixedCons(v: seq<int>, y: int)
    requires v != []
    ensures Mixed(v, y) == [3 * v[0] + y] + Mixed(v[1..], v[0])
  {
  }

  /** The lambda loses no information: the original vector is recovered
      from the mixed one and the captured y. */
  lemma {:induction false} UnmixedMixed(v: seq<int>, y: int)
    ensures Unmixed(Mixed(v, y), y) == v
  {
    if v != [] {
      MixedCons(v, y);
      var w := Mixed(v, y);
      assert (w[0] - y) / 3 == v[0];
      assert w[1..] == Mixed(v[1..], v[0]);
      UnmixedMixed(v[1..], v[0]);
      assert v == [v[0]] + v[1..];
    }
  }

  /** MakeLambdaMutable: {1,2,3,4} becomes {4,7,11,15}, and the x and y of
      the caller are still 1. */
  method MutableLambdaDemo() returns (v: seq<int>, x: int, y: int)
    ensures v == [4, 7, 11, 15] && x == 1 && y == 1
  {
    var a := new int[4];
    a[0], a[1], a[2], a[3] := 1, 2, 3, 4;
    x, y := 1, 1;
    var lambda := new MixingLambda(x, y);
    ForEachMixing(a, lambda);
    v := a[..];
    assert Mixed([1, 2, 3, 4], 1) == [4, 7, 11, 15];
  }

  /** generate_n with `[n]() mutable { return n++; }`: the lambda counts on
      its own copy, so the caller's n stays 0; with `[&n] { return n++; }`
      the caller's n is the counter and ends at 3. Both print 012. */
  method GenerateNDemo() returns (vec1: seq<int>, n1: int, vec2: seq<int>, n2: int)
    ensures vec1 == [0, 1, 2] && n1 == 0
    ensures vec2 == [0, 1, 2] && n2 == 3
  {
    var n := 0;
    var copy;
    vec1, copy := Containers.GenerateN([], 3, n);
    n1 := n;
    n := 0;
    vec2, n := Containers.GenerateN([], 3, n);
    n2 := n;
    assert Containers.Counting(0, 3) == [0, 1, 2];
  }

  /** The fibonacci lambda of EmulateRecursion: -1 below 1, 1 at 1 and 2,
      and the sum of the two before otherwise. The -1 never enters a sum:
      the result is positive exactly from 1 on. */
  function Fibonacci(n: int): (r: int)
    ensures r >= 1 <==> n >= 1
    ensures n < 1 ==> r == -1
    decreases n
  {
    if n < 1 then -1
    else if n == 1 || n == 2 then 1
    else Fibonacci(n - 1) + Fibonacci(n - 2)
  }

  /** From 1 on the sequence does not decrease. */
  lemma FibonacciNondecreasing(n: int)
    requires n >= 2
    ensures Fibonacci(n) >= Fibonacci(n - 1)
  {
  }

  /** Fib(7) = 13. */
  lemma FibonacciDemo()
    ensures Fibonacci(7) == 13
  {
    assert Fibonacci(3) == 2;
    assert Fibonacci(5) == 5;
  }
}
