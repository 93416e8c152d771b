/** The templates of Templates.h and CppExamples/Templates.h: Min and Max,
    the Accumulator class, SumAndProduct and the int SumProductAverage, the
    variadic adder and matches (their argument packs become sequences), the
    compile-time Factorial<n>, Increment over a vector and FindExtreme.
    A comparison template argument (`<`, std::less, std::greater) becomes a
    `less` parameter and an `operator+=` or `+` a `plus` parameter. */
module Templates {
  import opened CInt
  import Algorithms
  import Factorial

  function IntLess(x: int, y: int): bool { x < y }
  function IntGreater(x: int, y: int): bool { x > y }
  function CharLess(x: char, y: char): bool { x < y }
  function IntPlus(x: int, y: int): int { x + y }
  function Concat(x: string, y: string): string { x + y }

  /** Min: `a < b ? a : b`. */
  function Min<T>(a: T, b: T, less: (T, T) -> bool): (r: T)
    ensures r == a || r == b
  {
    if less(a, b) then a else b
  }

  /** Max: `a > b ? a : b`, where `a > b` is `b < a`. */
  function Max<T>(a: T, b: T, less: (T, T) -> bool): (r: T)
    ensures r == a || r == b
  {
    if less(b, a) then a else b
  }

  /** Under a strict total order Min is below both arguments and Max above
      both; when neither argument is less than the other both return b. */
  lemma MinMaxBounds<T(!new)>(a: T, b: T, less: (T, T) -> bool)
    requires Algorithms.StrictTotalOrder(less)
    ensures !less(a, Min(a, b, less)) && !less(b, Min(a, b, less))
    ensures !less(Max(a, b, less), a) && !less(Max(a, b, less), b)
    ensures !less(a, b) && !less(b, a) ==> Min(a, b, less) == b && Max(a, b, less) == b
  {
    assert !less(a, a) && !less(b, b);
  }

  lemma IntLessIsTotal()
    ensures Algorithms.StrictTotalOrder(IntLess)
    ensures Algorithms.StrictTotalOrder(IntGreater)
  {
  }

  /** For ints: Min and Max are the smaller and the larger argument, and
      together they are the two arguments. */
  lemma MinMaxInt(a: int, b: int)
    ensures Min(a, b, IntLess) <= a && Min(a, b, IntLess) <= b
    ensures Max(a, b, IntLess) >= a && Max(a, b, IntLess) >= b
    ensures Min(a, b, IntLess) + Max(a, b, IntLess) == a + b
  {
    IntLessIsTotal();
    MinMaxBounds(a, b, IntLess);
  }

  /** MinMaxTest: 2 and 8 for ints, 'c' and 'e' for chars. */
  lemma MinMaxDemos()
    ensures Min(2, 8, IntLess) == 2 && Max(2, 8, IntLess) == 8
    ensures Min('e', 'c', CharLess) == 'c' && Max('e', 'c', CharLess) == 'e'
  {
  }

  /** The running totals of an Accumulator: `start` combined with every
      added value in turn. */
  function Accumulate<T>(plus: (T, T) -> T, start: T, added: seq<T>): T
  {
    if added == [] then start
    else plus(Accumulate(plus, start, added[..|added| - 1]), added[|added| - 1])
  }

  /** For ints accumulating is adding up. */
  lemma {:induction false} AccumulateSum(start: int, added: seq<int>)
    ensures Accumulate(IntPlus, start, added) == start + Algorithms.Sum(added)
  {
    if added != [] {
      AccumulateSum(start, added[..|added| - 1]);
    }
  }

  /** For strings accumulating is concatenating. */
  lemma {:induction false} AccumulateConcat(start: string, added: seq<string>)
    ensures Accumulate(Concat, start, added) == start + Flatten(added)
  {
    if added != [] {
      var init, last := added[..|added| - 1], added[|added| - 1];
      AccumulateConcat(start, init);
      FlattenSnoc(init, last);
      assert added == init + [last];
    }
  }

  function Flatten(xs: seq<string>): string {
    if xs == [] then [] else xs[0] + Flatten(xs[1..])
  }

  lemma {:induction false} FlattenSnoc(xs: seq<string>, x: string)
    ensures Flatten(xs + [x]) == Flatten(xs) + x
  {
    if xs == [] {
      assert xs + [x] == [x];
    } else {
      assert (xs + [x])[1..] == xs[1..] + [x];
      FlattenSnoc(xs[1..], x);
    }
  }

  /** Accumulator<T>: holds the running total m_total. The ghost fields
      record the starting value and everything added so far. */
  class Accumulator<T> {
    const plus: (T, T) -> T
    var total: T
    ghost const start: T
    ghost var added: seq<T>

    ghost predicate Valid()
      reads this
    {
      total == Accumulate(plus, start, added)
    }

    constructor (start: T, plus: (T, T) -> T)
      ensures Valid() && this.start == start && this.plus == plus
      ensures total == start && added == []
    {
      this.plus := plus;
      total := start;
      this.start := start;
      added := [];
    }

    /** operator+=: adds t and returns the new total. */
    method AddAssign(t: T) returns (r: T)
      requires Valid()
      modifies this
      ensures Valid()
      ensures added == old(added) + [t]
      ensures total == plus(old(total), t) && r == total
    {
      total := plus(total, t);
      added := added + [t];
      assert added[..|added| - 1] == old(added);
      r := total;
    }

    /** GetTotal(): the start value combined with everything added so far. */
    function GetTotal(): (r: T)
      requires Valid()
      reads this
      ensures r == Accumulate(plus, start, added)
    {
      total
    }
  }

  /** TemplateClasses::Test in CppExamples/Templates.h: 0 + 3 + 7 and
      "" + "Hello" + "World". */
  method AccumulatorDemo() returns (n: int, s: string)
    ensures n == 10 && s == "HelloWorld"
  {
    var accum := new Accumulator(0, IntPlus);
    var _ := accum.AddAssign(3);
    var _ := accum.AddAssign(7);
    n := accum.GetTotal();
    AccumulateSum(0, [3, 7]);
    var accum2 := new Accumulator("", Concat);
    var _ := accum2.AddAssign("Hello");
    var _ := accum2.AddAssign("World");
    s := accum2.GetTotal();
  }

  /** AccumulatorTest in Templates.h: 10 and "hello world"; each += returns
      the total so far. */
  method AccumulatorTestDemo() returns (first: int, n: int, s: string)
    ensures first == 3 && n == 10 && s == "hello world"
  {
    var accum := new Accumulator(0, IntPlus);
    first := accum.AddAssign(3);
    var _ := accum.AddAssign(7);
    n := accum.GetTotal();
    var accum2 := new Accumulator("", Concat);
    var _ := accum2.AddAssign("hello");
    var _ := accum2.AddAssign(" world");
    s := accum2.GetTotal();
  }

  /** x^2 - sum*x + prod, whose roots a sum and a product determine. */
  function Quadratic(sum: int, prod: int, x: int): int {
    x * x - sum * x + prod
  }

  /** SumAndProduct(a, b): the pair determines its arguments up to order,
      since the roots of x^2 - sum*x + prod are exactly a and b. */
  function SumAndProduct(a: int, b: int): (r: (int, int))
    ensures forall x :: Quadratic(r.0, r.1, x) == 0 <==> x == a || x == b
  {
    var sum, prod := a + b, a * b;
    Roots(a, b, sum, prod);
    (sum, prod)
  }

  lemma Roots(a: int, b: int, sum: int, prod: int)
    requires sum == a + b && prod == a * b
    ensures forall x :: Quadratic(sum, prod, x) == 0 <==> x == a || x == b
  {
    forall x ensures Quadratic(sum, prod, x) == 0 <==> x == a || x == b {
      Root(a, b, x);
    }
  }

  lemma Root(a: int, b: int, x: int)
    ensures Quadratic(a + b, a * b, x) == 0 <==> x == a || x == b
  {
    assert x * x - (a + b) * x + a * b == (x - a) * (x - b);
    if (x - a) * (x - b) == 0 {
      assert x - a == 0 || x - b == 0;
    }
  }

  /** The int SumProductAverage: the average is the sum divided by 3 with
      C++'s truncating division, so it is within 1 of the true mean and
      rounded toward zero. */
  function SumProductAverage(a: int, b: int, c: int): (r: (int, int, int))
    ensures r.0 == a + b + c && r.1 == a * b * c
    ensures 3 * Abs(r.2) <= Abs(r.0) < 3 * Abs(r.2) + 3
    ensures r.0 >= 0 ==> r.2 >= 0
    ensures r.0 <= 0 ==> r.2 <= 0
  {
    (a + b + c, a * b * c, Div(a + b + c, 3))
  }

  /** The demos: (2, 3) gives (5, 6) and (2, 3, 4) gives (9, 24, 3). */
  lemma SumProductDemos()
    ensures SumAndProduct(2, 3) == (5, 6)
    ensures SumProductAverage(2, 3, 4) == (9, 24, 3)
  {
    NonNegativeAgrees(9, 3);
  }

  ghost predicate Associative<T(!new)>(f: (T, T) -> T) {
    forall x, y, z :: f(f(x, y), z) == f(x, f(y, z))
  }

  lemma PlusAndConcatAssociative()
    ensures Associative(IntPlus) && Associative(Concat)
  {
    forall x: string, y: string, z: string ensures Concat(Concat(x, y), z) == Concat(x, Concat(y, z)) {
      assert (x + y) + z == x + (y + z);
    }
  }

  /** adder(v) == v and adder(first, args...) == first + adder(args...). The
      result has the type of the first argument. adder folds from the right
      and an Accumulator from the left; for an associative + both give the
      same value. */
  function Adder<T(!new)>(vs: seq<T>, plus: (T, T) -> T): (r: T)
    requires |vs| >= 1
    ensures Associative(plus) ==> r == Accumulate(plus, vs[0], vs[1..])
  {
    if |vs| == 1 then vs[0]
    else
      var rest := Adder(vs[1..], plus);
      AdderStep(vs, plus, rest);
      plus(vs[0], rest)
  }

  /** One step of adder: adding the first argument in front of the
      accumulation of the others. */
  lemma AdderStep<T(!new)>(vs: seq<T>, plus: (T, T) -> T, rest: T)
    requires |vs| >= 2
    requires Associative(plus) ==> rest == Accumulate(plus, vs[1..][0], vs[1..][1..])
    ensures Associative(plus) ==> plus(vs[0], rest) == Accumulate(plus, vs[0], vs[1..])
  {
    if Associative(plus) {
      assert vs[1..][1..] == vs[2..];
      AccumulateFront(plus, vs[0], vs[1], vs[2..]);
      AccumulateCons(plus, vs[0], vs[1], vs[2..]);
      assert vs[1..] == [vs[1]] + vs[2..];
    }
  }

  lemma {:induction false} AccumulateCons<T>(plus: (T, T) -> T, start: T, x: T, xs: seq<T>)
    ensures Accumulate(plus, start, [x] + xs) == Accumulate(plus, plus(start, x), xs)
  {
    if xs == [] {
      assert ([x] + xs)[..0] == [];
    } else {
      var init := xs[..|xs| - 1];
      AccumulateCons(plus, start, x, init);
      assert ([x] + xs)[..|[x] + xs| - 1] == [x] + init;
    }
  }

  lemma {:induction false} AccumulateFront<T(!new)>(plus: (T, T) -> T, x: T, start: T, xs: seq<T>)
    requires Associative(plus)
    ensures Accumulate(plus, plus(x, start), xs) == plus(x, Accumulate(plus, start, xs))
  {
    if xs != [] {
      AccumulateFront(plus, x, start, xs[..|xs| - 1]);
    }
  }

  /** adder(string("a"), string("b"), string("c")) == "abc", and the sum of
      the ints 1, 2, 3, 4 is 10. */
  lemma AdderDemos()
    ensures Adder(["a", "b", "c"], Concat) == "abc"
    ensures Adder([1, 2, 3, 4], IntPlus) == 10
  {
    assert ["a", "b", "c"][1..] == ["b", "c"];
    assert ["b", "c"][1..] == ["c"];
  }

  /** matches(t, u, vals...): t == u || matches(t, vals...). */
  function Matches<T(==)>(t: T, us: seq<T>): (r: bool)
    requires |us| >= 1
    ensures r <==> t in us
  {
    t == us[0] || (|us| > 1 && Matches(t, us[1..]))
  }

  /** RecursiveVariadicTemplate. */
  lemma MatchesDemos()
    ensures !Matches(1, [2]) && Matches(1, [2 - 1])
    ensures Matches(1, [2, 1]) && !Matches(1, [2, 3, 4, 5])
    ensures Matches("A", ["B", "A"])
  {
    assert ["B", "A"][1] == "A";
  }

  /** Factorial<n>::value is n * Factorial<n - 1>::value with Factorial<0>
      as the stopping case: the recursion of factorial, evaluated by the
      compiler. */
  lemma TemplateFactorialDemos()
    ensures Factorial.Factorial(4) == 24 && Factorial.Factorial(0) == 1
    ensures forall n: nat :: n > 0 ==> Factorial.Factorial(n) == n * Factorial.Factorial(n - 1)
  {
  }

  /** Each element of s raised by n. */
  function Shifted(s: seq<int>, n: int): (r: seq<int>)
    ensures |r| == |s|
    ensures forall k :: 0 <= k < |s| ==> r[k] == s[k] + n
  {
    seq(|s|, k requires 0 <= k < |s| => s[k] + n)
  }

  lemma ShiftedTwice(s: seq<int>, m: int, n: int)
    ensures Shifted(Shifted(s, m), n) == Shifted(s, m + n)
  {
  }

  /** `for (int& i : nums) i = Increment<int, N>(i);`: Increment adds N to
      its reference argument, which the loop assigns back. */
  method IncrementAll(nums: array<int>, n: int)
    modifies nums
    ensures nums[..] == Shifted(old(nums[..]), n)
  {
    var i := 0;
    while i < nums.Length
      invariant 0 <= i <= nums.Length
      invariant forall k :: 0 <= k < i ==> nums[k] == old(nums[k]) + n
      invariant forall k :: i <= k < nums.Length ==> nums[k] == old(nums[k])
    {
      nums[i] := nums[i] + n;
      i := i + 1;
    }
  }

  /** std::max_element(v, c): the position of the first element that no
      other element exceeds under c. */
  function MaxElement<T>(v: seq<T>, less: (T, T) -> bool): (i: nat)
    requires |v| >= 1
    ensures i < |v|
    decreases |v|
  {
    if |v| == 1 then 0
    else
      var m := MaxElement(v[..|v| - 1], less);
      if less(v[m], v[|v| - 1]) then |v| - 1 else m
  }

  /** Under a strict total order the element found is greater than every
      element before it and not less than any after it. */
  lemma {:induction false} MaxElementIsFirstGreatest<T(!new)>(v: seq<T>, less: (T, T) -> bool)
    requires |v| >= 1 && Algorithms.StrictTotalOrder(less)
    ensures forall k :: 0 <= k < |v| ==> !less(v[MaxElement(v, less)], v[k])
    ensures forall k :: 0 <= k < MaxElement(v, less) ==> less(v[k], v[MaxElement(v, less)])
    decreases |v|
  {
    if |v| > 1 {
      var init := v[..|v| - 1];
      MaxElementIsFirstGreatest(init, less);
      var m := MaxElement(init, less);
      assert forall k :: 0 <= k < |init| ==> init[k] == v[k];
      if less(v[m], v[|v| - 1]) {
        forall k | 0 <= k < |v| - 1 ensures less(v[k], v[|v| - 1]) {
          if k != m && v[k] != v[m] {
            assert !less(v[m], v[k]);
            assert less(v[k], v[m]);
          }
        }
      }
    }
  }

  /** FindExtreme(v, c): `*max_element(begin(v), end(v), c)`; v must not be
      empty because the result is dereferenced. */
  function FindExtreme<T>(v: seq<T>, less: (T, T) -> bool): (r: T)
    requires |v| >= 1
    ensures r in v
  {
    v[MaxElement(v, less)]
  }

  /** With std::less FindExtreme is the maximum, with std::greater the
      minimum. */
  lemma FindExtremeInt(v: seq<int>)
    requires |v| >= 1
    ensures forall x :: x in v ==> x <= FindExtreme(v, IntLess)
    ensures forall x :: x in v ==> x >= FindExtreme(v, IntGreater)
  {
    IntLessIsTotal();
    MaxElementIsFirstGreatest(v, IntLess);
    MaxElementIsFirstGreatest(v, IntGreater);
  }

  /** DefaultTemplateParameters::Test: nums goes {6,2,3,4,5,1} to
      {7,3,4,5,6,2} to {9,5,6,7,8,4}; the extremes are 9 and 4. */
  method IncrementDemo() returns (once: seq<int>, twice: seq<int>, max: int, min: int)
    ensures once == [7, 3, 4, 5, 6, 2] && twice == [9, 5, 6, 7, 8, 4]
    ensures max == 9 && min == 4
  {
    var nums := new int[6];
    nums[0], nums[1], nums[2], nums[3], nums[4], nums[5] := 6, 2, 3, 4, 5, 1;
    assert nums[..] == [6, 2, 3, 4, 5, 1];
    IncrementAll(nums, 1);
    once := nums[..];
    IncrementAll(nums, 2);
    twice := nums[..];
    ShiftedDemo();
    max := FindExtreme(twice, IntLess);
    min := FindExtreme(twice, IntGreater);
    FindExtremeDemo();
  }

  lemma ShiftedDemo()
    ensures Shifted([6, 2, 3, 4, 5, 1], 1) == [7, 3, 4, 5, 6, 2]
    ensures Shifted([7, 3, 4, 5, 6, 2], 2) == [9, 5, 6, 7, 8, 4]
  {
  }

  lemma FindExtremeDemo()
    ensures FindExtreme([9, 5, 6, 7, 8, 4], IntLess) == 9
    ensures FindExtreme([9, 5, 6, 7, 8, 4], IntGreater) == 4
  {
    var v := [9, 5, 6, 7, 8, 4];
    FindExtremeInt(v);
    assert forall x :: x in v ==> 4 <= x <= 9;
    assert 9 in v && 4 in v;
  }
}
