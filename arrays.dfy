/** The array examples of Arrays.h and CppExamples/Arrays.h: aggregate
    initialisation with zero fill, the element count computed with sizeof,
    the Sum template over std::array, std::count over a pointer range, the
    row-major and column-major fills of a two-dimensional array and the
    assignment to one of its cells. A C array or std::array is a Dafny
    array; `int a[r][c]` is an array2. Sizes assume a 4-byte int and an
    8-byte pointer. */
module Arrays {
  import Algorithms

  /** `T a[n] = { init... }`: the listed values first, zeros after them. */
  function Initialized(init: seq<int>, n: nat): (r: seq<int>)
    requires |init| <= n
    ensures |r| == n
    ensures r[..|init|] == init
    ensures forall k :: |init| <= k < n ==> r[k] == 0
  {
    init + seq(n - |init|, _ => 0)
  }

  /** `int d[10] = { 0 }` zero-fills the whole array; `int c[] = { 7, 8, 9 }`
      takes its size from the list. */
  lemma InitializationDemo()
    ensures Initialized([4, 5, 6], 6) == [4, 5, 6, 0, 0, 0]
    ensures forall k :: 0 <= k < 10 ==> Initialized([0], 10)[k] == 0
    ensures Initialized([7, 8, 9], 3) == [7, 8, 9]
  {
  }

  const IntSize: nat := 4
  const PointerSize: nat := 8

  /** `sizeof(x) / sizeof(x[0])` with `sizeof(x)` the given number of
      bytes: the number of whole elements that fit in them. */
  function SizeofCount(bytes: nat, elemSize: nat): (n: nat)
    requires elemSize > 0
    ensures n * elemSize <= bytes < n * elemSize + elemSize
  {
    bytes / elemSize
  }

  /** For a local array the quotient is the element count; for a pointer
      to the free store it is the pointer size over the element size,
      whatever the allocation's length. */
  lemma SizeofCountIsLength(n: nat, elemSize: nat)
    requires elemSize > 0
    ensures SizeofCount(n * elemSize, elemSize) == n
    ensures SizeofCount(PointerSize, IntSize) == 2
  {
    var q, r := n * elemSize / elemSize, n * elemSize % elemSize;
    assert elemSize * q + r == n * elemSize;
    assert elemSize * (q - n) == -r;
    if q > n {
      AtLeastOnce(elemSize, q - n);
    } else if q < n {
      AtLeastOnce(elemSize, n - q);
    }
  }

  lemma AtLeastOnce(e: nat, k: int)
    requires k >= 1
    ensures e * k >= e
  {
    assert e * k == e + e * (k - 1);
  }

  /** ArraySize and CStyleArrays: 5 for `int a[] = {1,2,3,4,5}`, 3 for
      `int a[3]`, and 2 for `int* b = new int[4]`. */
  lemma SizeofDemo()
    ensures SizeofCount(5 * IntSize, IntSize) == 5
    ensures SizeofCount(3 * IntSize, IntSize) == 3
    ensures SizeofCount(PointerSize, IntSize) == 2
  {
    SizeofCountIsLength(5, IntSize);
    SizeofCountIsLength(3, IntSize);
  }

  /** Sum<N>: the running total of a range-for over the values. */
  method Sum(values: array<int>) returns (sum: int)
    ensures sum == Algorithms.Sum(values[..])
  {
    sum := 0;
    for i := 0 to values.Length
      invariant sum == Algorithms.Sum(values[..i])
    {
      assert values[..i + 1][..i] == values[..i];
      sum := sum + values[i];
    }
    assert values[..values.Length] == values[..];
  }

  /** The sum of a concatenation is the sum of the parts, so the loop's
      total does not depend on how the array is split. */
  lemma SumSplits(values: seq<int>, k: nat)
    requires k <= |values|
    ensures Algorithms.Sum(values) == Algorithms.Sum(values[..k]) + Algorithms.Sum(values[k..])
  {
    assert values == values[..k] + values[k..];
    Algorithms.SumConcat(values[..k], values[k..]);
  }

  /** StdArraySum: 15 for {1,2,3,4,5} and 9 for {1,3,5}. */
  method SumDemo() returns (s1: int, s2: int)
    ensures s1 == 15 && s2 == 9
  {
    var a := new int[5];
    a[0], a[1], a[2], a[3], a[4] := 1, 2, 3, 4, 5;
    var b := new int[3];
    b[0], b[1], b[2] := 1, 3, 5;
    s1 := Sum(a);
    s2 := Sum(b);
    assert a[..] == [1, 2, 3, 4, 5];
    assert b[..] == [1, 3, 5];
    SumLiterals();
  }

  lemma SumLiterals()
    ensures Algorithms.Sum([1, 2, 3, 4, 5]) == 15 && Algorithms.Sum([1, 3, 5]) == 9
  {
    assert [1, 2, 3, 4, 5][..4] == [1, 2, 3, 4];
    assert [1, 2, 3, 4][..3] == [1, 2, 3];
    assert [1, 2, 3][..2] == [1, 2];
    assert [1, 2][..1] == [1];
    assert [1, 3, 5][..2] == [1, 3];
    assert [1, 3][..1] == [1];
  }

  /** std::count(&a[first], &a[last], x): the end pointer is excluded. */
  function CountRange(a: seq<int>, first: nat, last: nat, x: int): (n: nat)
    requires first <= last <= |a|
    ensures n == multiset(a[first..last])[x]
  {
    Algorithms.Count(a[first..last], x)
  }

  /** Counting up to an end pointer counts the prefix; the element at the
      end pointer is left out. */
  lemma CountRangeEndExclusive(a: seq<int>, last: nat, x: int)
    requires last < |a|
    ensures CountRange(a, 0, last + 1, x) == CountRange(a, 0, last, x) + (if a[last] == x then 1 else 0)
  {
    assert a[0..last + 1] == a[0..last] + [a[last]];
  }

  lemma CountFirstHalf()
    ensures multiset([1, 3, 3, 4, 3, 3, 7, 3, 3])[3] == 6
  {
  }

  lemma CountSecondHalf()
    ensures multiset([3, 2, 3, 5, 4, 2, 3, 4, 2])[3] == 3
  {
  }

  /** StdCount: six 3s in a[0..8], though the whole array holds nine. */
  lemma CountDemo()
    ensures var a := [1, 3, 3, 4, 3, 3, 7, 3, 3] + [3, 2, 3, 5, 4, 2, 3, 4, 2];
      CountRange(a, 0, 9, 3) == 6 && CountRange(a, 0, 18, 3) == 9
  {
    var p, q := [1, 3, 3, 4, 3, 3, 7, 3, 3], [3, 2, 3, 5, 4, 2, 3, 4, 2];
    var a := p + q;
    assert a[0..9] == p && a[0..18] == p + q;
    CountFirstHalf();
    CountSecondHalf();
  }

  /** The row-major loop: i outer, j inner. */
  method FillRowMajor(a: array2<int>, v: int)
    modifies a
    ensures forall i, j :: 0 <= i < a.Length0 && 0 <= j < a.Length1 ==> a[i, j] == v
  {
    for i := 0 to a.Length0
      invariant forall r, c :: 0 <= r < i && 0 <= c < a.Length1 ==> a[r, c] == v
    {
      for j := 0 to a.Length1
        invariant forall r, c :: 0 <= r < i && 0 <= c < a.Length1 ==> a[r, c] == v
        invariant forall c :: 0 <= c < j ==> a[i, c] == v
      {
        a[i, j] := v;
      }
    }
  }

  /** The column-major loop: j outer, i inner. It leaves the array in the
      same state as the row-major one. */
  method FillColumnMajor(a: array2<int>, v: int)
    modifies a
    ensures forall i, j :: 0 <= i < a.Length0 && 0 <= j < a.Length1 ==> a[i, j] == v
  {
    for j := 0 to a.Length1
      invariant forall r, c :: 0 <= r < a.Length0 && 0 <= c < j ==> a[r, c] == v
    {
      for i := 0 to a.Length0
        invariant forall r, c :: 0 <= r < a.Length0 && 0 <= c < j ==> a[r, c] == v
        invariant forall r :: 0 <= r < i ==> a[r, j] == v
      {
        a[i, j] := v;
      }
    }
  }

  /** RowMajorOrderVsColumnMajorOrder and MultiDimensionalArrays: a 3x6
      array filled with 1 in either order. */
  method FillDemo() returns (a: array2<int>)
    ensures a.Length0 == 3 && a.Length1 == 6
    ensures forall i, j :: 0 <= i < 3 && 0 <= j < 6 ==> a[i, j] == 1
  {
    a := new int[3, 6];
    FillRowMajor(a, 1);
    FillColumnMajor(a, 1);
  }

  /** `a[i][j] = v`: that cell changes and no other. */
  method SetCell(a: array2<int>, i: nat, j: nat, v: int)
    requires i < a.Length0 && j < a.Length1
    modifies a
    ensures a[i, j] == v
    ensures forall r, c :: 0 <= r < a.Length0 && 0 <= c < a.Length1 && (r, c) != (i, j) ==> a[r, c] == old(a[r, c])
  {
    a[i, j] := v;
  }

  /** `int a[2][2]{ {1, 0}, {0, 1} }; a[0][1] = 8;` gives {{1, 8}, {0, 1}}. */
  method CellDemo() returns (cells: seq<int>)
    ensures cells == [1, 8, 0, 1]
  {
    var a := new int[2, 2];
    a[0, 0], a[0, 1], a[1, 0], a[1, 1] := 1, 0, 0, 1;
    SetCell(a, 0, 1, 8);
    cells := [a[0, 0], a[0, 1], a[1, 0], a[1, 1]];
  }
}
