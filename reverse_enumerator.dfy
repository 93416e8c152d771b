/** The recursive enumerators print and reverse of ReverseEnumerator.h; the
    values they write to the console are returned as a sequence. */
module ReverseEnumerator {

  /** print(a, index, arraySize): writes exactly the slice from index up to
      arraySize, and nothing when index >= arraySize. */
  function Print(a: seq<int>, index: int, arraySize: int): (r: seq<int>)
    requires 0 <= index && arraySize <= |a|
    ensures index < arraySize ==> r == a[index..arraySize]
    ensures index >= arraySize ==> r == []
    decreases arraySize - index
  {
    if index < arraySize then
      assert a[index..arraySize] == [a[index]] + a[index + 1..arraySize];
      [a[index]] + Print(a, index + 1, arraySize)
    else []
  }

  /** reverse(a, index, firstIndex): writes the slice from firstIndex to
      index backwards, and nothing when index < firstIndex. */
  function Reverse(a: seq<int>, index: int, firstIndex: int): (r: seq<int>)
    requires 0 <= firstIndex && index < |a|
    ensures index >= firstIndex ==> r == Rev(a[firstIndex..index + 1])
    ensures index < firstIndex ==> r == []
    decreases index - firstIndex
  {
    if index >= firstIndex then
      assert a[firstIndex..index + 1] == a[firstIndex..index] + [a[index]];
      RevSnoc(a[firstIndex..index], a[index]);
      [a[index]] + Reverse(a, index - 1, firstIndex)
    else []
  }

  /** The elements of a sequence in reverse order, as a reference. */
  function Rev(s: seq<int>): (r: seq<int>)
    ensures |r| == |s|
    ensures forall k :: 0 <= k < |s| ==> r[k] == s[|s| - 1 - k]
  {
    if s == [] then [] else Rev(s[1..]) + [s[0]]
  }

  lemma {:induction false} RevRev(s: seq<int>)
    ensures Rev(Rev(s)) == s
  {
    var r := Rev(s);
    assert forall k :: 0 <= k < |s| ==> Rev(r)[k] == s[k];
  }

  /** Reversing a sequence with one more element at the end puts that
      element first. */
  lemma RevSnoc(s: seq<int>, x: int)
    ensures Rev(s + [x]) == [x] + Rev(s)
  {
    var l, r := Rev(s + [x]), [x] + Rev(s);
    forall k | 0 <= k < |l| ensures l[k] == r[k] {
      if k > 0 {
        assert (s + [x])[|s| - k] == s[|s| - 1 - (k - 1)];
      }
    }
  }

  /** The two calls of the demo: reverse from the last index down to 0
      prints what print prints, backwards. */
  lemma ReverseOfPrint(a: seq<int>, arraySize: int)
    requires 0 <= arraySize <= |a|
    ensures Reverse(a, arraySize - 1, 0) == Rev(Print(a, 0, arraySize))
  {
    if arraySize == 0 {
      assert Rev([]) == [];
    }
  }

  /** ReverseEnumerator on {0, 1, 2, 3, 4}. */
  lemma EnumeratorDemo()
    ensures Print([0, 1, 2, 3, 4], 0, 5) == [0, 1, 2, 3, 4]
    ensures Reverse([0, 1, 2, 3, 4], 4, 0) == [4, 3, 2, 1, 0]
  {
  }
}
