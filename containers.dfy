/** The container examples of Containers.h and CppExamples/Containers.h:
    the FileKey equality and hash used by unordered containers, remove_if
    followed by erase, the row-by-row fill of a two-dimensional field, the
    character histogram kept in a std::map, the repeated find_if loop over
    the odd elements, the std::set operations insert, emplace, erase and
    find, std::generate and std::generate_n, and the sorted-vector and
    std::map demos. A std::map or std::set is a Dafny map or set; the order
    in which one is enumerated is Algorithms.Ascending of its keys. */
module Containers {
  import opened Options
  import Algorithms
  import Templates

  /** FileKey: a file name and a numeric id. */
  datatype FileKey = FileKey(name: string, id: int)

  /** operator==: equal names and equal ids. */
  function KeyEquals(left: FileKey, right: FileKey): (b: bool)
    ensures b <==> left == right
  {
    left.name == right.name && left.id == right.id
  }

  /** operator== is an equivalence relation, as std::equal_to demands. */
  lemma KeyEqualsIsEquivalence(a: FileKey, b: FileKey, c: FileKey)
    ensures KeyEquals(a, a)
    ensures KeyEquals(a, b) ==> KeyEquals(b, a)
    ensures KeyEquals(a, b) && KeyEquals(b, c) ==> KeyEquals(a, c)
  {
  }

  /** std::hash<FileKey>: the exclusive-or of std::hash<string> of the name
      and std::hash<int> of the id, both size_t. The two library hashes are
      parameters. Either part hash is recovered from the key's hash and the
      other part, and equal part hashes cancel out to 0. */
  function HashKey(k: FileKey, hashName: string -> bv64, hashId: int -> bv64): (h: bv64)
    ensures h ^ hashId(k.id) == hashName(k.name) && h ^ hashName(k.name) == hashId(k.id)
    ensures hashName(k.name) == hashId(k.id) ==> h == 0
  {
    var x, y := hashName(k.name), hashId(k.id);
    XorCancels(x, y);
    x ^ y
  }

  lemma XorCancels(x: bv64, y: bv64)
    ensures (x ^ y) ^ y == x && (x ^ y) ^ x == y
    ensures x == y ==> x ^ y == 0
  {
  }

  /** Keys that operator== calls equal hash equally, whatever the two
      library hashes are. */
  lemma EqualKeysHashEqually(a: FileKey, b: FileKey, hashName: string -> bv64, hashId: int -> bv64)
    requires KeyEquals(a, b)
    ensures HashKey(a, hashName, hashId) == HashKey(b, hashName, hashId)
  {
  }

  /** The negation of a predicate: what remove_if keeps. */
  function Complement(p: int -> bool): int -> bool {
    x => !p(x)
  }

  /** std::remove_if over a whole vector: shifts the elements that fail `p`
      to the front in their original order and returns the new end. The
      positions from the new end on are never written, so they keep their
      old values. */
  method RemoveIf(a: array<int>, p: int -> bool) returns (newEnd: nat)
    modifies a
    ensures newEnd <= a.Length
    ensures a[..newEnd] == Algorithms.Keep(old(a[..]), Complement(p))
    ensures a[newEnd..] == old(a[..])[newEnd..]
  {
    ghost var s := a[..];
    var w := 0;
    for r := 0 to a.Length
      invariant w <= r
      invariant a[..w] == Algorithms.Keep(s[..r], Complement(p))
      invariant a[w..] == s[w..]
    {
      assert s[..r + 1] == s[..r] + [s[r]];
      Algorithms.KeepConcat(s[..r], [s[r]], Complement(p));
      assert a[r] == s[r];
      if !p(a[r]) {
        a[w] := a[r];
        w := w + 1;
      }
    }
    assert s[..a.Length] == s;
    newEnd := w;
  }

  /** After remove_if and erase the vector holds exactly the elements that
      fail `p`, each as often as before, and in their original order. */
  lemma RemoveEraseKeepsTheRest(s: seq<int>, p: int -> bool, t: seq<int>)
    ensures forall y :: multiset(Algorithms.Keep(s, Complement(p)))[y] == if p(y) then 0 else multiset(s)[y]
    ensures Algorithms.Keep(s + t, Complement(p)) == Algorithms.Keep(s, Complement(p)) + Algorithms.Keep(t, Complement(p))
  {
    Algorithms.KeepMultiset(s, Complement(p));
    Algorithms.KeepConcat(s, t, Complement(p));
  }

  function IsThree(elem: int): bool {
    elem == 3
  }

  /** remove_if over a vector holding `v`, then erase(new_end, end): the
      vector before the erase, and after it. */
  method RemoveThenErase(v: seq<int>, p: int -> bool) returns (removed: seq<int>, erased: seq<int>)
    ensures erased == Algorithms.Keep(v, Complement(p))
    ensures removed == erased + v[|erased|..]
  {
    var a := new int[|v|](i requires 0 <= i < |v| => v[i]);
    assert a[..] == v;
    var newEnd := RemoveIf(a, p);
    removed, erased := a[..], a[..newEnd];
    assert removed == a[..newEnd] + a[newEnd..];
  }

  /** RemovingElements: remove_if of the 3s in {3,4,1,3,2,5} leaves six
      elements 4,1,2,5,2,5, and erase cuts them down to 4,1,2,5; the
      one-line form gives the same. */
  method RemovingElements() returns (removed: seq<int>, v1: seq<int>, v2: seq<int>)
    ensures removed == [4, 1, 2, 5, 2, 5]
    ensures v1 == [4, 1, 2, 5] && v2 == v1
  {
    var v := [3, 4, 1, 3, 2, 5];
    RemoveThreesDemo();
    removed, v1 := RemoveThenErase(v, IsThree);
    assert v[4..] == [2, 5];
    var ignored;
    ignored, v2 := RemoveThenErase(v, IsThree);
  }

  lemma RemoveThreesDemo()
    ensures Algorithms.Keep([3, 4, 1, 3, 2, 5], Complement(IsThree)) == [4, 1, 2, 5]
  {
    var s := [3, 4, 1, 3, 2, 5];
    assert s[1..] == [4, 1, 3, 2, 5];
    assert s[1..][1..] == [1, 3, 2, 5];
    assert s[1..][1..][1..] == [3, 2, 5];
    assert s[1..][1..][1..][1..] == [2, 5];
    assert s[1..][1..][1..][1..][1..] == [5];
    assert Algorithms.Keep([5], Complement(IsThree)) == [5];
    assert Algorithms.Keep([2, 5], Complement(IsThree)) == [2, 5];
    assert Algorithms.Keep([3, 2, 5], Complement(IsThree)) == [2, 5];
    assert Algorithms.Keep([1, 3, 2, 5], Complement(IsThree)) == [1, 2, 5];
    assert Algorithms.Keep([4, 1, 3, 2, 5], Complement(IsThree)) == [4, 1, 2, 5];
  }

  /** Vector2D: a rows x cols field filled row by row with a running counter,
      so that every cell holds its row-major position x*cols + y. */
  method FillField(rows: nat, cols: nat) returns (field: array2<int>)
    ensures field.Length0 == rows && field.Length1 == cols
    ensures forall x, y :: 0 <= x < rows && 0 <= y < cols ==> field[x, y] == x * cols + y
  {
    field := new int[rows, cols];
    var n := 0;
    for x := 0 to rows
      invariant n == x * cols
      invariant forall i, j :: 0 <= i < x && 0 <= j < cols ==> field[i, j] == i * cols + j
    {
      for y := 0 to cols
        invariant n == x * cols + y
        invariant forall i, j :: 0 <= i < x && 0 <= j < cols ==> field[i, j] == i * cols + j
        invariant forall j :: 0 <= j < y ==> field[x, j] == x * cols + j
      {
        field[x, y] := n;
        n := n + 1;
      }
    }
  }

  /** Different cells hold different numbers, and every number lies below
      rows*cols: the fill numbers the cells 0 .. rows*cols-1 one to one. */
  lemma CellNumbersAreDistinct(rows: nat, cols: nat, x1: nat, y1: nat, x2: nat, y2: nat)
    requires x1 < rows && x2 < rows && y1 < cols && y2 < cols
    ensures x1 * cols + y1 < rows * cols
    ensures x1 * cols + y1 == x2 * cols + y2 ==> x1 == x2 && y1 == y2
  {
    RowStartsBelow(x1, rows, cols);
    if x1 < x2 {
      RowStartsBelow(x1, x2, cols);
    } else if x2 < x1 {
      RowStartsBelow(x2, x1, cols);
    }
  }

  lemma RowStartsBelow(x: nat, z: nat, cols: nat)
    requires x < z
    ensures x * cols + cols <= z * cols
  {
    assert x * cols + cols == (x + 1) * cols;
    assert (x + 1) * cols <= z * cols by {
      assert z * cols - (x + 1) * cols == (z - (x + 1)) * cols;
    }
  }

  /** Both Vector2D functions: the 5x3 field counts 0 to 14 row by row. */
  method Vector2D() returns (field: array2<int>)
    ensures field.Length0 == 5 && field.Length1 == 3
    ensures field[0, 0] == 0 && field[1, 0] == 3 && field[2, 1] == 7 && field[4, 2] == 14
  {
    field := FillField(5, 3);
  }

  /** isalpha in the "C" locale. */
  predicate IsAlpha(c: char) {
    'a' <= c <= 'z' || 'A' <= c <= 'Z'
  }

  /** The histogram loop: for each alphabetic character its count is
      incremented, a missing key starting from zero. */
  method Histogram(text: string) returns (histogram: map<char, int>)
    ensures histogram.Keys == Letters(text)
    ensures forall c :: c in histogram ==> histogram[c] == Algorithms.Count(text, c)
  {
    histogram := map[];
    for i := 0 to |text|
      invariant histogram.Keys == Letters(text[..i])
      invariant forall c :: c in histogram ==> histogram[c] == Algorithms.Count(text[..i], c)
    {
      assert text[..i + 1] == text[..i] + [text[i]];
      var c := text[i];
      if IsAlpha(c) {
        histogram := histogram[c := (if c in histogram then histogram[c] else 0) + 1];
      }
    }
    assert text[..|text|] == text;
  }

  /** The alphabetic characters occurring in a text. */
  function Letters(text: string): (r: set<char>)
    ensures forall c :: c in r <==> IsAlpha(c) && c in text
  {
    set c | c in text && IsAlpha(c)
  }

  lemma CharLessIsTotal()
    ensures Algorithms.StrictTotalOrder(Templates.CharLess)
  {
  }

  /** The text "to be, or not to be", written word by word so that each
      character can be counted piece by piece. */
  function ToBe(): string {
    "to" + " be" + "," + " or" + " not" + " to" + " be"
  }

  /** How often a character occurs in the text, piece by piece. */
  lemma CountPieces(c: char)
    ensures Algorithms.Count(ToBe(), c) == multiset("to")[c] + 2 * multiset(" be")[c] + multiset(",")[c]
      + multiset(" or")[c] + multiset(" not")[c] + multiset(" to")[c]
  {
  }

  /** Its letters are b, e, n, o, r and t. */
  lemma HistogramLetters()
    ensures Letters(ToBe()) == {'b', 'e', 'n', 'o', 'r', 't'}
  {
    assert forall c :: c in ToBe() <==> c in "to" || c in " be" || c in "," || c in " or" || c in " not" || c in " to";
  }

  /** b occurs twice. */
  lemma HistogramCountB()
    ensures Algorithms.Count(ToBe(), 'b') == 2
  {
    CountPieces('b');
  }

  /** e occurs twice. */
  lemma HistogramCountE()
    ensures Algorithms.Count(ToBe(), 'e') == 2
  {
    CountPieces('e');
  }

  /** n occurs once. */
  lemma HistogramCountN()
    ensures Algorithms.Count(ToBe(), 'n') == 1
  {
    CountPieces('n');
  }

  /** o occurs 4 times. */
  lemma HistogramCountO()
    ensures Algorithms.Count(ToBe(), 'o') == 4
  {
    CountPieces('o');
  }

  /** r occurs once. */
  lemma HistogramCountR()
    ensures Algorithms.Count(ToBe(), 'r') == 1
  {
    CountPieces('r');
  }

  /** t occurs 3 times. */
  lemma HistogramCountT()
    ensures Algorithms.Count(ToBe(), 't') == 3
  {
    CountPieces('t');
  }

  /** A map with the letters b, e, n, o, r, t as keys is enumerated in
      that order. */
  lemma HistogramOrder(keys: set<char>)
    requires keys == {'b', 'e', 'n', 'o', 'r', 't'}
    ensures Algorithms.Ascending(keys, Templates.CharLess) == "benort"
  {
    CharLessIsTotal();
    Algorithms.AscendingIsUnique(keys, Templates.CharLess, "benort");
  }

  /** The map is determined by its keys and their counts. */
  lemma HistogramValues(histogram: map<char, int>)
    requires histogram.Keys == {'b', 'e', 'n', 'o', 'r', 't'}
    requires histogram['b'] == 2 && histogram['e'] == 2 && histogram['n'] == 1
    requires histogram['o'] == 4 && histogram['r'] == 1 && histogram['t'] == 3
    ensures histogram == map['b' := 2, 'e' := 2, 'n' := 1, 'o' := 4, 'r' := 1, 't' := 3]
  {
    var expected := map['b' := 2, 'e' := 2, 'n' := 1, 'o' := 4, 'r' := 1, 't' := 3];
    assert expected.Keys == histogram.Keys;
    forall c | c in histogram.Keys ensures histogram[c] == expected[c] {
    }
  }

  /** The histogram of "to be, or not to be": b:2, e:2, n:1, o:4, r:1, t:3,
      listed in that order because a map is enumerated by ascending key. */
  method HistogramDemo() returns (histogram: map<char, int>)
    ensures histogram == map['b' := 2, 'e' := 2, 'n' := 1, 'o' := 4, 'r' := 1, 't' := 3]
    ensures Algorithms.Ascending(histogram.Keys, Templates.CharLess) == "benort"
  {
    histogram := Histogram(ToBe());
    HistogramLetters();
    HistogramCountB();
    HistogramCountE();
    HistogramCountN();
    HistogramCountO();
    HistogramCountR();
    HistogramCountT();
    assert histogram['b'] == 2 && histogram['e'] == 2 && histogram['n'] == 1;
    assert histogram['o'] == 4 && histogram['r'] == 1 && histogram['t'] == 3;
    HistogramValues(histogram);
    HistogramOrder(histogram.Keys);
  }

  /** The lambda `n % 2`: C's truncating remainder by 2 is non-zero exactly
      when the Euclidean one is. */
  predicate IsOdd(n: int) {
    n % 2 != 0
  }

  /** The repeated find_if: starting at the begin iterator, each odd element
      found is output and the search resumes just after it. */
  method OddElements(vec: seq<int>) returns (out: seq<int>)
    ensures out == Algorithms.Keep(vec, IsOdd)
  {
    out := [];
    var odd := Algorithms.FindIf(vec, 0, IsOdd);
    NoneKept(vec[..odd], IsOdd);
    while odd < |vec|
      invariant odd <= |vec|
      invariant out == Algorithms.Keep(vec[..odd], IsOdd)
      invariant odd < |vec| ==> IsOdd(vec[odd])
      decreases |vec| - odd
    {
      var next := Algorithms.FindIf(vec, odd + 1, IsOdd);
      var gap := vec[odd + 1..next];
      assert vec[..next] == vec[..odd] + [vec[odd]] + gap;
      forall k | 0 <= k < |gap| ensures !IsOdd(gap[k]) {
        assert gap[k] == vec[odd + 1 + k];
      }
      NoneKept(gap, IsOdd);
      Algorithms.KeepConcat(vec[..odd] + [vec[odd]], gap, IsOdd);
      Algorithms.KeepConcat(vec[..odd], [vec[odd]], IsOdd);
      out := out + [vec[odd]];
      odd := next;
    }
    assert vec[..odd] == vec;
  }

  /** A stretch with no element satisfying `p` contributes nothing. */
  lemma {:induction false} NoneKept(s: seq<int>, p: int -> bool)
    requires forall k :: 0 <= k < |s| ==> !p(s[k])
    ensures Algorithms.Keep(s, p) == []
  {
    if s != [] {
      NoneKept(s[1..], p);
    }
  }

  /** The sorted vector {1,2,3,3,4,5} gives 1335. */
  method OddDemo() returns (out: seq<int>)
    ensures out == [1, 3, 3, 5]
  {
    out := OddElements([1, 2, 3, 3, 4, 5]);
    var s := [1, 2, 3, 3, 4, 5];
    assert s[1..] == [2, 3, 3, 4, 5];
    assert s[1..][1..] == [3, 3, 4, 5];
    assert s[1..][1..][1..] == [3, 4, 5];
    assert s[1..][1..][1..][1..] == [4, 5];
    assert s[1..][1..][1..][1..][1..] == [5];
    assert Algorithms.Keep([5], IsOdd) == [5];
    assert Algorithms.Keep([4, 5], IsOdd) == [5];
    assert Algorithms.Keep([3, 4, 5], IsOdd) == [3, 5];
    assert Algorithms.Keep([3, 3, 4, 5], IsOdd) == [3, 3, 5];
    assert Algorithms.Keep([2, 3, 3, 4, 5], IsOdd) == [3, 3, 5];
  }

  /** m is the first key of the set in its ascending order. */
  predicate IsMin(m: int, s: set<int>) {
    m in s && forall y :: y in s ==> m <= y
  }

  lemma MinExists(s: set<int>)
    requires s != {}
    ensures exists m :: IsMin(m, s)
  {
    Templates.IntLessIsTotal();
    var m := Algorithms.Least(s, Templates.IntLess);
    assert IsMin(m, s);
  }

  /** A std::set<int>: its keys, enumerated in ascending order. */
  class IntSet {
    var elems: set<int>

    constructor (init: set<int>)
      ensures elems == init
    {
      elems := init;
    }

    /** insert and emplace: the key is added unless present; the flag says
        whether an insertion took place. */
    method Emplace(x: int) returns (inserted: bool)
      modifies this
      ensures inserted <==> x !in old(elems)
      ensures elems == old(elems) + {x}
    {
      inserted := x !in elems;
      elems := elems + {x};
    }

    /** erase(key): the number of elements removed, 1 or 0. */
    method EraseKey(x: int) returns (removed: nat)
      modifies this
      ensures removed == if x in old(elems) then 1 else 0
      ensures elems == old(elems) - {x}
    {
      removed := if x in elems then 1 else 0;
      elems := elems - {x};
    }

    /** erase(begin(c)): removes the least key and returns the key after it,
        None standing for the end iterator. */
    method EraseFirst() returns (next: Option<int>)
      requires elems != {}
      modifies this
      ensures exists m :: IsMin(m, old(elems)) && elems == old(elems) - {m}
      ensures next.None? <==> elems == {}
      ensures next.Some? ==> IsMin(next.value, elems)
    {
      MinExists(elems);
      var m :| IsMin(m, elems);
      elems := elems - {m};
      if elems == {} {
        next := None;
      } else {
        MinExists(elems);
        var n :| IsMin(n, elems);
        next := Some(n);
      }
    }

    /** find(key) compared with end(c). */
    function Contains(x: int): (found: bool)
      reads this
      ensures found <==> x in elems
    {
      x in elems
    }
  }

  /** The std::set demo, first half: {1,2,4,5,3} has five keys; after
      insert(0), emplace(6) inserts and a second emplace(6) does not. */
  method SetInsertDemo() returns (c: IntSet, size: nat, inserted1: bool, inserted2: bool)
    ensures fresh(c) && c.elems == {0, 1, 2, 3, 4, 5, 6}
    ensures size == 5 && inserted1 && !inserted2
  {
    c := new IntSet({1, 2, 4, 5, 3});
    size := |c.elems|;
    var ignored := c.Emplace(0);
    inserted1 := c.Emplace(6);
    inserted2 := c.Emplace(6);
  }

  /** Second half: erase(begin) leaves 1 first; erase(6) removes one key
      and erase(123) none; 3 is found and 123 is not. */
  method SetEraseDemo() returns (next: Option<int>, erased6: nat, erased123: nat, found3: bool, found123: bool)
    ensures next == Some(1) && erased6 == 1 && erased123 == 0 && found3 && !found123
  {
    var c, size, inserted1, inserted2 := SetInsertDemo();
    SetDemoMinimums();
    next := c.EraseFirst();
    assert c.elems == {1, 2, 3, 4, 5, 6} by {
      var m :| IsMin(m, {0, 1, 2, 3, 4, 5, 6}) && c.elems == {0, 1, 2, 3, 4, 5, 6} - {m};
      MinIsUnique(m, 0, {0, 1, 2, 3, 4, 5, 6});
    }
    MinIsUnique(next.value, 1, {1, 2, 3, 4, 5, 6});
    erased6 := c.EraseKey(6);
    erased123 := c.EraseKey(123);
    found3 := c.Contains(3);
    found123 := c.Contains(123);
  }

  lemma MinIsUnique(m: int, n: int, s: set<int>)
    requires IsMin(m, s) && IsMin(n, s)
    ensures m == n
  {
  }

  lemma SetDemoMinimums()
    ensures IsMin(0, {0, 1, 2, 3, 4, 5, 6}) && IsMin(1, {1, 2, 3, 4, 5, 6})
    ensures {0, 1, 2, 3, 4, 5, 6} - {0} == {1, 2, 3, 4, 5, 6}
  {
  }

  /** The set {1,2,4,5,3} is enumerated as 1,2,3,4,5. */
  lemma SetOrderDemo()
    ensures Algorithms.Ascending({1, 2, 4, 5, 3}, Templates.IntLess) == [1, 2, 3, 4, 5]
  {
    Templates.IntLessIsTotal();
    Algorithms.AscendingIsUnique({1, 2, 4, 5, 3}, Templates.IntLess, [1, 2, 3, 4, 5]);
  }

  /** The values n, n+1, ... that a counter captured by reference hands
      out on `count` calls of `n++`. */
  function Counting(n: int, count: nat): (r: seq<int>)
    ensures |r| == count
    ensures forall k :: 0 <= k < count ==> r[k] == n + k
  {
    seq(count, k => n + k)
  }

  /** Counting on further continues where it stopped. */
  lemma CountingSplit(n: int, a: nat, b: nat)
    ensures Counting(n, a + b) == Counting(n, a) + Counting(n + a, b)
  {
  }

  /** std::generate with `[&n] { return n++; }`: v receives the counter's
      values in order, and the counter ends one past the last value
      written. */
  method Generate(v: array<int>, n: int) returns (after: int)
    modifies v
    ensures v[..] == Counting(n, v.Length)
    ensures after == n + v.Length
  {
    after := n;
    for i := 0 to v.Length
      invariant after == n + i
      invariant v[..i] == Counting(n, i)
    {
      v[i] := after;
      after := after + 1;
    }
  }

  /** std::generate_n(back_inserter(v), count, ...) with the same counter:
      count values appended after the existing elements. */
  method GenerateN(v: seq<int>, count: nat, n: int) returns (r: seq<int>, after: int)
    ensures r == v + Counting(n, count)
    ensures after == n + count
  {
    r, after := v, n;
    for i := 0 to count
      invariant r == v + Counting(n, i)
      invariant after == n + i
    {
      r := r + [after];
      after := after + 1;
    }
  }

  /** generate gives {1,2,3,4,5}; generate_n on five zeros gives
      {0,0,0,0,0,1,2,3,4,5}. */
  method GenerateDemo() returns (generated: seq<int>, appended: seq<int>)
    ensures generated == [1, 2, 3, 4, 5]
    ensures appended == [0, 0, 0, 0, 0, 1, 2, 3, 4, 5]
  {
    var v := new int[5](_ => 0);
    var n := Generate(v, 1);
    generated := v[..];
    var w := [0, 0, 0, 0, 0];
    appended, n := GenerateN(w, 5, 1);
    assert Counting(1, 5) == [1, 2, 3, 4, 5];
  }

  predicate DivisibleByFive(i: int) {
    i % 5 == 0
  }

  lemma SortedLiteral()
    ensures Algorithms.Sorted([1, 2, 3, 3, 4, 5])
  {
  }

  lemma SortedIsPermutation()
    ensures multiset([1, 2, 3, 3, 4, 5]) == multiset([3, 4, 1, 3, 2, 5])
  {
  }

  /** ContainerOperations: {3,4,1,3,2,5} sorts to 1 2 3 3 4 5, whatever
      sorting algorithm is used. */
  lemma SortDemo(sorted: seq<int>)
    requires Algorithms.Sorted(sorted) && multiset(sorted) == multiset([3, 4, 1, 3, 2, 5])
    ensures sorted == [1, 2, 3, 3, 4, 5]
  {
    SortedLiteral();
    SortedIsPermutation();
    Algorithms.SortedIsUnique(sorted, [1, 2, 3, 3, 4, 5]);
  }

  /** The sorted vector holds two 3s. */
  lemma CountDemo()
    ensures Algorithms.Count([1, 2, 3, 3, 4, 5], 3) == 2
  {
    assert multiset([1, 2, 3, 3, 4, 5])[3] == 2;
  }

  /** unique_copy of the sorted vector gives 1 2 3 4 5. */
  lemma UniqueCopyDemo()
    ensures Algorithms.UniqueCopy([1, 2, 3, 3, 4, 5]) == [1, 2, 3, 4, 5]
  {
    var s := [1, 2, 3, 3, 4, 5];
    assert s[1..] == [2, 3, 3, 4, 5];
    assert s[1..][1..] == [3, 3, 4, 5];
    assert s[1..][1..][1..] == [3, 4, 5];
    assert Algorithms.UniqueCopy([4, 5]) == [4, 5];
    assert Algorithms.UniqueCopy([3, 4, 5]) == [3, 4, 5];
    assert Algorithms.UniqueCopy([3, 3, 4, 5]) == [3, 4, 5];
    assert Algorithms.UniqueCopy([2, 3, 3, 4, 5]) == [2, 3, 4, 5];
  }

  /** The first element of the sorted vector divisible by 5 is 5. */
  lemma FindIfDemo()
    ensures Algorithms.FindIf([1, 2, 3, 3, 4, 5], 0, DivisibleByFive) == 5
  {
    var s := [1, 2, 3, 3, 4, 5];
    assert !DivisibleByFive(1) && !DivisibleByFive(2) && !DivisibleByFive(3) && !DivisibleByFive(4);
    assert Algorithms.FindIf(s, 4, DivisibleByFive) == 5;
    assert Algorithms.FindIf(s, 2, DivisibleByFive) == 5;
  }

  /** The Book record of MapContainer. */
  datatype Book = Book(id: int, title: string, author: string)

  /** map::insert: an existing key keeps its value. */
  function Insert<K, V>(m: map<K, V>, k: K, v: V): (r: map<K, V>)
    ensures k in m ==> r == m
    ensures k !in m ==> r == m[k := v]
  {
    if k in m then m else m[k := v]
  }

  /** MapContainer: books 1 and 3 stored with operator[], book 2 inserted
      as a pair; the map is enumerated 1, 2, 3, find(2) yields book3 and
      books[1] yields book1. */
  method MapContainer() returns (books: map<int, Book>, found: Book, fetched: Book)
    ensures Algorithms.Ascending(books.Keys, Templates.IntLess) == [1, 2, 3]
    ensures found == Book(2, "Y", "B") && fetched == Book(1, "X", "A")
  {
    var book1 := Book(1, "X", "A");
    var book2 := Book(3, "Z", "C");
    var book3 := Book(2, "Y", "B");
    books := map[];
    books := books[book1.id := book1];
    books := books[book2.id := book2];
    books := Insert(books, book3.id, book3);
    assert books.Keys == {1, 2, 3};
    Templates.IntLessIsTotal();
    Algorithms.AscendingIsUnique(books.Keys, Templates.IntLess, [1, 2, 3]);
    found := books[2];
    fetched := books[1];
  }
}
