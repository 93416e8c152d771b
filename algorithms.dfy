/** Models of the standard-library algorithms that the demos call: std::count,
    std::count_if, the survivors of std::remove_if, std::find_if,
    std::unique_copy, the result of std::sort, std::accumulate over ints, and
    the ascending key order in which std::map and std::set are enumerated.
    Each is a function on sequences with the property it guarantees stated
    in its contract or in a lemma beside it. */
module Algorithms {

  /** Sum of the elements, folded from the left as std::accumulate does. */
  function Sum(s: seq<int>): int
  {
    if s == [] then 0 else Sum(s[..|s| - 1]) + s[|s| - 1]
  }

  lemma {:induction false} SumConcat(a: seq<int>, b: seq<int>)
    ensures Sum(a + b) == Sum(a) + Sum(b)
  {
    if b == [] {
      assert a + b == a;
    } else {
      assert (a + b)[..|a + b| - 1] == a + b[..|b| - 1];
      SumConcat(a, b[..|b| - 1]);
    }
  }

  /** std::count: how many elements equal `x`. */
  function Count<T(==)>(s: seq<T>, x: T): (n: nat)
    ensures n == multiset(s)[x]
    ensures n <= |s|
  {
    if s == [] then 0
    else
      assert s == [s[0]] + s[1..];
      (if s[0] == x then 1 else 0) + Count(s[1..], x)
  }

  /** The elements for which `p` holds, in their original order: what
      std::copy_if produces, and what std::remove_if followed by erase keeps
      when it is given the negation of `p`. */
  function Keep<T>(s: seq<T>, p: T -> bool): (r: seq<T>)
    ensures |r| <= |s|
    ensures forall k :: 0 <= k < |r| ==> p(r[k])
  {
    if s == [] then []
    else if p(s[0]) then [s[0]] + Keep(s[1..], p)
    else Keep(s[1..], p)
  }

  /** std::count_if. */
  function CountIf<T>(s: seq<T>, p: T -> bool): (n: nat)
    ensures n <= |s|
  {
    if s == [] then 0 else (if p(s[0]) then 1 else 0) + CountIf(s[1..], p)
  }

  /** Keep distributes over concatenation: the survivors keep their order. */
  lemma {:induction false} KeepConcat<T>(a: seq<T>, b: seq<T>, p: T -> bool)
    ensures Keep(a + b, p) == Keep(a, p) + Keep(b, p)
  {
    if a == [] {
      assert a + b == b;
    } else {
      assert (a + b)[1..] == a[1..] + b;
      KeepConcat(a[1..], b, p);
    }
  }

  /** Keep removes exactly the elements that fail `p` and no others. */
  lemma {:induction false} KeepMultiset<T>(s: seq<T>, p: T -> bool)
    ensures forall y :: multiset(Keep(s, p))[y] == if p(y) then multiset(s)[y] else 0
  {
    if s != [] {
      KeepMultiset(s[1..], p);
      assert s == [s[0]] + s[1..];
    }
  }

  /** count_if counts exactly the elements that Keep keeps. */
  lemma {:induction false} CountIfIsKeepLength<T>(s: seq<T>, p: T -> bool)
    ensures CountIf(s, p) == |Keep(s, p)|
  {
    if s != [] {
      CountIfIsKeepLength(s[1..], p);
    }
  }

  /** std::find_if over [from, |s|): the first index at or after `from`
      whose element satisfies `p`, or |s| (the end iterator) when none does. */
  function FindIf<T>(s: seq<T>, from: nat, p: T -> bool): (i: nat)
    requires from <= |s|
    ensures from <= i <= |s|
    ensures i < |s| ==> p(s[i])
    ensures forall k :: from <= k < i ==> !p(s[k])
    decreases |s| - from
  {
    if from == |s| then |s|
    else if p(s[from]) then from
    else FindIf(s, from + 1, p)
  }

  /** std::unique_copy: copy the elements, dropping each one that equals the
      element just before it. */
  function UniqueCopy(s: seq<int>): (r: seq<int>)
    ensures |r| <= |s|
    ensures |s| > 0 ==> |r| > 0 && r[0] == s[0]
    ensures forall x :: x in r <==> x in s
    ensures forall k :: 0 <= k < |r| - 1 ==> r[k] != r[k + 1]
  {
    if |s| <= 1 then s
    else if s[0] == s[1] then UniqueCopy(s[1..])
    else
      assert forall x :: x in s <==> x == s[0] || x in s[1..];
      [s[0]] + UniqueCopy(s[1..])
  }

  /** unique_copy read as the stream it writes: nothing for no input, and
      each further element is written unless it equals the element just
      before it. Only adjacent repeats are dropped, so this pins the result
      down for every input. */
  lemma {:induction false} UniqueCopyStreams(s: seq<int>, x: int)
    ensures UniqueCopy([]) == []
    ensures UniqueCopy(s + [x]) == UniqueCopy(s) + (if s != [] && s[|s| - 1] == x then [] else [x])
    decreases |s|
  {
    if |s| >= 2 {
      var t := s[1..];
      assert (s + [x])[1..] == t + [x];
      assert t[|t| - 1] == s[|s| - 1];
      UniqueCopyStreams(t, x);
      if s[0] != s[1] {
        var tail := if s[|s| - 1] == x then [] else [x];
        assert [s[0]] + (UniqueCopy(t) + tail) == ([s[0]] + UniqueCopy(t)) + tail;
      }
    }
  }

  /** A value that comes back after another one is written again. */
  lemma UniqueCopyKeepsDistantRepeats()
    ensures UniqueCopy([1, 2, 1]) == [1, 2, 1]
  {
    assert [1, 2, 1][1..] == [2, 1];
    assert [2, 1][1..] == [1];
  }

  predicate Sorted(s: seq<int>) {
    forall i, j :: 0 <= i < j < |s| ==> s[i] <= s[j]
  }

  predicate StrictlyIncreasing(s: seq<int>) {
    forall i, j :: 0 <= i < j < |s| ==> s[i] < s[j]
  }

  /** On sorted input std::unique_copy leaves every value exactly once, in
      increasing order. */
  lemma {:induction false} UniqueCopyOfSorted(s: seq<int>)
    requires Sorted(s)
    ensures StrictlyIncreasing(UniqueCopy(s))
  {
    if |s| > 1 {
      UniqueCopyOfSorted(s[1..]);
      var r := UniqueCopy(s);
      var t := UniqueCopy(s[1..]);
      if s[0] != s[1] {
        assert r == [s[0]] + t;
        forall i, j | 0 <= i < j < |r| ensures r[i] < r[j] {
          if i == 0 {
            assert r[j] in s[1..];
          }
        }
      }
    }
  }

  /** The head of a sorted sequence is its least element, and what follows
      it is sorted too. */
  lemma SortedSplit(a: seq<int>, x: int)
    requires Sorted(a) && x in multiset(a)
    ensures a[0] <= x && Sorted(a[1..])
  {
    var k :| 0 <= k < |a| && a[k] == x;
  }

  lemma HeadTail(a: seq<int>)
    requires a != []
    ensures multiset(a[1..]) == multiset(a) - multiset{a[0]}
    ensures a[0] in multiset(a)
  {
    assert a == [a[0]] + a[1..];
  }

  /** Only one arrangement of a multiset is sorted, so whatever std::sort
      does internally its result is determined by its input. */
  lemma {:induction false} SortedIsUnique(a: seq<int>, b: seq<int>)
    requires Sorted(a) && Sorted(b) && multiset(a) == multiset(b)
    ensures a == b
    decreases |a|
  {
    assert |a| == |multiset(a)| == |multiset(b)| == |b|;
    if a != [] {
      HeadTail(a);
      HeadTail(b);
      SortedSplit(a, b[0]);
      SortedSplit(b, a[0]);
      assert a[0] == b[0];
      assert multiset(a[1..]) == multiset(b[1..]);
      assert Sorted(a[1..]) && Sorted(b[1..]);
      SortedIsUnique(a[1..], b[1..]);
    }
  }

  /** A strict total order on T, the requirement std::map and std::set put on
      their comparison. */
  ghost predicate StrictTotalOrder<T(!new)>(less: (T, T) -> bool) {
    && (forall x :: !less(x, x))
    && (forall x, y, z :: less(x, y) && less(y, z) ==> less(x, z))
    && (forall x, y :: x != y ==> less(x, y) || less(y, x))
  }

  ghost predicate IsLeast<T>(m: T, s: set<T>, less: (T, T) -> bool) {
    m in s && forall y :: y in s && y != m ==> less(m, y)
  }

  lemma {:induction false} LeastExists<T(!new)>(s: set<T>, less: (T, T) -> bool)
    requires StrictTotalOrder(less) && s != {}
    ensures exists m :: IsLeast(m, s, less)
    decreases |s|
  {
    var x :| x in s;
    var rest := s - {x};
    if rest == {} {
      assert s == {x};
      assert IsLeast(x, s, less);
    } else {
      LeastExists(rest, less);
      var m :| IsLeast(m, rest, less);
      if less(x, m) {
        forall y | y in s && y != x ensures less(x, y) {
          if y != m {
            assert less(m, y);
          }
        }
        assert IsLeast(x, s, less);
      } else {
        assert x != m;
        assert less(m, x);
        assert IsLeast(m, s, less);
      }
    }
  }

  /** The least element itself, for callers that need it by name. */
  lemma Least<T(!new)>(s: set<T>, less: (T, T) -> bool) returns (m: T)
    requires StrictTotalOrder(less) && s != {}
    ensures IsLeast(m, s, less)
  {
    LeastExists(s, less);
    m :| IsLeast(m, s, less);
  }

  lemma LeastIsUnique<T(!new)>(m1: T, m2: T, s: set<T>, less: (T, T) -> bool)
    requires StrictTotalOrder(less) && IsLeast(m1, s, less) && IsLeast(m2, s, less)
    ensures m1 == m2
  {
  }

  /** An increasing enumeration of `keys` starts with the least key and goes
      on with an increasing enumeration of the others. */
  lemma IncreasingSplit<T(!new)>(keys: set<T>, less: (T, T) -> bool, s: seq<T>)
    requires StrictTotalOrder(less) && s != []
    requires forall x :: x in s <==> x in keys
    requires forall i, j :: 0 <= i < j < |s| ==> less(s[i], s[j])
    ensures IsLeast(s[0], keys, less)
    ensures forall x :: x in s[1..] <==> x in keys - {s[0]}
  {
    forall y | y in keys && y != s[0] ensures less(s[0], y) {
      var k :| 0 <= k < |s| && s[k] == y;
    }
    forall x ensures x in s[1..] <==> x in keys - {s[0]} {
      if x in s[1..] {
        var k :| 1 <= k < |s| && s[k] == x;
        assert less(s[0], s[k]);
      }
      if x in keys - {s[0]} {
        var k :| 0 <= k < |s| && s[k] == x;
        assert s[1..][k - 1] == x;
      }
    }
  }

  /** The keys of an ordered container in the order in which iterating it
      visits them: every key once, each smaller than the next. */
  ghost function Ascending<T(!new)>(keys: set<T>, less: (T, T) -> bool): (r: seq<T>)
    requires StrictTotalOrder(less)
    ensures |r| == |keys|
    ensures forall x :: x in r <==> x in keys
    ensures forall i, j :: 0 <= i < j < |r| ==> less(r[i], r[j])
    decreases |keys|
  {
    if keys == {} then []
    else
      LeastExists(keys, less);
      var m :| IsLeast(m, keys, less);
      var rest := Ascending(keys - {m}, less);
      PrependLeast(m, keys, less, rest);
      [m] + rest
  }

  /** Putting the least key in front of an increasing enumeration of the
      other keys enumerates all keys increasingly. */
  lemma PrependLeast<T>(m: T, keys: set<T>, less: (T, T) -> bool, rest: seq<T>)
    requires IsLeast(m, keys, less)
    requires |rest| == |keys - {m}|
    requires forall x :: x in rest <==> x in keys - {m}
    requires forall i, j :: 0 <= i < j < |rest| ==> less(rest[i], rest[j])
    ensures |[m] + rest| == |keys|
    ensures forall x :: x in [m] + rest <==> x in keys
    ensures forall i, j :: 0 <= i < j < |[m] + rest| ==> less(([m] + rest)[i], ([m] + rest)[j])
  {
    var r := [m] + rest;
    assert |keys - {m}| == |keys| - 1;
    forall i, j | 0 <= i < j < |r| ensures less(r[i], r[j]) {
      assert r[j] == rest[j - 1] && r[j] in keys - {m};
      if i > 0 {
        assert r[i] == rest[i - 1];
      }
    }
  }

  lemma AscendingUnfold<T(!new)>(keys: set<T>, less: (T, T) -> bool)
    requires StrictTotalOrder(less) && keys != {}
    ensures var r := Ascending(keys, less);
      IsLeast(r[0], keys, less) && r[1..] == Ascending(keys - {r[0]}, less)
  {
  }

  /** An increasing enumeration starts where Ascending starts. */
  lemma AscendingSameHead<T(!new)>(keys: set<T>, less: (T, T) -> bool, s: seq<T>)
    requires StrictTotalOrder(less) && keys != {}
    requires forall x :: x in s <==> x in keys
    requires forall i, j :: 0 <= i < j < |s| ==> less(s[i], s[j])
    ensures s != [] && s[0] == Ascending(keys, less)[0]
    ensures forall x :: x in s[1..] <==> x in keys - {s[0]}
  {
    var x :| x in keys;
    assert x in s;
    IncreasingSplit(keys, less, s);
    AscendingUnfold(keys, less);
    LeastIsUnique(s[0], Ascending(keys, less)[0], keys, less);
  }

  lemma SameHeadSameTail<T>(s: seq<T>, r: seq<T>)
    requires s != [] && r != [] && s[0] == r[0] && s[1..] == r[1..]
    ensures s == r
  {
    assert s == [s[0]] + s[1..];
    assert r == [r[0]] + r[1..];
  }

  lemma HeadIsElement<T>(s: seq<T>)
    requires s != []
    ensures s[0] in s
  {
  }

  /** Any enumeration of `keys` in increasing order is the one Ascending
      gives, so a test that lists the keys in order pins the iteration down. */
  lemma {:induction false} AscendingIsUnique<T(!new)>(keys: set<T>, less: (T, T) -> bool, s: seq<T>)
    requires StrictTotalOrder(less)
    requires forall x :: x in s <==> x in keys
    requires forall i, j :: 0 <= i < j < |s| ==> less(s[i], s[j])
    ensures s == Ascending(keys, less)
    decreases |keys|
  {
    if keys != {} {
      AscendingSameHead(keys, less, s);
      AscendingUnfold(keys, less);
      AscendingIsUnique(keys - {s[0]}, less, s[1..]);
      SameHeadSameTail(s, Ascending(keys, less));
    } else if s != [] {
      HeadIsElement(s);
      assert false;
    }
  }
}
