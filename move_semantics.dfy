/** MoveSemantics.h and CppExamples/MoveSemantics.h: get(), the swap
    lambdas of Swapping on `int&`, the Resource class with its copy and move
    operations and swap, and std::reverse over a vector of Resources. An
    `int&` is a Cell object, so that two references to one int can be
    expressed. */
module MoveSemantics {

  /** get(): the rvalue 83. */
  function Get(): int {
    83
  }

  /** RValue: `int&& x = get()` and `int q = std::move(get())` both see 83. */
  lemma RValueDemo()
    ensures var x, q := Get(), Get(); x == 83 && q == 83
  {
  }

  /** An int object that a reference can point to. */
  class Cell {
    var v: int

    constructor (v: int)
      ensures this.v == v
    {
      this.v := v;
    }
  }

  /** The `swap` lambda: `int tmp{x}; x = y; y = tmp;`. */
  method SwapByCopy(x: Cell, y: Cell)
    modifies x, y
    ensures x.v == old(y.v) && y.v == old(x.v)
  {
    var tmp := x.v;
    x.v := y.v;
    y.v := tmp;
  }

  /** The `betterSwap` lambda: the same steps through std::move, which on an
      int is a copy. */
  method SwapByMove(x: Cell, y: Cell)
    modifies x, y
    ensures x.v == old(y.v) && y.v == old(x.v)
  {
    var tmp := x.v;
    x.v := y.v;
    y.v := tmp;
  }

  /** std::swap on two ints. */
  method StdSwap(x: Cell, y: Cell)
    modifies x, y
    ensures x.v == old(y.v) && y.v == old(x.v)
  {
    x.v, y.v := y.v, x.v;
  }

  /** Swapping: from (2, 5) three swaps in a row end at (5, 2). */
  method Swapping() returns (x: int, y: int)
    ensures x == 5 && y == 2
  {
    var cx := new Cell(2);
    var cy := new Cell(5);
    SwapByCopy(cx, cy);
    SwapByMove(cx, cy);
    StdSwap(cx, cy);
    x, y := cx.v, cy.v;
  }

  /** Resource: a named object whose name moves, copies and swaps. */
  class Resource {
    var name: string

    /** Resource(): the empty name. */
    constructor Default()
      ensures name == ""
    {
      name := "";
    }

    /** Resource(string name). */
    constructor Named(name: string)
      ensures this.name == name
    {
      this.name := name;
    }

    /** The copy constructor: the same name, the source untouched. */
    constructor Copy(other: Resource)
      ensures name == other.name
    {
      name := other.name;
    }

    /** The move constructor: the name is taken and the source is left
        with the empty string. */
    constructor Move(other: Resource)
      modifies other
      ensures name == old(other.name) && other.name == ""
    {
      name := other.name;
      new;
      other.name := "";
    }

    /** Copy assignment: the name is copied; self-assignment is harmless. */
    method CopyAssign(other: Resource)
      modifies this
      ensures name == old(other.name)
    {
      name := other.name;
    }

    /** Move assignment: from another object the name is taken and the
        other's name cleared; self-assignment changes nothing. */
    method MoveAssign(other: Resource)
      modifies this, other
      ensures other != this ==> name == old(other.name) && other.name == ""
      ensures other == this ==> name == old(name)
    {
      if this != other {
        name := other.name;
        other.name := "";
      }
    }

    /** swap: the two names are exchanged. */
    method Swap(other: Resource)
      modifies this, other
      ensures name == old(other.name) && other.name == old(name)
    {
      name, other.name := other.name, name;
    }
  }

  /** The free swap, found by the standard algorithms. */
  method SwapResources(left: Resource, right: Resource)
    modifies left, right
    ensures left.name == old(right.name) && right.name == old(left.name)
  {
    left.Swap(right);
  }

  /** A copy leaves two equal, independent resources; a move then empties
      the copy that was moved from. */
  method CopyThenMove() returns (original: string, copied: string, moved: string, left: string)
    ensures original == "A" && copied == "" && moved == "A" && left == "A"
  {
    var a := new Resource.Named("A");
    var b := new Resource.Copy(a);
    var c := new Resource.Move(b);
    original, copied, moved := a.name, b.name, c.name;
    var d := new Resource.Default();
    d.CopyAssign(a);
    d.MoveAssign(d);
    left := d.name;
  }

  /** The names of the resources held by a vector. */
  function Names(c: array<Resource>): seq<string>
    reads c, set k | 0 <= k < c.Length :: c[k]
  {
    seq(c.Length, k reads c, set k | 0 <= k < c.Length :: c[k] requires 0 <= k < c.Length => c[k].name)
  }

  /** The swaps std::reverse makes on n elements: the k-th pairs position k
      with position n - 1 - k, for k below n / 2. */
  function ReverseSwaps(names: seq<string>): (r: seq<(string, string)>)
    ensures |r| == |names| / 2
    ensures forall k :: 0 <= k < |r| ==> r[k] == (names[k], names[|names| - 1 - k])
  {
    seq(|names| / 2, k requires 0 <= k < |names| / 2 => (names[k], names[|names| - 1 - k]))
  }

  /** iter_swap at two positions of a vector of distinct resources: only
      those two names change. */
  method SwapAt(c: array<Resource>, i: nat, j: nat)
    requires i < j < c.Length
    requires forall a, b :: 0 <= a < b < c.Length ==> c[a] != c[b]
    modifies c[i], c[j]
    ensures Names(c) == old(Names(c))[i := old(c[j].name)][j := old(c[i].name)]
  {
    ghost var before := Names(c);
    SwapResources(c[i], c[j]);
    assert forall k :: 0 <= k < c.Length && k != i && k != j ==> c[k].name == before[k];
  }

  /** The names after the first `i` swaps of std::reverse: the outer `i`
      positions at each end hold their mirror's name, the middle is as it
      was. */
  function ReversedUpTo(names: seq<string>, i: nat): (r: seq<string>)
    ensures |r| == |names|
  {
    seq(|names|, k requires 0 <= k < |names| =>
      if k < i || k >= |names| - i then names[|names| - 1 - k] else names[k])
  }

  /** One more swap of the two middle ends extends the reversed part by one
      position at each end. */
  lemma ReverseStep(names: seq<string>, i: nat)
    requires i < |names| - 1 - i
    ensures ReversedUpTo(names, i)[i := names[|names| - 1 - i]][|names| - 1 - i := names[i]]
      == ReversedUpTo(names, i + 1)
  {
  }

  /** The names in reverse order. */
  function Reversed(names: seq<string>): (r: seq<string>)
    ensures |r| == |names|
  {
    seq(|names|, k requires 0 <= k < |names| => names[|names| - 1 - k])
  }

  /** Before any swap nothing is reversed; after |names| / 2 swaps
      everything is. */
  lemma ReversedUpToEnds(names: seq<string>)
    ensures ReversedUpTo(names, 0) == names
    ensures ReversedUpTo(names, |names| / 2) == Reversed(names)
  {
  }

  /** std::reverse(begin(c), end(c)) with Resource's swap: swaps the ends
      inwards and reports each swap as the two names it printed. */
  method ReverseResources(c: array<Resource>) returns (swaps: seq<(string, string)>)
    requires forall i, j :: 0 <= i < j < c.Length ==> c[i] != c[j]
    modifies set k | 0 <= k < c.Length :: c[k]
    ensures Names(c) == Reversed(old(Names(c)))
    ensures swaps == ReverseSwaps(old(Names(c)))
  {
    ghost var names := Names(c);
    ReversedUpToEnds(names);
    var i, j := 0, c.Length - 1;
    swaps := [];
    while i < j
      invariant 0 <= i <= c.Length / 2 && j == c.Length - 1 - i
      invariant Names(c) == ReversedUpTo(names, i)
      invariant swaps == ReverseSwaps(names)[..i]
    {
      assert ReverseSwaps(names)[..i + 1] == ReverseSwaps(names)[..i] + [(names[i], names[j])];
      assert c[i].name == Names(c)[i] && c[j].name == Names(c)[j];
      swaps := swaps + [(c[i].name, c[j].name)];
      SwapAt(c, i, j);
      ReverseStep(names, i);
      i, j := i + 1, j - 1;
    }
  }

  lemma ReverseFive()
    ensures Reversed(["A", "B", "C", "D", "E"]) == ["E", "D", "C", "B", "A"]
    ensures ReverseSwaps(["A", "B", "C", "D", "E"]) == [("A", "E"), ("B", "D")]
  {
  }

  /** The vector A, B, C, D, E reversed: two swaps, A with E and B with D,
      and C stays in the middle. */
  method ReverseDemo() returns (names: seq<string>, swaps: seq<(string, string)>)
    ensures names == ["E", "D", "C", "B", "A"]
    ensures swaps == [("A", "E"), ("B", "D")]
  {
    var a := new Resource.Named("A");
    var b := new Resource.Named("B");
    var c := new Resource.Named("C");
    var d := new Resource.Named("D");
    var e := new Resource.Named("E");
    var v := new Resource[5][a, b, c, d, e];
    assert Names(v) == ["A", "B", "C", "D", "E"];
    swaps := ReverseResources(v);
    names := Names(v);
    ReverseFive();
  }
}
