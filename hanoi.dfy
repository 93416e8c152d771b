/** towerOfHanoi from TowerOfHanoi.h. The printed "source -> dest" lines
    are returned as a sequence of moves; a small simulation of the pegs shows
    that the moves are legal and carry the tower across. */
module Hanoi {
  import opened Options

  datatype Move = Move(from: int, to: int)

  /** towerOfHanoi(num, source, dest, temp): move num - 1 disks out of the
      way onto temp, the largest onto dest, then the num - 1 disks from temp
      onto dest. Nothing is printed for num <= 0; num disks take 2^num - 1
      moves. */
  function Moves(num: int, source: int, dest: int, temp: int): (r: seq<Move>)
    ensures num <= 0 ==> r == []
    ensures num >= 0 ==> |r| == Pow2(num) - 1
    decreases num
  {
    if num > 0 then
      Moves(num - 1, source, temp, dest) + [Move(source, dest)] + Moves(num - 1, temp, dest, source)
    else []
  }

  function Pow2(n: nat): (r: nat)
    ensures r >= 1
  {
    if n == 0 then 1 else 2 * Pow2(n - 1)
  }

  /** With three distinct peg labels every move goes between two different
      pegs among them. */
  lemma {:induction false} MovesBetweenPegs(num: int, source: int, dest: int, temp: int)
    requires source != dest && dest != temp && source != temp
    ensures forall m :: m in Moves(num, source, dest, temp) ==>
      m.from != m.to && m.from in {source, dest, temp} && m.to in {source, dest, temp}
    decreases num
  {
    if num > 0 {
      MovesBetweenPegs(num - 1, source, temp, dest);
      MovesBetweenPegs(num - 1, temp, dest, source);
    }
  }

  /** The demo: three disks from peg 1 to peg 3 through peg 2. */
  lemma MovesDemo()
    ensures Moves(3, 1, 3, 2) ==
      [Move(1, 3), Move(1, 2), Move(3, 2), Move(1, 3), Move(2, 1), Move(2, 3), Move(1, 3)]
  {
  }

  /** Disks are numbered by size; each peg lists its disks bottom to top. */
  type Pegs = map<int, seq<nat>>

  /** A move is legal when its source peg has a disk and that disk is
      smaller than the top disk of the destination, if any. */
  predicate CanMove(p: Pegs, m: Move) {
    && m.from in p && m.to in p
    && |p[m.from]| > 0
    && (|p[m.to]| == 0 || p[m.from][|p[m.from]| - 1] < p[m.to][|p[m.to]| - 1])
  }

  function Step(p: Pegs, m: Move): Pegs
    requires CanMove(p, m)
  {
    var top := p[m.from][|p[m.from]| - 1];
    var q := p[m.from := p[m.from][..|p[m.from]| - 1]];
    q[m.to := q[m.to] + [top]]
  }

  /** Plays the moves in order; None as soon as one is illegal. */
  function Run(p: Pegs, ms: seq<Move>): Option<Pegs>
    decreases |ms|
  {
    if ms == [] then Some(p)
    else if CanMove(p, ms[0]) then Run(Step(p, ms[0]), ms[1..])
    else None
  }

  lemma {:induction false} RunConcat(p: Pegs, a: seq<Move>, b: seq<Move>)
    ensures Run(p, a + b) == if Run(p, a).Some? then Run(Run(p, a).value, b) else None
    decreases |a|
  {
    if a == [] {
      assert a + b == b;
    } else {
      assert (a + b)[1..] == a[1..] + b;
      if CanMove(p, a[0]) {
        RunConcat(Step(p, a[0]), a[1..], b);
      }
    }
  }

  /** The disks num, num - 1, ..., 1 from bottom to top. */
  function Tower(num: nat): seq<nat> {
    if num == 0 then [] else [num] + Tower(num - 1)
  }

  predicate Above(s: seq<nat>, num: nat) {
    forall k :: 0 <= k < |s| ==> s[k] > num
  }

  lemma RunThree(p: Pegs, first: seq<Move>, middle: Move, second: seq<Move>, q: Pegs, r: Pegs, z: Pegs)
    requires Run(p, first) == Some(q) && CanMove(q, middle) && Step(q, middle) == r
    requires Run(r, second) == Some(z)
    ensures Run(p, first + [middle] + second) == Some(z)
  {
    RunConcat(p, first, [middle]);
    assert Run(q, [middle]) == Some(r);
    RunConcat(p, first + [middle], second);
  }

  /** `z` is `p` with the top `num` disks of source, sitting on `base`,
      moved onto dest: the same pegs, source down to `base`, dest topped by
      the tower, every other peg as it was. */
  predicate Moved(p: Pegs, z: Pegs, source: int, dest: int, base: seq<nat>, num: nat)
    requires source in p && dest in p
  {
    && z.Keys == p.Keys
    && z[source] == base
    && z[dest] == p[dest] + Tower(num)
    && forall k :: k in p && k != source && k != dest ==> z[k] == p[k]
  }

  lemma AbovePush(s: seq<nat>, num: nat)
    requires num > 0 && Above(s, num)
    ensures Above(s, num - 1) && Above(s + [num], num - 1)
  {
  }

  /** Step 2 of the recursion: with the smaller disks parked on temp, the
      largest disk may move from source to dest. */
  lemma MiddleStep(num: nat, source: int, dest: int, temp: int, p: Pegs, q: Pegs, base: seq<nat>)
    requires num > 0
    requires source != dest && dest != temp && source != temp
    requires source in p && dest in p && temp in p
    requires Above(p[dest], num)
    requires Moved(p, q, source, temp, base + [num], num - 1)
    ensures CanMove(q, Move(source, dest))
    ensures var r := Step(q, Move(source, dest));
      && r.Keys == p.Keys
      && r[source] == base && r[dest] == p[dest] + [num] && r[temp] == p[temp] + Tower(num - 1)
      && forall k :: k in p && k != source && k != dest && k != temp ==> r[k] == p[k]
  {
    assert q[source] == base + [num] && q[dest] == p[dest];
    assert (base + [num])[..|base + [num]| - 1] == base;
  }

  /** Step 3 completes the move of the whole tower. */
  lemma LastStep(num: nat, source: int, dest: int, temp: int, p: Pegs, r: Pegs, z: Pegs, base: seq<nat>)
    requires num > 0
    requires source != dest && dest != temp && source != temp
    requires source in p && dest in p && temp in p
    requires r.Keys == p.Keys
    requires r[source] == base && r[dest] == p[dest] + [num] && r[temp] == p[temp] + Tower(num - 1)
    requires forall k :: k in p && k != source && k != dest && k != temp ==> r[k] == p[k]
    requires Moved(r, z, temp, dest, p[temp], num - 1)
    ensures Moved(p, z, source, dest, base, num)
  {
    assert (p[dest] + [num]) + Tower(num - 1) == p[dest] + Tower(num);
  }

  lemma MovesUnfold(num: nat, source: int, dest: int, temp: int)
    requires num > 0
    ensures Moves(num, source, dest, temp)
      == Moves(num - 1, source, temp, dest) + [Move(source, dest)] + Moves(num - 1, temp, dest, source)
  {
  }

  /** The recursion moves a tower of num disks from source to dest without
      ever putting a disk on a smaller one, provided every disk already on
      the three pegs is larger; all other pegs are untouched. */
  lemma {:induction false} MovesSolve(num: nat, source: int, dest: int, temp: int, p: Pegs, base: seq<nat>)
    requires source != dest && dest != temp && source != temp
    requires source in p && dest in p && temp in p
    requires p[source] == base + Tower(num)
    requires Above(base, num) && Above(p[dest], num) && Above(p[temp], num)
    ensures Run(p, Moves(num, source, dest, temp)).Some?
    ensures Moved(p, Run(p, Moves(num, source, dest, temp)).value, source, dest, base, num)
    decreases num
  {
    if num == 0 {
      assert base + Tower(0) == base;
      assert p[dest] + Tower(0) == p[dest];
    } else {
      var first, middle, second :=
        Moves(num - 1, source, temp, dest), Move(source, dest), Moves(num - 1, temp, dest, source);
      MovesUnfold(num, source, dest, temp);
      assert p[source] == (base + [num]) + Tower(num - 1);
      AbovePush(base, num);
      AbovePush(p[dest], num);
      AbovePush(p[temp], num);
      MovesSolve(num - 1, source, temp, dest, p, base + [num]);
      var q := Run(p, first).value;
      MiddleStep(num, source, dest, temp, p, q, base);
      var r := Step(q, middle);
      MovesSolve(num - 1, temp, dest, source, r, p[temp]);
      var z := Run(r, second).value;
      LastStep(num, source, dest, temp, p, r, z, base);
      RunThree(p, first, middle, second, q, r, z);
    }
  }

  /** The demo's three disks all end on peg 3 and only legal moves are made. */
  lemma DemoSolves(start: Pegs)
    requires start == map[1 := [3, 2, 1], 2 := [], 3 := []]
    ensures Run(start, Moves(3, 1, 3, 2)).Some?
    ensures var z := Run(start, Moves(3, 1, 3, 2)).value;
      z.Keys == {1, 2, 3} && z[1] == [] && z[2] == [] && z[3] == [3, 2, 1]
  {
    assert Tower(3) == [3, 2, 1];
    assert start[1] == [] + Tower(3);
    MovesSolve(3, 1, 3, 2, start, []);
  }
}
