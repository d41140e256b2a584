/** The 3x3 board with seven tiles and two blanks: moves, their order and the Manhattan distance. */
module Puzzle {
  import opened Sequences

  type State = seq<nat>
  const CELLS: nat := 9
  const TILES: nat := 7

  function Abs(x: int): nat {
    if x < 0 then -x else x
  }

  function CellDistance(p: nat, q: nat): nat {
    Abs(p / 3 - q / 3) + Abs(p % 3 - q % 3)
  }

  predicate Adjacent(p: nat, q: nat) {
    p < CELLS && q < CELLS && CellDistance(p, q) == 1
  }

  /** Every tile is somewhere, no tile is twice; the two cells left over are blank. */
  ghost predicate Board(s: State) {
    && |s| == CELLS
    && (forall i :: 0 <= i < CELLS ==> s[i] <= TILES)
    && (forall i, j :: 0 <= i < j < CELLS && s[i] == s[j] ==> s[i] == 0)
    && (forall v :: 1 <= v <= TILES ==> v in s)
  }

  lemma BoardSize(s: State)
    requires Board(s)
    ensures |s| == CELLS
  {
  }

  function Swap(s: State, e: nat, j: nat): State
    requires e < |s| && j < |s|
  {
    s[e := s[j]][j := s[e]]
  }

  ghost predicate SwapOf(s: State, t: State, e: nat, j: nat) {
    |s| == CELLS && Adjacent(e, j) && s[e] == 0 && t == Swap(s, e, j)
  }

  /** One legal move: a blank changes places with a neighbour that is a tile. */
  ghost predicate Move(s: State, t: State) {
    t != s && exists e: nat, j: nat :: SwapOf(s, t, e, j)
  }

  lemma {:induction false} MoveKeepsBoard(s: State, t: State)
    requires Board(s) && Move(s, t)
    ensures Board(t)
  {
    var e: nat, j: nat :| SwapOf(s, t, e, j);
    forall v | 1 <= v <= TILES
      ensures v in t
    {
      assert v in s;
      var i :| 0 <= i < |s| && s[i] == v;
      assert t[if i == j then e else i] == v;
    }
  }

  lemma {:induction false} MoveIsReversible(s: State, t: State)
    requires Board(s) && Move(s, t)
    ensures Move(t, s)
  {
    var e: nat, j: nat :| SwapOf(s, t, e, j);
    assert s == Swap(t, j, e);
    assert SwapOf(t, s, j, e);
  }

  /** A list of boards, each one legal move after the one before. */
  ghost predicate Legal(p: seq<State>) {
    |p| >= 1 && forall i :: 0 < i < |p| ==> Move(p[i - 1], p[i])
  }

  ghost predicate Leads(p: seq<State>, from: State, to: State) {
    Legal(p) && p[0] == from && p[|p| - 1] == to
  }

  // ---------------------------------------------------------------- Manhattan distance

  /** `s.index(v)`. */
  function Index(s: State, v: nat): (i: nat)
    requires v in s
    ensures i < |s| && s[i] == v && v !in s[..i]
  {
    if s[0] == v then 0 else Index(s[1..], v) + 1
  }

  /** The distances of tiles 1 to n from their places in `goal`, added up. */
  function Manhattan(s: State, goal: State, n: nat): nat
    requires n <= TILES
    requires forall v :: 1 <= v <= n ==> v in s && v in goal
  {
    if n == 0 then 0
    else Manhattan(s, goal, n - 1) + CellDistance(Index(s, n), Index(goal, n))
  }

  ghost function Heuristic(s: State, goal: State): nat
    requires Board(s) && Board(goal)
  {
    Manhattan(s, goal, TILES)
  }

  lemma TilesOf(s: State)
    requires Board(s)
    ensures forall v :: 1 <= v <= TILES ==> v in s
  {
  }

  method GetManhattanDistance(from: State, to: State) returns (distance: nat)
    requires Board(from) && Board(to)
    ensures distance == Heuristic(from, to)
  {
    hide Index, Board;
    assert forall v :: 1 <= v <= TILES ==> v in from && v in to by { TilesOf(from); TilesOf(to); }
    distance := 0;
    for i := 1 to TILES + 1
      invariant distance == Manhattan(from, to, i - 1)
    {
      var fromPos := Index(from, i);
      var toPos := Index(to, i);
      distance := distance + Abs((fromPos / 3) as int - (toPos / 3)) + Abs((fromPos % 3) as int - (toPos % 3));
    }
  }

  lemma {:induction false} IndexIs(s: State, v: nat, i: nat)
    requires Board(s) && v >= 1 && i < CELLS && s[i] == v
    ensures v in s && Index(s, v) == i
  {
    var k := Index(s, v);
    assert forall m :: 0 <= m < k ==> s[..k][m] == s[m];
  }

  lemma ZeroDistance(p: nat, q: nat)
    ensures CellDistance(p, q) == 0 <==> p == q
  {
    assert p == 3 * (p / 3) + p % 3 && q == 3 * (q / 3) + q % 3;
  }

  lemma Triangle(p: nat, q: nat, r: nat)
    requires CellDistance(p, q) == 1
    ensures CellDistance(p, r) <= CellDistance(q, r) + 1
  {
  }

  lemma Blanks(s: State, t: State, e: nat, j: nat)
    requires t != s && SwapOf(s, t, e, j)
    ensures s[j] != 0 && CellDistance(j, e) == 1
  {
    assert s[j] != 0 || t == s;
  }

  /** A walk over neighbouring cells. */
  ghost predicate Walk(w: seq<nat>, p: nat, q: nat) {
    |w| >= 1 && w[0] == p && w[|w| - 1] == q && forall i :: 0 < i < |w| ==> Adjacent(w[i - 1], w[i])
  }

  lemma {:induction false} NoShorterWalk(w: seq<nat>, p: nat, q: nat)
    requires Walk(w, p, q)
    ensures |w| - 1 >= CellDistance(p, q)
    decreases |w|
  {
    if |w| > 1 {
      var v := w[1..];
      assert Adjacent(w[1 - 1], w[1]);
      assert Walk(v, w[1], q) by {
        forall i | 0 < i < |v|
          ensures Adjacent(v[i - 1], v[i])
        {
          assert Adjacent(w[i + 1 - 1], w[i + 1]);
        }
      }
      NoShorterWalk(v, w[1], q);
      Triangle(p, w[1], q);
    }
  }

  /** First along the row, then along the column. */
  lemma {:induction false} NextCell(p: nat, q: nat) returns (next: nat)
    requires p < CELLS && q < CELLS && p != q
    ensures next < CELLS && Adjacent(p, next) && CellDistance(next, q) == CellDistance(p, q) - 1
  {
    var row, col := p / 3, p % 3;
    assert p == 3 * row + col && q == 3 * (q / 3) + q % 3;
    if col < q % 3 {
      next := p + 1;
      assert next / 3 == row && next % 3 == col + 1;
    } else if col > q % 3 {
      next := p - 1;
      assert next / 3 == row && next % 3 == col - 1;
    } else if row < q / 3 {
      next := p + 3;
      assert next / 3 == row + 1 && next % 3 == col;
    } else {
      next := p - 3;
      assert next / 3 == row - 1 && next % 3 == col;
    }
  }

  lemma {:induction false} WalkOf(p: nat, q: nat) returns (w: seq<nat>)
    requires p < CELLS && q < CELLS
    ensures Walk(w, p, q) && |w| - 1 == CellDistance(p, q)
    decreases CellDistance(p, q)
  {
    hide CellDistance, Adjacent;
    ZeroDistance(p, q);
    if p == q {
      w := [p];
    } else {
      var next := NextCell(p, q);
      var v := WalkOf(next, q);
      w := [p] + v;
      forall i | 0 < i < |w|
        ensures Adjacent(w[i - 1], w[i])
      {
        assert i == 1 || Adjacent(v[i - 1 - 1], v[i - 1]);
      }
    }
  }

  /** What tile `n` adds to the estimate is the least number of steps from its cell to its cell in the goal. */
  lemma {:induction false} TileDistance(s: State, goal: State, n: nat) returns (w: seq<nat>)
    requires Board(s) && Board(goal) && 1 <= n <= TILES
    ensures n in s && n in goal
    ensures Walk(w, Index(s, n), Index(goal, n))
    ensures Manhattan(s, goal, n) == Manhattan(s, goal, n - 1) + |w| - 1
    ensures forall v :: Walk(v, Index(s, n), Index(goal, n)) ==> |w| <= |v|
  {
    hide CellDistance, Index;
    w := WalkOf(Index(s, n), Index(goal, n));
    forall v | Walk(v, Index(s, n), Index(goal, n))
      ensures |w| <= |v|
    {
      NoShorterWalk(v, Index(s, n), Index(goal, n));
    }
  }

  lemma StepChangesByOne(p: nat, q: nat, r: nat)
    requires p < CELLS && q < CELLS && r < CELLS && CellDistance(p, q) == 1
    ensures CellDistance(p, r) == CellDistance(q, r) + 1 || CellDistance(q, r) == CellDistance(p, r) + 1
  {
  }

  /** The moved tile changes its share by one, the others keep theirs. */
  lemma {:induction false} MoveShifts(s: State, t: State, goal: State, e: nat, j: nat, n: nat)
    requires Board(s) && Board(t) && Board(goal) && t != s && SwapOf(s, t, e, j) && n <= TILES
    ensures var a, b := Manhattan(s, goal, n), Manhattan(t, goal, n);
      if s[j] <= n then a == b + 1 || b == a + 1 else a == b
  {
    hide CellDistance, Index;
    Blanks(s, t, e, j);
    if n > 0 {
      MoveShifts(s, t, goal, e, j, n - 1);
      var i := Index(s, n);
      if n == s[j] {
        IndexIs(s, n, j);
        IndexIs(t, n, e);
        StepChangesByOne(j, e, Index(goal, n));
      } else {
        assert t[i] == n;
        IndexIs(t, n, i);
      }
    }
  }

  /** Every move changes the estimate by exactly one, up or down. */
  lemma {:induction false} MoveChangesByOne(s: State, t: State, goal: State)
    requires Board(s) && Board(goal) && Move(s, t)
    ensures Board(t)
    ensures Heuristic(s, goal) == Heuristic(t, goal) + 1 || Heuristic(t, goal) == Heuristic(s, goal) + 1
  {
    MoveKeepsBoard(s, t);
    var e: nat, j: nat :| SwapOf(s, t, e, j);
    MoveShifts(s, t, goal, e, j, TILES);
  }

  /** Consistency: one move lowers the estimate by at most one. */
  lemma {:induction false} Consistent(s: State, t: State, goal: State)
    requires Board(s) && Board(goal) && Move(s, t)
    ensures Board(t) && Heuristic(s, goal) <= Heuristic(t, goal) + 1
  {
    MoveChangesByOne(s, t, goal);
  }

  lemma {:induction false} SelfDistance(s: State, n: nat)
    requires n <= TILES && forall v :: 1 <= v <= n ==> v in s
    ensures Manhattan(s, s, n) == 0
  {
    hide CellDistance;
    if n > 0 {
      SelfDistance(s, n - 1);
      ZeroDistance(Index(s, n), Index(s, n));
    }
  }

  /** The estimate is zero at the goal and nowhere else. */
  lemma {:induction false} ZeroAtGoal(s: State, goal: State)
    requires Board(s) && Board(goal)
    ensures Heuristic(s, goal) == 0 <==> s == goal
  {
    hide CellDistance, Manhattan, Index;
    SelfDistance(goal, TILES);
    if Heuristic(s, goal) == 0 {
      forall v | 1 <= v <= TILES
        ensures Index(s, v) == Index(goal, v)
      {
        NoTileAway(s, goal, TILES, v);
      }
      forall i | 0 <= i < CELLS
        ensures s[i] == goal[i]
      {
        if s[i] != 0 {
          IndexIs(s, s[i], i);
        } else if goal[i] != 0 {
          IndexIs(goal, goal[i], i);
        }
      }
    }
  }

  lemma {:induction false} NoTileAway(s: State, goal: State, n: nat, v: nat)
    requires Board(s) && Board(goal) && 1 <= v <= n <= TILES && Manhattan(s, goal, n) == 0
    ensures Index(s, v) == Index(goal, v)
  {
    hide CellDistance, Index;
    if v < n {
      NoTileAway(s, goal, n - 1, v);
    } else {
      ZeroDistance(Index(s, n), Index(goal, n));
    }
  }

  // ---------------------------------------------------------------- successors

  /** Order of lists: the first difference decides. */
  predicate Less(a: State, b: State) {
    if b == [] then false
    else if a == [] then true
    else a[0] < b[0] || (a[0] == b[0] && Less(a[1..], b[1..]))
  }

  /** `i` is the first place where the lists differ. */
  ghost predicate FirstDifference(a: State, b: State, i: nat) {
    i <= |a| && i <= |b| && a[..i] == b[..i] && (i < |a| && i < |b| ==> a[i] != b[i])
  }

  /** The smaller list is the one with the smaller number at the first difference, or the one that ends there. */
  lemma {:induction false} LessMeans(a: State, b: State, i: nat)
    requires FirstDifference(a, b, i)
    ensures Less(a, b) <==> i < |b| && (i < |a| ==> a[i] < b[i])
  {
    if i > 0 {
      var a1, b1 := a[1..], b[1..];
      assert a[0] == a[..i][0] && b[0] == b[..i][0];
      assert a1[..i - 1] == a[..i][1..] && b1[..i - 1] == b[..i][1..];
      LessMeans(a1, b1, i - 1);
    }
  }

  lemma {:induction false} LessIsTotal(a: State, b: State)
    ensures Less(a, b) || a == b || Less(b, a)
  {
    if a != [] && b != [] && a[0] == b[0] {
      LessIsTotal(a[1..], b[1..]);
      assert a == [a[0]] + a[1..] && b == [b[0]] + b[1..];
    }
  }

  lemma {:induction false} LessIsTransitive(a: State, b: State, c: State)
    requires Less(a, b) && Less(b, c)
    ensures Less(a, c)
  {
    if a != [] && a[0] == b[0] && b[0] == c[0] {
      LessIsTransitive(a[1..], b[1..], c[1..]);
    }
  }

  lemma {:induction false} LessIsStrict(a: State, b: State)
    requires Less(a, b)
    ensures a != b && !Less(b, a)
  {
    if a != [] && a[0] == b[0] {
      LessIsStrict(a[1..], b[1..]);
    }
  }

  ghost predicate Ascending(xs: seq<State>) {
    forall i, j :: 0 <= i < j < |xs| ==> Less(xs[i], xs[j])
  }

  /** `sorted` for a list without duplicates. */
  function Sorted(xs: seq<State>): seq<State> {
    if xs == [] then [] else Placed(xs[0], Sorted(xs[1..]))
  }

  function Placed(x: State, xs: seq<State>): seq<State> {
    if xs == [] || Less(x, xs[0]) then [x] + xs else [xs[0]] + Placed(x, xs[1..])
  }

  lemma {:induction false} PlacedIs(x: State, xs: seq<State>)
    requires Ascending(xs) && x !in xs
    ensures Ascending(Placed(x, xs)) && multiset(Placed(x, xs)) == multiset{x} + multiset(xs)
  {
    if xs != [] && !Less(x, xs[0]) {
      hide Less;
      var rest := xs[1..];
      assert xs == [xs[0]] + rest;
      PlacedIs(x, rest);
      var r := Placed(x, rest);
      LessIsTotal(x, xs[0]);
      forall i | 0 <= i < |r|
        ensures Less(xs[0], r[i])
      {
        assert r[i] in multiset(r);
        if r[i] != x {
          assert r[i] in rest;
        }
      }
    } else if xs != [] {
      forall i | 0 <= i < |xs|
        ensures Less(x, xs[i])
      {
        if i > 0 {
          LessIsTransitive(x, xs[0], xs[i]);
        }
      }
    }
  }

  lemma {:induction false} SortedIs(xs: seq<State>)
    requires Distinct(xs)
    ensures Ascending(Sorted(xs)) && multiset(Sorted(xs)) == multiset(xs)
  {
    if xs != [] {
      SortedIs(xs[1..]);
      assert xs == [xs[0]] + xs[1..];
      assert xs[0] !in multiset(xs[1..]);
      assert xs[0] !in Sorted(xs[1..]);
      PlacedIs(xs[0], Sorted(xs[1..]));
    }
  }

  const MOVES: seq<(int, int)> := [(0, 1), (0, -1), (1, 0), (-1, 0)]

  /** Stepping by one of the four moves and staying on the board leads to the neighbours, all of them. */
  lemma {:induction false} StepsAreAdjacent(e: nat, k: nat)
    requires e < CELLS && k < 4
    ensures var row, col := e / 3 + MOVES[k].0, e % 3 + MOVES[k].1;
      0 <= row < 3 && 0 <= col < 3 ==> row * 3 + col < CELLS && Adjacent(e, row * 3 + col)
  {
  }

  predicate StepTo(e: nat, k: nat, j: nat) {
    && k < 4
    && var row, col := e / 3 + MOVES[k].0, e % 3 + MOVES[k].1;
       0 <= row < 3 && 0 <= col < 3 && row * 3 + col == j
  }

  lemma {:induction false} AdjacentByStep(e: nat, j: nat) returns (k: nat)
    requires Adjacent(e, j)
    ensures StepTo(e, k, j)
  {
    if j == e + 1 {
      k := 0;
    } else if j + 1 == e {
      k := 1;
    } else if j == e + 3 {
      k := 2;
    } else {
      k := 3;
    }
  }

  /** The swaps that the blanks before cell `e`, and blank `e` with its first `k` moves, lead to. */
  ghost predicate Reached(s: State, t: State, e: nat, k: nat) {
    && |s| == CELLS
    && exists b: nat, m: nat, j: nat :: SwapBy(s, t, b, m, j) && (b < e || (b == e && m < k))
  }

  ghost predicate SwapBy(s: State, t: State, b: nat, m: nat, j: nat) {
    && b < |s| && s[b] == 0 && StepTo(b, m, j) && j < |s| && t == Swap(s, b, j)
  }

  lemma {:induction false} AllReached(s: State, t: State)
    requires |s| == CELLS
    ensures Move(s, t) <==> t != s && Reached(s, t, CELLS, 0)
  {
    if Move(s, t) {
      var e: nat, j: nat :| SwapOf(s, t, e, j);
      var k := AdjacentByStep(e, j);
      assert SwapBy(s, t, e, k, j);
    }
    if t != s && Reached(s, t, CELLS, 0) {
      var b: nat, m: nat, j: nat :| SwapBy(s, t, b, m, j) && (b < CELLS || (b == CELLS && m < 0));
      StepsAreAdjacent(b, m);
      assert SwapOf(s, t, b, j);
    }
  }

  lemma {:induction false} ReachedNext(s: State, t: State, e: nat, k: nat)
    requires |s| == CELLS && e < CELLS && s[e] == 0 && k < 4
    ensures var row, col := e / 3 + MOVES[k].0, e % 3 + MOVES[k].1;
      Reached(s, t, e, k + 1) <==>
        Reached(s, t, e, k) || (0 <= row < 3 && 0 <= col < 3 && t == Swap(s, e, row * 3 + col))
  {
    var row, col := e / 3 + MOVES[k].0, e % 3 + MOVES[k].1;
    if 0 <= row < 3 && 0 <= col < 3 && t == Swap(s, e, row * 3 + col) {
      assert SwapBy(s, t, e, k, row * 3 + col);
    }
  }

  lemma {:induction false} ReachedCell(s: State, t: State, e: nat)
    requires |s| == CELLS && e < CELLS
    ensures Reached(s, t, e + 1, 0) <==> Reached(s, t, e, if s[e] == 0 then 4 else 0)
  {
  }

  /** The swaps of every blank with its neighbours, repetitions and the board itself included. */
  method Swaps(s: State) returns (ts: seq<State>)
    requires |s| == CELLS
    ensures forall t :: t in ts <==> Reached(s, t, CELLS, 0)
  {
    hide StepTo, Reached;
    ts := [];
    NoneReached(s);
    for e := 0 to CELLS
      invariant forall t :: t in ts <==> Reached(s, t, e, 0)
    {
      if s[e] == 0 {
        for k := 0 to 4
          invariant forall t :: t in ts <==> Reached(s, t, e, k)
        {
          var row, col := (e / 3) as int + MOVES[k].0, (e % 3) as int + MOVES[k].1;
          forall t
            ensures Reached(s, t, e, k + 1) <==>
                    Reached(s, t, e, k) || (0 <= row < 3 && 0 <= col < 3 && t == Swap(s, e, row * 3 + col))
          {
            ReachedNext(s, t, e, k);
          }
          ghost var before := ts;
          if 0 <= row < 3 && 0 <= col < 3 {
            ts := ts + [Swap(s, e, row * 3 + col)];
            assert forall t :: t in ts <==> t in before || t == Swap(s, e, row * 3 + col);
          }
          assert forall t :: t in ts <==> Reached(s, t, e, k + 1);
        }
      }
      ghost var done := if s[e] == 0 then 4 else 0;
      forall t
        ensures Reached(s, t, e + 1, 0) <==> Reached(s, t, e, done)
      {
        ReachedCell(s, t, e);
      }
    }
  }

  lemma NoneReached(s: State)
    ensures forall t :: !Reached(s, t, 0, 0)
  {
  }

  /** Exactly the boards one legal move away, each once, in the order of lists. */
  method GetSucc(s: State) returns (succ: seq<State>)
    requires |s| == CELLS
    ensures forall t :: t in succ <==> Move(s, t)
    ensures Ascending(succ) && Distinct(succ)
  {
    hide Reached, Move, Less;
    var all := Swaps(s);
    var dedupe: seq<State> := [];
    for i := 0 to |all|
      invariant Distinct(dedupe)
      invariant forall t :: t in dedupe <==> t in all[..i]
    {
      if all[i] !in dedupe {
        dedupe := dedupe + [all[i]];
      }
    }
    assert all[..|all|] == all;
    if s in dedupe {
      var p := Find(dedupe, s);
      var rest := dedupe[..p] + dedupe[p + 1..];
      assert forall k :: 0 <= k < |rest| ==> rest[k] == dedupe[if k < p then k else k + 1];
      assert forall t :: t in rest <==> t in dedupe && t != s by {
        RemovedOne(dedupe, p);
      }
      dedupe := rest;
    }
    forall t
      ensures Move(s, t) <==> t != s && Reached(s, t, CELLS, 0)
    {
      AllReached(s, t);
    }
    SortedIs(dedupe);
    succ := Sorted(dedupe);
    assert forall t :: t in succ <==> t in dedupe by { SameElements(succ, dedupe); }
    AscendingIsDistinct(succ);
  }

  /** Position of the first `x`. */
  function Find(xs: seq<State>, x: State): (p: nat)
    requires x in xs
    ensures p < |xs| && xs[p] == x
  {
    if xs[0] == x then 0 else Find(xs[1..], x) + 1
  }

  lemma {:induction false} RemovedOne(xs: seq<State>, p: nat)
    requires Distinct(xs) && p < |xs|
    ensures forall t :: t in xs[..p] + xs[p + 1..] <==> t in xs && t != xs[p]
  {
    var rest := xs[..p] + xs[p + 1..];
    forall t | t in xs && t != xs[p]
      ensures t in rest
    {
      var i :| 0 <= i < |xs| && xs[i] == t;
      assert rest[if i < p then i else i - 1] == t;
    }
  }

  lemma SameElements(xs: seq<State>, ys: seq<State>)
    requires multiset(xs) == multiset(ys)
    ensures forall t :: t in xs <==> t in ys
  {
    assert forall t :: t in xs <==> t in multiset(xs);
    assert forall t :: t in ys <==> t in multiset(ys);
  }

  lemma AscendingIsDistinct(xs: seq<State>)
    requires Ascending(xs)
    ensures Distinct(xs)
  {
    forall i, j | 0 <= i < j < |xs|
      ensures xs[i] != xs[j]
    {
      LessIsStrict(xs[i], xs[j]);
    }
  }
}
