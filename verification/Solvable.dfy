/** Every board can be brought to every other: what funny_puzzle.py takes for granted when it follows the links
    back from the goal. The blanks go to the last two cells; with them there, any two neighbouring tiles in the
    order of reading can be exchanged; and exchanges sort. */
module Solvable {
  import opened Puzzle
  import opened Sequences

  ghost predicate Reaches(s: State, t: State) {
    exists p :: Leads(p, s, t)
  }

  lemma ReachesItself(s: State)
    ensures Reaches(s, s)
  {
    assert Leads([s], s, s);
  }

  lemma {:induction false} ReachesThrough(s: State, t: State, u: State)
    requires Reaches(s, t) && Reaches(t, u)
    ensures Reaches(s, u)
  {
    hide Move;
    var p :| Leads(p, s, t);
    var q :| Leads(q, t, u);
    var r := p + q[1..];
    forall i | 0 < i < |r|
      ensures Move(r[i - 1], r[i])
    {
      if i >= |p| {
        var k := i - |p| + 1;
        assert Move(q[k - 1], q[k]);
      }
    }
    assert Leads(r, s, u);
  }

  /** A path can be walked back. */
  lemma {:induction false} ReachesBack(p: seq<State>, s: State, t: State)
    requires Board(s) && Leads(p, s, t)
    ensures Reaches(t, s)
    decreases |p|
  {
    hide Move, Board;
    if |p| == 1 {
      ReachesItself(s);
    } else {
      var q := p[1..];
      assert Move(p[1 - 1], p[1]);
      MoveKeepsBoard(s, p[1]);
      MoveIsReversible(s, p[1]);
      assert Leads(q, p[1], t) by {
        forall i | 0 < i < |q|
          ensures Move(q[i - 1], q[i])
        {
          assert Move(p[i + 1 - 1], p[i + 1]);
        }
      }
      ReachesBack(q, p[1], t);
      assert Leads([p[1], s], p[1], s);
      ReachesThrough(t, p[1], s);
    }
  }

  /** A blank goes to a neighbouring cell; nothing moves if that is blank, too. */
  lemma {:induction false} Slide(o: State, s: State, e: nat, j: nat) returns (t: State)
    requires Reaches(o, s) && Board(s) && Adjacent(e, j) && s[e] == 0
    ensures t == Swap(s, e, j) && Reaches(o, t) && Board(t)
  {
    t := Swap(s, e, j);
    if t != s {
      assert SwapOf(s, t, e, j);
      MoveKeepsBoard(s, t);
      assert Leads([s, t], s, t);
      ReachesThrough(o, s, t);
    }
  }

  // ---------------------------------------------------------------- both blanks into the last two cells

  /** Both blanks are in the last two cells. */
  ghost predicate Home(s: State) {
    Board(s) && s[7] == 0 && s[8] == 0
  }

  /** There are two blanks, so one of them is not in the last cell. */
  lemma {:induction false} OtherBlank(s: State) returns (e: nat)
    requires Board(s)
    ensures e < 8 && s[e] == 0
  {
    if forall i :: 0 <= i < 8 ==> s[i] != 0 {
      var xs: seq<nat> := seq(8, i requires 0 <= i < 8 => s[i] - 1);
      Pigeonhole(xs, TILES);
    }
    e :| e < 8 && s[e] == 0;
  }

  lemma {:induction false} ToLastCell(o: State, s: State, e: nat) returns (t: State)
    requires Reaches(o, s) && Board(s) && e < CELLS && s[e] == 0
    ensures Reaches(o, t) && Board(t) && t[8] == 0
    decreases CELLS - e
  {
    hide Reaches;
    if e == 8 {
      t := s;
    } else {
      var next := if e % 3 < 2 then e + 1 else e + 3;
      var u := Slide(o, s, e, next);
      t := ToLastCell(o, u, next);
    }
  }

  /** The other blank goes to cell 7, around the first one. */
  lemma {:induction false} ToHome(o: State, s: State, e: nat) returns (t: State)
    requires Reaches(o, s) && Board(s) && s[8] == 0 && e < 8 && s[e] == 0
    ensures Reaches(o, t) && Home(t)
    decreases CellDistance(e, 7)
  {
    hide Reaches;
    if e == 7 {
      t := s;
    } else {
      var next := if e % 3 == 0 then e + 1 else if e % 3 == 2 then e - 1 else e + 3;
      var u := Slide(o, s, e, next);
      t := ToHome(o, u, next);
    }
  }

  lemma {:induction false} Homecoming(s: State) returns (t: State)
    requires Board(s)
    ensures Reaches(s, t) && Home(t)
  {
    hide Reaches, Board;
    ReachesItself(s);
    var e := OtherBlank(s);
    var u := ToLastCell(s, s, e);
    e := OtherBlank(u);
    t := ToHome(s, u, e);
  }

  // ---------------------------------------------------------------- neighbouring tiles change places

  lemma {:induction false} Exchange0(s: State)
    requires Home(s)
    ensures Reaches(s, Swap(s, 0, 1))
  {
    hide Board, Reaches;
    BoardSize(s);
    var t := s;
    ReachesItself(s);
    t := Slide(s, t, 7, 6);
    t := Slide(s, t, 6, 3);
    t := Slide(s, t, 3, 0);
    t := Slide(s, t, 0, 1);
    t := Slide(s, t, 8, 7);
    t := Slide(s, t, 7, 4);
    t := Slide(s, t, 4, 3);
    t := Slide(s, t, 1, 4);
    t := Slide(s, t, 3, 6);
    t := Slide(s, t, 4, 7);
    t := Slide(s, t, 7, 8);
    t := Slide(s, t, 6, 7);
    assert t == Swap(s, 0, 1);
  }

  lemma {:induction false} Exchange1(s: State)
    requires Home(s)
    ensures Reaches(s, Swap(s, 1, 2))
  {
    hide Board, Reaches;
    BoardSize(s);
    var t := s;
    ReachesItself(s);
    t := Slide(s, t, 7, 4);
    t := Slide(s, t, 4, 1);
    t := Slide(s, t, 1, 2);
    t := Slide(s, t, 8, 5);
    t := Slide(s, t, 5, 4);
    t := Slide(s, t, 2, 5);
    t := Slide(s, t, 4, 7);
    t := Slide(s, t, 5, 8);
    assert t == Swap(s, 1, 2);
  }

  lemma {:induction false} HalfOfExchange2(s: State) returns (t: State)
    requires Home(s)
    ensures |s| == CELLS && Reaches(s, t) && Board(t)
    ensures t == [s[1], s[2], 0, s[0], 0, s[3], s[6], s[4], s[5]]
  {
    hide Board, Reaches;
    BoardSize(s);
    t := s;
    ReachesItself(s);
    t := Slide(s, t, 7, 4);
    t := Slide(s, t, 4, 3);
    t := Slide(s, t, 3, 0);
    t := Slide(s, t, 0, 1);
    t := Slide(s, t, 1, 2);
    t := Slide(s, t, 8, 5);
    t := Slide(s, t, 5, 4);
  }

  lemma {:induction false} Exchange2(s: State)
    requires Home(s)
    ensures Reaches(s, Swap(s, 2, 3))
  {
    hide Board, Reaches;
    var t := HalfOfExchange2(s);
    t := Slide(s, t, 2, 5);
    t := Slide(s, t, 4, 1);
    t := Slide(s, t, 1, 0);
    t := Slide(s, t, 0, 3);
    t := Slide(s, t, 3, 4);
    t := Slide(s, t, 4, 7);
    t := Slide(s, t, 5, 8);
    assert t == Swap(s, 2, 3);
  }

  lemma {:induction false} Exchange3(s: State)
    requires Home(s)
    ensures Reaches(s, Swap(s, 3, 4))
  {
    hide Board, Reaches;
    BoardSize(s);
    var t := s;
    ReachesItself(s);
    t := Slide(s, t, 7, 6);
    t := Slide(s, t, 6, 3);
    t := Slide(s, t, 3, 4);
    t := Slide(s, t, 8, 7);
    t := Slide(s, t, 7, 6);
    t := Slide(s, t, 4, 7);
    t := Slide(s, t, 7, 8);
    t := Slide(s, t, 6, 7);
    assert t == Swap(s, 3, 4);
  }

  lemma {:induction false} Exchange4(s: State)
    requires Home(s)
    ensures Reaches(s, Swap(s, 4, 5))
  {
    hide Board, Reaches;
    BoardSize(s);
    var t := s;
    ReachesItself(s);
    t := Slide(s, t, 7, 4);
    t := Slide(s, t, 4, 5);
    t := Slide(s, t, 8, 7);
    t := Slide(s, t, 5, 8);
    assert t == Swap(s, 4, 5);
  }

  lemma {:induction false} Exchange5(s: State)
    requires Home(s)
    ensures Reaches(s, Swap(s, 5, 6))
  {
    hide Board, Reaches;
    BoardSize(s);
    var t := s;
    ReachesItself(s);
    t := Slide(s, t, 7, 6);
    t := Slide(s, t, 6, 3);
    t := Slide(s, t, 3, 4);
    t := Slide(s, t, 4, 5);
    t := Slide(s, t, 8, 7);
    t := Slide(s, t, 5, 8);
    t := Slide(s, t, 7, 4);
    t := Slide(s, t, 4, 3);
    t := Slide(s, t, 3, 6);
    t := Slide(s, t, 6, 7);
    assert t == Swap(s, 5, 6);
  }

  lemma {:induction false} Exchange(s: State, k: nat)
    requires Home(s) && k < 6
    ensures Reaches(s, Swap(s, k, k + 1)) && Home(Swap(s, k, k + 1))
  {
    hide Reaches;
    ExchangeKeepsHome(s, k);
    match k
    case 0 => Exchange0(s);
    case 1 => Exchange1(s);
    case 2 => Exchange2(s);
    case 3 => Exchange3(s);
    case 4 => Exchange4(s);
    case _ => Exchange5(s);
  }

  lemma {:induction false} ExchangeKeepsHome(s: State, k: nat)
    requires Home(s) && k < 6
    ensures Home(Swap(s, k, k + 1))
  {
    var t := Swap(s, k, k + 1);
    forall v | 1 <= v <= TILES
      ensures v in t
    {
      assert v in s;
      var i :| 0 <= i < |s| && s[i] == v;
      assert t[if i == k then k + 1 else if i == k + 1 then k else i] == v;
    }
  }

  // ---------------------------------------------------------------- sorting

  /** With the blanks in the last two cells the others hold tiles. */
  lemma {:induction false} TilesAtHome(s: State, k: nat)
    requires Home(s) && k < 7
    ensures s[k] != 0
  {
    if s[k] == 0 {
      TilesOf(s);
      var xs: seq<nat> := seq(7, v requires 0 <= v < 7 => Index(s, v + 1));
      forall i, j | 0 <= i < j < 7
        ensures xs[i] != xs[j]
      {
        assert s[xs[i]] == i + 1 && s[xs[j]] == j + 1;
      }
      forall i | 0 <= i < 7
        ensures xs[i] < 7 && xs[i] != k
      {
        assert s[xs[i]] == i + 1;
      }
      Pigeonhole([k] + xs, 7);
      assert false;
    }
  }

  /** The tile in cell j goes to cell i, past those between. */
  lemma {:induction false} Bring(s: State, i: nat, j: nat) returns (t: State)
    requires Home(s) && i <= j < 7
    ensures Reaches(s, t) && Home(t) && t[i] == s[j]
    ensures forall k :: 0 <= k < i ==> t[k] == s[k]
    decreases j
  {
    hide Reaches;
    if i == j {
      ReachesItself(s);
      t := s;
    } else {
      Exchange(s, j - 1);
      var u := Swap(s, j - 1, j);
      t := Bring(u, i, j - 1);
      ReachesThrough(s, u, t);
    }
  }

  /** Tile after tile is brought to its place in `goal`. */
  lemma {:induction false} Arrange(s: State, goal: State, i: nat)
    requires Home(s) && Home(goal) && i <= 7 && forall k :: 0 <= k < i ==> s[k] == goal[k]
    ensures Reaches(s, goal)
    decreases 7 - i
  {
    hide Reaches;
    if i == 7 {
      assert s == goal;
      ReachesItself(s);
    } else {
      TilesAtHome(goal, i);
      assert goal[i] in s;
      var j :| 0 <= j < |s| && s[j] == goal[i];
      assert i <= j < 7;
      var t := Bring(s, i, j);
      Arrange(t, goal, i + 1);
      ReachesThrough(s, t, goal);
    }
  }

  /** From every board a sequence of legal moves leads to every other one. */
  lemma {:induction false} Connected(s: State, goal: State) returns (p: seq<State>)
    requires Board(s) && Board(goal)
    ensures Leads(p, s, goal)
  {
    var t := Homecoming(s);
    var u := Homecoming(goal);
    Arrange(t, u, 0);
    var back :| Leads(back, goal, u);
    ReachesBack(back, goal, u);
    ReachesThrough(s, t, u);
    ReachesThrough(s, u, goal);
    p :| Leads(p, s, goal);
  }
}
