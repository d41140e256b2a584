/** funny_puzzle.py: A* search for a shortest sequence of moves. */
module AStar {
  import opened Puzzle
  import Solvable

  /** An item of the priority queue. */
  datatype Entry = Entry(f: nat, state: State, moves: nat)

  predicate Before(a: Entry, b: Entry) {
    || a.f < b.f
    || (a.f == b.f && (Less(a.state, b.state) || (a.state == b.state && a.moves <= b.moves)))
  }

  predicate Least(e: Entry, queue: multiset<Entry>) {
    e in queue && forall x :: x in queue ==> Before(e, x)
  }

  lemma {:induction false} BeforeIsTransitive(a: Entry, b: Entry, c: Entry)
    requires Before(a, b) && Before(b, c)
    ensures Before(a, c)
  {
    if Less(a.state, b.state) && Less(b.state, c.state) {
      LessIsTransitive(a.state, b.state, c.state);
    }
  }

  lemma {:induction false} LeastExists(queue: multiset<Entry>) returns (e: Entry)
    requires queue != multiset{}
    ensures Least(e, queue)
    decreases |queue|
  {
    hide Before;
    var x :| x in queue;
    var rest := queue - multiset{x};
    assert queue == multiset{x} + rest;
    assert forall y :: y in queue ==> y == x || y in rest;
    if rest == multiset{} {
      e := x;
      assert Before(x, x) by { Compared(x, x); }
    } else {
      e := LeastExists(rest);
      Compared(x, e);
      Compared(x, x);
      if !Before(e, x) {
        forall y | y in queue
          ensures Before(x, y)
        {
          if y in rest {
            BeforeIsTransitive(x, e, y);
          }
        }
        e := x;
      }
    }
  }

  lemma Compared(a: Entry, b: Entry)
    ensures Before(a, b) || Before(b, a)
  {
    LessIsTotal(a.state, b.state);
  }

  // ---------------------------------------------------------------- paths

  /** The estimate never exceeds the number of moves still needed. */
  lemma {:induction false} Admissible(p: seq<State>, i: nat, goal: State)
    requires Legal(p) && Board(p[0]) && Board(goal) && p[|p| - 1] == goal && i < |p|
    ensures Board(p[i]) && Heuristic(p[i], goal) <= |p| - 1 - i
    decreases |p| - i
  {
    BoardAlong(p, i);
    if i == |p| - 1 {
      ZeroAtGoal(goal, goal);
    } else {
      Admissible(p, i + 1, goal);
      assert Move(p[i + 1 - 1], p[i + 1]);
      Consistent(p[i], p[i + 1], goal);
    }
  }

  lemma {:induction false} BoardAlong(p: seq<State>, i: nat)
    requires Legal(p) && Board(p[0]) && i < |p|
    ensures Board(p[i])
  {
    if i > 0 {
      BoardAlong(p, i - 1);
      MoveKeepsBoard(p[i - 1], p[i]);
    }
  }

  // ---------------------------------------------------------------- what the search keeps

  /** g is the length of a path: every reached state but the first was entered from a reached one. */
  ghost predicate Entered(g: map<State, nat>, pred: map<State, (State, nat)>, s: State) {
    && s in g && s in pred && pred[s].0 in g
    && Move(pred[s].0, s) && g[pred[s].0] + 1 <= g[s] && pred[s].1 == g[s]
  }

  /** The queue item made for the present g of a state. */
  ghost function Fresh(start: State, goal: State, g: map<State, nat>, s: State): Entry
    requires s in g && Board(s) && Board(goal)
  {
    if s == start then Entry(0, start, 0) else Entry(g[s] + Heuristic(s, goal), s, g[s])
  }

  ghost predicate Queued(start: State, goal: State, g: map<State, nat>, e: Entry)
    requires Board(goal)
  {
    && e.state in g && Board(e.state) && e.moves >= g[e.state]
    && (e == Entry(0, start, 0) || e.f == e.moves + Heuristic(e.state, goal))
  }

  /** All moves out of `s` are accounted for. */
  ghost predicate Relaxed(g: map<State, nat>, s: State) {
    s in g && forall t :: Move(s, t) ==> t in g && g[t] <= g[s] + 1
  }

  /** The links back to the start. */
  ghost predicate Tree(start: State, g: map<State, nat>, pred: map<State, (State, nat)>) {
    && start in g && g[start] == 0
    && (forall s :: s in g ==> Board(s))
    && (forall s :: s in g && s != start ==> Entered(g, pred, s))
  }

  ghost predicate GoodQueue(start: State, goal: State, queue: multiset<Entry>, g: map<State, nat>)
    requires Board(goal)
  {
    forall e :: e in queue ==> Queued(start, goal, g, e)
  }

  /** Every reached state has been expanded with its present g, is being expanded, or waits in the queue. */
  ghost predicate Covered(start: State, goal: State, queue: multiset<Entry>, g: map<State, nat>, closed: set<State>,
                          open: set<State>)
    requires Board(goal) && forall s :: s in g ==> Board(s)
  {
    forall s :: s in g ==> s in closed || s in open || Fresh(start, goal, g, s) in queue
  }

  ghost predicate Expanded(g: map<State, nat>, closed: set<State>) {
    forall s :: s in closed ==> Relaxed(g, s)
  }

  ghost predicate Inv(start: State, goal: State, queue: multiset<Entry>, g: map<State, nat>,
                      pred: map<State, (State, nat)>, closed: set<State>, open: set<State>)
  {
    && Board(start) && Board(goal) && goal !in closed
    && Tree(start, g, pred)
    && GoodQueue(start, goal, queue, g)
    && Covered(start, goal, queue, g, closed, open)
    && Expanded(g, closed)
  }

  /** Along any path out of the start there is a first state that has not been expanded, with the right g. */
  lemma {:induction false} Frontier(start: State, goal: State, queue: multiset<Entry>, g: map<State, nat>,
                                    pred: map<State, (State, nat)>, closed: set<State>, p: seq<State>) returns (i: nat)
    requires Inv(start, goal, queue, g, pred, closed, {}) && Leads(p, start, goal)
    ensures i < |p| && p[i] in g && g[p[i]] <= i && p[i] !in closed
  {
    i := 0;
    while p[i] in closed
      invariant i < |p| && p[i] in g && g[p[i]] <= i
      decreases |p| - i
    {
      assert Relaxed(g, p[i]);
      assert Move(p[i + 1 - 1], p[i + 1]);
      i := i + 1;
    }
  }

  /** The item popped is no worse than any path to the goal. */
  lemma {:induction false} LowerBound(start: State, goal: State, queue: multiset<Entry>, g: map<State, nat>,
                                      pred: map<State, (State, nat)>, closed: set<State>, e: Entry, p: seq<State>)
    requires Inv(start, goal, queue, g, pred, closed, {}) && Least(e, queue) && Leads(p, start, goal)
    ensures e.f <= |p| - 1
  {
    var i := Frontier(start, goal, queue, g, pred, closed, p);
    Admissible(p, i, goal);
    assert Before(e, Fresh(start, goal, g, p[i]));
  }

  /** When the goal is popped its g is the length of a shortest path. */
  lemma {:induction false} Optimal(start: State, goal: State, queue: multiset<Entry>, g: map<State, nat>,
                                   pred: map<State, (State, nat)>, closed: set<State>, e: Entry, p: seq<State>)
    requires Inv(start, goal, queue, g, pred, closed, {}) && Least(e, queue) && e.state == goal
    requires Leads(p, start, goal)
    ensures goal in g && g[goal] <= |p| - 1
  {
    LowerBound(start, goal, queue, g, pred, closed, e, p);
    assert Queued(start, goal, g, e);
    ZeroAtGoal(goal, goal);
  }

  /** When nothing is left to expand, the goal cannot be reached. */
  lemma {:induction false} Exhausted(start: State, goal: State, queue: multiset<Entry>, g: map<State, nat>,
                                     pred: map<State, (State, nat)>, closed: set<State>, p: seq<State>)
    requires Inv(start, goal, queue, g, pred, closed, {}) && queue == multiset{}
    ensures !Leads(p, start, goal)
  {
    if Leads(p, start, goal) {
      var i := Frontier(start, goal, queue, g, pred, closed, p);
    }
  }

  // ---------------------------------------------------------------- one expansion

  lemma {:induction false} ImproveTree(start: State, g: map<State, nat>, pred: map<State, (State, nat)>, s: State,
                                       t: State)
    requires Tree(start, g, pred)
    requires s in g && Move(s, t) && (t in g ==> g[s] + 1 < g[t])
    ensures t != start && t != s && Board(t)
    ensures Tree(start, g[t := g[s] + 1], pred[t := (s, g[s] + 1)])
  {
    hide Move, Board;
    var d := g[s] + 1;
    assert Board(t) by { MoveKeepsBoard(s, t); }
    assert t != s by { MoveChanges(s, t); }
    var g', pred' := g[t := d], pred[t := (s, d)];
    forall x | x in g' && x != start
      ensures Entered(g', pred', x)
    {
      if x != t {
        assert Entered(g, pred, x);
      }
    }
  }

  lemma {:induction false} ImproveQueue(start: State, goal: State, queue: multiset<Entry>, g: map<State, nat>,
                                        t: State, d: nat)
    requires Board(goal) && GoodQueue(start, goal, queue, g) && Board(t) && (t in g ==> d < g[t])
    ensures GoodQueue(start, goal, queue + multiset{Entry(d + Heuristic(t, goal), t, d)}, g[t := d])
  {
    hide Board, Heuristic;
    var e := Entry(d + Heuristic(t, goal), t, d);
    forall x | x in queue + multiset{e}
      ensures Queued(start, goal, g[t := d], x)
    {
      assert x == e || Queued(start, goal, g, x);
    }
  }

  lemma {:induction false} ImproveCovered(start: State, goal: State, queue: multiset<Entry>, g: map<State, nat>,
                                          closed: set<State>, s: State, t: State, d: nat)
    requires Board(goal) && (forall x :: x in g ==> Board(x)) && Board(t) && t != start
    requires Covered(start, goal, queue, g, closed, {s})
    ensures Covered(start, goal, queue + multiset{Entry(d + Heuristic(t, goal), t, d)}, g[t := d], closed - {t}, {s})
  {
    hide Board, Heuristic;
    var e := Entry(d + Heuristic(t, goal), t, d);
    var queue', g' := queue + multiset{e}, g[t := d];
    forall x | x in g'
      ensures x in closed - {t} || x == s || Fresh(start, goal, g', x) in queue'
    {
      if x == t {
        assert Fresh(start, goal, g', x) == e;
      } else {
        assert Fresh(start, goal, g', x) == Fresh(start, goal, g, x);
      }
    }
  }

  lemma {:induction false} ImproveExpanded(g: map<State, nat>, closed: set<State>, t: State, d: nat)
    requires Expanded(g, closed) && (t in g ==> d < g[t])
    ensures Expanded(g[t := d], closed - {t})
  {
    hide Move;
    forall x | x in closed - {t}
      ensures Relaxed(g[t := d], x)
    {
      assert Relaxed(g, x);
    }
  }

  /** A better way to `t`, through the state just expanded. */
  lemma {:induction false} Improve(start: State, goal: State, queue: multiset<Entry>, g: map<State, nat>,
                                   pred: map<State, (State, nat)>, closed: set<State>, s: State, t: State)
    requires Inv(start, goal, queue, g, pred, closed, {s})
    requires s in g && Move(s, t) && (t in g ==> g[s] + 1 < g[t])
    ensures t != start && t != s && Board(t)
    ensures var d := g[s] + 1;
      Inv(start, goal, queue + multiset{Entry(d + Heuristic(t, goal), t, d)}, g[t := d], pred[t := (s, d)],
          closed - {t}, {s})
  {
    hide Move, Heuristic, Board, GoodQueue, Covered, Expanded;
    var d := g[s] + 1;
    ImproveTree(start, g, pred, s, t);
    ImproveQueue(start, goal, queue, g, t, d);
    ImproveCovered(start, goal, queue, g, closed, s, t, d);
    ImproveExpanded(g, closed, t, d);
  }

  lemma MoveChanges(s: State, t: State)
    requires Move(s, t)
    ensures s != t
  {
  }

  /** When all moves out of the expanded state are accounted for it is closed. */
  lemma {:induction false} Close(start: State, goal: State, queue: multiset<Entry>, g: map<State, nat>,
                                 pred: map<State, (State, nat)>, closed: set<State>, s: State)
    requires Inv(start, goal, queue, g, pred, closed, {s}) && Relaxed(g, s) && s != goal
    ensures Inv(start, goal, queue, g, pred, closed + {s}, {})
  {
    hide Move, Heuristic, Board;
  }

  /** Taking the least item out leaves at most its own state open; an outdated item belongs to a state
      that is closed. */
  lemma {:induction false} Pop(start: State, goal: State, queue: multiset<Entry>, g: map<State, nat>,
                               pred: map<State, (State, nat)>, closed: set<State>, e: Entry)
    requires Inv(start, goal, queue, g, pred, closed, {}) && Least(e, queue)
    ensures Inv(start, goal, queue - multiset{e}, g, pred, closed, {e.state})
    ensures e in queue && e.state in g && e.moves >= g[e.state]
    ensures e.moves == g[e.state] || Relaxed(g, e.state)
  {
    hide Move, Board, Before, Heuristic, Relaxed, Entered, Less;
    var queue' := queue - multiset{e};
    assert forall x :: x in queue' ==> x in queue;
    assert forall x :: x in queue && x != e ==> x in queue';
    assert Queued(start, goal, g, e);
    if Fresh(start, goal, g, e.state) in queue {
      NotOutdated(start, goal, g, e);
    }
  }

  lemma NotOutdated(start: State, goal: State, g: map<State, nat>, e: Entry)
    requires Board(goal) && Queued(start, goal, g, e) && (start in g ==> g[start] == 0)
    requires Before(e, Fresh(start, goal, g, e.state))
    ensures e.moves == g[e.state]
  {
  }

  // ---------------------------------------------------------------- termination

  /** All lists of `n` numbers up to TILES. */
  ghost function Universe(n: nat): set<State> {
    if n == 0 then {[]} else set t, v | t in Universe(n - 1) && 0 <= v <= TILES :: [v] + t
  }

  lemma {:induction false} InUniverse(s: State)
    requires forall i :: 0 <= i < |s| ==> s[i] <= TILES
    ensures s in Universe(|s|)
  {
    if s != [] {
      InUniverse(s[1..]);
      assert s == [s[0]] + s[1..];
    }
  }

  ghost function Pick(u: set<State>): (s: State)
    requires u != {}
    ensures s in u
  {
    var s :| s in u; s
  }

  /** The g values of the states of `u`, added up. */
  ghost function Sum(u: set<State>, g: map<State, nat>): nat {
    if u == {} then 0
    else var s := Pick(u); (if s in g then g[s] else 0) + Sum(u - {s}, g)
  }

  lemma {:induction false} SumDrops(u: set<State>, g: map<State, nat>, t: State, d: nat)
    requires t in u && t in g && d < g[t]
    ensures Sum(u, g[t := d]) < Sum(u, g)
  {
    var s := Pick(u);
    if s == t {
      SumSame(u - {s}, g, t, d);
    } else {
      SumDrops(u - {s}, g, t, d);
    }
  }

  lemma {:induction false} SumSame(u: set<State>, g: map<State, nat>, t: State, d: nat)
    requires t !in u
    ensures Sum(u, g[t := d]) == Sum(u, g)
  {
    if u != {} {
      SumSame(u - {Pick(u)}, g, t, d);
    }
  }

  /** The work left has shrunk: a state was reached for the first time, or some g went down. */
  ghost predicate Shrunk(g: map<State, nat>, g': map<State, nat>) {
    var u := Universe(CELLS);
    |u - g'.Keys| < |u - g.Keys| || (|u - g'.Keys| == |u - g.Keys| && Sum(u, g') < Sum(u, g))
  }

  lemma {:induction false} ImproveShrinks(g: map<State, nat>, t: State, d: nat)
    requires Board(t) && (t in g ==> d < g[t])
    ensures Shrunk(g, g[t := d])
  {
    var u := Universe(CELLS);
    InUniverse(t);
    if t in g {
      assert g[t := d].Keys == g.Keys;
      SumDrops(u, g, t, d);
    } else {
      assert u - g.Keys == (u - g[t := d].Keys) + {t};
    }
  }

  lemma ShrinksFurther(g: map<State, nat>, g': map<State, nat>, g'': map<State, nat>)
    requires (g == g' || Shrunk(g, g')) && Shrunk(g', g'')
    ensures Shrunk(g, g'')
  {
  }

  // ---------------------------------------------------------------- solve

  /** What the search leaves behind: links back from the goal, and a proof that nothing shorter exists; or
      no link to a goal that cannot be reached, a case that Solvable.Connected rules out. */
  ghost predicate Searched(start: State, goal: State, g: map<State, nat>, pred: map<State, (State, nat)>) {
    && Board(start) && Board(goal) && Tree(start, g, pred) && pred.Keys <= g.Keys
    && (goal in g ==> forall p :: Leads(p, start, goal) ==> g[goal] <= |p| - 1)
    && (goal !in g ==> forall p :: !Leads(p, start, goal))
  }

  lemma StartInv(start: State, goal: State)
    requires Board(start) && Board(goal)
    ensures Inv(start, goal, multiset{Entry(0, start, 0)}, map[start := 0], map[], {}, {})
    ensures Booked(start, map[start := 0], map[], {})
  {
  }

  lemma RelaxedTo(g: map<State, nat>, s: State, t: State)
    requires Relaxed(g, s) && Move(s, t)
    ensures t in g && g[t] <= g[s] + 1
  {
  }

  /** The first return to the start gives it a link back, which nobody follows. */
  lemma Revisited(start: State, goal: State, queue: multiset<Entry>, g: map<State, nat>,
                  pred: map<State, (State, nat)>, closed: set<State>, s: State, m: nat)
    requires Inv(start, goal, queue, g, pred, closed, {s})
    ensures Inv(start, goal, queue, g, pred[start := (s, m)], closed, {s})
  {
    hide Move, Heuristic, Board;
    assert forall x :: x in g && x != start ==> Entered(g, pred, x);
  }

  /** The links only lead to reached states, and exactly the reached states but the start count as visited,
      until the search comes back to the start. */
  ghost predicate Booked(start: State, g: map<State, nat>, pred: map<State, (State, nat)>, visited: set<State>) {
    pred.Keys <= g.Keys && g.Keys == visited + {start}
  }

  lemma Booking(start: State, g: map<State, nat>, pred: map<State, (State, nat)>, visited: set<State>, t: State,
                d: nat, link: (State, nat))
    requires Booked(start, g, pred, visited)
    ensures t in visited ==> t in g && Booked(start, g[t := d], pred[t := link], visited)
    ensures t in g ==> Booked(start, g, pred[t := link], visited + {t})
    ensures t !in g ==> t !in visited && Booked(start, g[t := d], pred[t := link], visited + {t})
    ensures t in g && t !in visited ==> t == start
  {
  }

  /** One successor `t` of the state `s` that was taken from the queue with `m` moves. */
  method Relax(start: State, goal: State, s: State, m: nat, t: State, queue: multiset<Entry>, g: map<State, nat>,
               pred: map<State, (State, nat)>, visited: set<State>, ghost closed: set<State>)
    returns (queue': multiset<Entry>, g': map<State, nat>, pred': map<State, (State, nat)>, visited': set<State>,
             ghost closed': set<State>)
    requires Inv(start, goal, queue, g, pred, closed, {s}) && Booked(start, g, pred, visited)
    requires s in g && Move(s, t) && (m == g[s] || Relaxed(g, s))
    ensures Inv(start, goal, queue', g', pred', closed', {s}) && Booked(start, g', pred', visited')
    ensures s in g' && g'[s] == g[s] && t in g' && g'[t] <= g[s] + 1
    ensures forall x :: x in g ==> x in g' && g'[x] <= g[x]
    ensures (g' == g && queue' == queue) || (m == g[s] && Shrunk(g, g'))
  {
    hide Move, Board, Heuristic, Legal, Inv, Shrunk, Relaxed, Booked;
    assert Board(goal) && (start in g && g[start] == 0) by { InvStart(start, goal, queue, g, pred, closed, {s}); }
    queue', g', pred', visited', closed' := queue, g, pred, visited, closed;
    var d := g[s] + 1;
    Booking(start, g, pred, visited, t, d, (s, m + 1));
    if Relaxed(g, s) {
      RelaxedTo(g, s, t);
    }
    if t !in visited {
      visited' := visited' + {t};
      pred' := pred'[t := (s, m + 1)];
      if t !in g {
        Improve(start, goal, queue, g, pred, closed, s, t);
        ImproveShrinks(g, t, d);
        g' := g'[t := d];
        var h := GetManhattanDistance(t, goal);
        queue' := queue' + multiset{Entry(d + h, t, m + 1)};
        closed' := closed' - {t};
      } else if d < g[t] {
        assert false;            // only the start is reached without having been visited, and its g is 0
      } else {
        Revisited(start, goal, queue, g, pred, closed, s, m + 1);
      }
    } else if d < g[t] {
      Improve(start, goal, queue, g, pred, closed, s, t);
      ImproveShrinks(g, t, d);
      pred' := pred'[t := (s, m + 1)];
      g' := g'[t := d];
      var h := GetManhattanDistance(t, goal);
      queue' := queue' + multiset{Entry(d + h, t, m + 1)};
      closed' := closed' - {t};
    }
  }

  lemma InvStart(start: State, goal: State, queue: multiset<Entry>, g: map<State, nat>,
                 pred: map<State, (State, nat)>, closed: set<State>, open: set<State>)
    requires Inv(start, goal, queue, g, pred, closed, open)
    ensures Board(goal) && start in g && g[start] == 0
    ensures forall s :: s in g ==> Board(s)
  {
  }

  /** The loop over the successors. */
  method Expand(start: State, goal: State, s: State, m: nat, queue0: multiset<Entry>, g0: map<State, nat>,
                pred0: map<State, (State, nat)>, visited0: set<State>, ghost closed0: set<State>)
    returns (queue: multiset<Entry>, g: map<State, nat>, pred: map<State, (State, nat)>, visited: set<State>,
             ghost closed: set<State>)
    requires Inv(start, goal, queue0, g0, pred0, closed0, {s}) && Booked(start, g0, pred0, visited0)
    requires s in g0 && s != goal && (m == g0[s] || Relaxed(g0, s))
    ensures Inv(start, goal, queue, g, pred, closed, {}) && Booked(start, g, pred, visited)
    ensures (g == g0 && queue == queue0) || Shrunk(g0, g)
  {
    hide Move, Board, Heuristic, Legal, Inv, Shrunk, Relaxed, Booked, Less;
    queue, g, pred, visited, closed := queue0, g0, pred0, visited0, closed0;
    InvStart(start, goal, queue0, g0, pred0, closed0, {s});
    assert |s| == CELLS by { BoardSize(s); }
    var succs := GetSucc(s);
    for i := 0 to |succs|
      invariant Inv(start, goal, queue, g, pred, closed, {s}) && Booked(start, g, pred, visited)
      invariant s in g && g[s] == g0[s] && (m == g[s] || Relaxed(g, s))
      invariant forall j :: 0 <= j < i ==> succs[j] in g && g[succs[j]] <= g[s] + 1
      invariant (g == g0 && queue == queue0) || Shrunk(g0, g)
    {
      ghost var before := g;
      assert succs[i] in succs;
      queue, g, pred, visited, closed := Relax(start, goal, s, m, succs[i], queue, g, pred, visited, closed);
      if Shrunk(before, g) {
        ShrinksFurther(g0, before, g);
      }
    }
    assert Relaxed(g, s) by {
      assert forall t :: Move(s, t) ==> t in succs;
      IsRelaxed(g, s, succs);
    }
    Close(start, goal, queue, g, pred, closed, s);
    closed := closed + {s};
  }

  lemma IsRelaxed(g: map<State, nat>, s: State, succs: seq<State>)
    requires s in g && forall t :: Move(s, t) ==> t in succs
    requires forall j :: 0 <= j < |succs| ==> succs[j] in g && g[succs[j]] <= g[s] + 1
    ensures Relaxed(g, s)
  {
  }

  method Search(start: State, goal: State) returns (pred: map<State, (State, nat)>, ghost g: map<State, nat>)
    requires Board(start) && Board(goal)
    ensures Searched(start, goal, g, pred)
  {
    hide Move, Board, Heuristic, Legal, Leads, Inv, Shrunk, Less, Before, Relaxed, Booked, Searched, Universe, Sum;
    hide Least;
    var visited: set<State> := {};
    var reached: map<State, nat> := map[start := 0];
    pred := map[];
    var queue := multiset{Entry(0, start, 0)};
    ghost var closed: set<State> := {};
    StartInv(start, goal);
    while queue != multiset{}
      invariant Inv(start, goal, queue, reached, pred, closed, {}) && Booked(start, reached, pred, visited)
      decreases |Universe(CELLS) - reached.Keys|, Sum(Universe(CELLS), reached), |queue|
    {
      ghost var least := LeastExists(queue);
      var e :| Least(e, queue);
      Pop(start, goal, queue, reached, pred, closed, e);
      if e.state == goal {
        FoundGoal(start, goal, queue, reached, pred, closed, e, visited);
        return pred, reached;
      }
      ghost var before := reached;
      ghost var size := |queue|;
      queue := queue - multiset{e};
      assert |queue| < size;
      queue, reached, pred, visited, closed :=
        Expand(start, goal, e.state, e.moves, queue, reached, pred, visited, closed);
      if Shrunk(before, reached) {
        Measure(before, reached);
      }
    }
    NoGoal(start, goal, reached, pred, closed, visited);
    g := reached;
  }

  lemma Measure(g: map<State, nat>, g': map<State, nat>)
    requires Shrunk(g, g')
    ensures var u := Universe(CELLS);
      |u - g'.Keys| < |u - g.Keys| || (|u - g'.Keys| == |u - g.Keys| && Sum(u, g') < Sum(u, g))
  {
  }

  lemma {:induction false} FoundGoal(start: State, goal: State, queue: multiset<Entry>, g: map<State, nat>,
                                     pred: map<State, (State, nat)>, closed: set<State>, e: Entry, visited: set<State>)
    requires Inv(start, goal, queue, g, pred, closed, {}) && Booked(start, g, pred, visited)
    requires Least(e, queue) && e.state == goal
    ensures Searched(start, goal, g, pred)
  {
    assert Queued(start, goal, g, e);
    forall p | Leads(p, start, goal)
      ensures g[goal] <= |p| - 1
    {
      Optimal(start, goal, queue, g, pred, closed, e, p);
    }
  }

  lemma {:induction false} NoGoal(start: State, goal: State, g: map<State, nat>,
                                  pred: map<State, (State, nat)>, closed: set<State>, visited: set<State>)
    requires Inv(start, goal, multiset{}, g, pred, closed, {}) && Booked(start, g, pred, visited)
    ensures Searched(start, goal, g, pred)
  {
    forall p
      ensures !Leads(p, start, goal)
    {
      Exhausted(start, goal, multiset{}, g, pred, closed, p);
    }
  }

  // ---------------------------------------------------------------- the path back

  /** A line that solve prints. */
  datatype Line = Line(state: State, h: nat, moves: nat)

  function States(lines: seq<Line>): (p: seq<State>)
    ensures |p| == |lines| && forall i :: 0 <= i < |p| ==> p[i] == lines[i].state
  {
    seq(|lines|, i requires 0 <= i < |lines| => lines[i].state)
  }

  /** Legal moves along which g goes up. */
  ghost predicate Chain(g: map<State, nat>, p: seq<State>) {
    Legal(p) && (forall i :: 0 <= i < |p| ==> p[i] in g) && forall i :: 0 < i < |p| ==> g[p[i - 1]] < g[p[i]]
  }

  lemma {:induction false} ChainRises(g: map<State, nat>, p: seq<State>, i: nat, j: nat)
    requires Chain(g, p) && i <= j < |p|
    ensures g[p[i]] + (j - i) <= g[p[j]]
    decreases j - i
  {
    if i < j {
      ChainRises(g, p, i, j - 1);
      assert g[p[j - 1]] < g[p[j]];
    }
  }

  lemma {:induction false} ChainBack(g: map<State, nat>, p: seq<State>, s: State)
    requires Chain(g, p) && s in g && Move(s, p[0]) && g[s] < g[p[0]]
    ensures Chain(g, [s] + p)
  {
    hide Move;
    var q := [s] + p;
    forall i | 0 < i < |q|
      ensures Move(q[i - 1], q[i]) && g[q[i - 1]] < g[q[i]]
    {
      if i > 1 {
        assert q[i - 1] == p[i - 2] && q[i] == p[i - 1];
        assert Move(p[i - 2], p[i - 1]) && g[p[i - 2]] < g[p[i - 1]];
      }
    }
  }

  /** A chain from the start to the goal is a shortest path, and g counts its moves. */
  lemma {:induction false} ChainIsShortest(start: State, goal: State, g: map<State, nat>,
                                           pred: map<State, (State, nat)>, p: seq<State>)
    requires Searched(start, goal, g, pred) && goal in g && Chain(g, p) && p[0] == start && p[|p| - 1] == goal
    ensures Leads(p, start, goal) && |p| - 1 == g[goal]
    ensures forall i :: 0 <= i < |p| ==> g[p[i]] == i
  {
    hide Move, Board;
    assert Leads(p, start, goal);
    assert g[goal] <= |p| - 1;
    forall i | 0 <= i < |p|
      ensures g[p[i]] == i
    {
      ChainRises(g, p, 0, i);
      ChainRises(g, p, i, |p| - 1);
    }
  }

  /** The lines that solve prints: a shortest sequence of boards, each with its estimate and the number of moves made
      so far. */
  method Solve(start: State, goal: State) returns (lines: seq<Line>)
    requires Board(start) && Board(goal)
    ensures Leads(States(lines), start, goal)
    ensures forall i :: 0 <= i < |lines| ==>
      Board(lines[i].state) && lines[i].h == Heuristic(lines[i].state, goal) && lines[i].moves == i
    ensures forall p :: Leads(p, start, goal) ==> |lines| <= |p|
  {
    hide Board, Legal, Move, Entered, Heuristic;
    ghost var g;
    var pred;
    pred, g := Search(start, goal);
    ghost var way := Solvable.Connected(start, goal);
    assert Leads(way, start, goal);
    var current := goal;
    var path: seq<(State, nat)> := [];
    ghost var chain := [goal];
    assert Chain(g, chain) by { SingleChain(g, goal); }
    while current != start
      invariant current in g && Chain(g, chain)
      invariant |chain| == |path| + 1 && chain[0] == current && chain[|path|] == goal
      invariant forall j :: 0 <= j < |path| ==> path[j] == (chain[|path| - j], g[chain[|path| - j]])
      decreases g[current]
    {
      Linked(start, g, pred, current);
      ChainBack(g, chain, pred[current].0);
      chain := [pred[current].0] + chain;
      path := path + [(current, pred[current].1)];
      current := pred[current].0;
    }
    ChainIsShortest(start, goal, g, pred, chain);
    var h := GetManhattanDistance(start, goal);
    lines := [Line(start, h, 0)];
    for i := 0 to |path|
      invariant |lines| == i + 1
      invariant forall j :: 0 <= j <= i ==>
        Board(chain[j]) && lines[j] == Line(chain[j], Heuristic(chain[j], goal), j)
    {
      var (state, moves) := path[|path| - 1 - i];
      BoardAlong(chain, i + 1);
      h := GetManhattanDistance(state, goal);
      lines := lines + [Line(state, h, moves)];
    }
    assert States(lines) == chain;
  }

  lemma SingleChain(g: map<State, nat>, s: State)
    requires s in g
    ensures Chain(g, [s])
  {
  }

  lemma Linked(start: State, g: map<State, nat>, pred: map<State, (State, nat)>, s: State)
    requires Tree(start, g, pred) && s in g && s != start
    ensures s in pred && pred[s].0 in g && Move(pred[s].0, s) && g[pred[s].0] < g[s] && pred[s].1 == g[s]
  {
    assert Entered(g, pred, s);
  }
}
