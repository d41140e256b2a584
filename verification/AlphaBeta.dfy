/** Values of the search: Python floats without rounding, closed by the two infinities
    that the search uses as its starting window. */
module ExtendedReal {

  datatype Ext = NegInf | Fin(r: real) | PosInf {
    predicate Less(that: Ext) {
      match this
      case NegInf => !that.NegInf?
      case PosInf => false
      case Fin(x) => that.PosInf? || (that.Fin? && x < that.r)
    }

    predicate AtMost(that: Ext) {
      !that.Less(this)
    }
  }

  function Max(a: Ext, b: Ext): Ext {
    if a.Less(b) then b else a
  }

  function Min(a: Ext, b: Ext): Ext {
    if b.Less(a) then b else a
  }
}

/** The depth-limited alpha-beta search of the Teeko player against plain minimax. */
module AlphaBeta {
  import opened ExtendedReal

  datatype Piece = Mine | Opponent

  /** What the search is parameterised by: the win test, the move generator and the heuristic. */
  datatype Game<!S> = Game(gameValue: S -> int, succ: (S, Piece) -> seq<S>, heuristic: (S, Piece) -> real)

  const DEPTH_LIMIT: nat := 3

  function Remaining(depth: nat): nat {
    if depth >= DEPTH_LIMIT then 0 else DEPTH_LIMIT - depth
  }

  predicate Leaf<S>(g: Game<S>, s: S, depth: nat) {
    g.gameValue(s) != 0 || depth >= DEPTH_LIMIT
  }

  /** Value of a position where the search stops; the player to move is `p`. */
  function LeafValue<S>(g: Game<S>, s: S, p: Piece): Ext {
    if g.gameValue(s) != 0 then Fin(g.gameValue(s) as real) else Fin(g.heuristic(s, p))
  }

  /** Plain minimax: the value of `s` when `p` is to move. */
  ghost function Minimax<S>(g: Game<S>, s: S, p: Piece, depth: nat): Ext
    decreases Remaining(depth), 0, 0
  {
    if Leaf(g, s, depth) then LeafValue(g, s, p)
    else
      var ss := g.succ(s, p);
      if p.Mine? then BestOf(g, ss, |ss|, depth + 1) else WorstOf(g, ss, |ss|, depth + 1)
  }

  /** Maximum over the first `k` positions of `ss`, the opponent being to move in each. */
  ghost function BestOf<S>(g: Game<S>, ss: seq<S>, k: nat, depth: nat): Ext
    requires k <= |ss|
    decreases Remaining(depth), 1, k
  {
    if k == 0 then NegInf
    else Max(BestOf(g, ss, k - 1, depth), Minimax(g, ss[k - 1], Opponent, depth))
  }

  /** Minimum over the first `k` positions of `ss`, the player being to move in each. */
  ghost function WorstOf<S>(g: Game<S>, ss: seq<S>, k: nat, depth: nat): Ext
    requires k <= |ss|
    decreases Remaining(depth), 1, k
  {
    if k == 0 then PosInf
    else Min(WorstOf(g, ss, k - 1, depth), Minimax(g, ss[k - 1], Mine, depth))
  }

  /** `BestOf` really is the maximum: it bounds every member and, when there is one, is attained. */
  lemma {:induction false} BestOfIsMaximum<S>(g: Game<S>, ss: seq<S>, k: nat, depth: nat)
    requires k <= |ss|
    ensures forall j :: 0 <= j < k ==> Minimax(g, ss[j], Opponent, depth).AtMost(BestOf(g, ss, k, depth))
    ensures k > 0 ==> exists j :: 0 <= j < k && Minimax(g, ss[j], Opponent, depth) == BestOf(g, ss, k, depth)
  {
    if k == 1 {
      assert BestOf(g, ss, 0, depth) == NegInf;
      assert Minimax(g, ss[0], Opponent, depth) == BestOf(g, ss, 1, depth);
    } else if k > 1 {
      BestOfIsMaximum(g, ss, k - 1, depth);
      assert Minimax(g, ss[k - 1], Opponent, depth).AtMost(BestOf(g, ss, k, depth));
    }
  }

  lemma {:induction false} WorstOfIsMinimum<S>(g: Game<S>, ss: seq<S>, k: nat, depth: nat)
    requires k <= |ss|
    ensures forall j :: 0 <= j < k ==> WorstOf(g, ss, k, depth).AtMost(Minimax(g, ss[j], Mine, depth))
    ensures k > 0 ==> exists j :: 0 <= j < k && Minimax(g, ss[j], Mine, depth) == WorstOf(g, ss, k, depth)
  {
    if k == 1 {
      assert WorstOf(g, ss, 0, depth) == PosInf;
      assert Minimax(g, ss[0], Mine, depth) == WorstOf(g, ss, 1, depth);
    } else if k > 1 {
      WorstOfIsMinimum(g, ss, k - 1, depth);
      assert WorstOf(g, ss, k, depth).AtMost(Minimax(g, ss[k - 1], Mine, depth));
    }
  }

  /** The order of values is that of the numbers, between the infinities. */
  lemma OrderOfValues(x: real, y: real)
    ensures Fin(x).AtMost(Fin(y)) <==> x <= y
    ensures Max(Fin(x), Fin(y)) == Fin(if x >= y then x else y) && Min(Fin(x), Fin(y)) == Fin(if x <= y then x else y)
    ensures NegInf.Less(Fin(x)) && Fin(x).Less(PosInf) && !Fin(x).Less(NegInf) && !PosInf.Less(Fin(x))
  {
  }

  /** The opponent's positions `ss` have maximum `m`. */
  ghost predicate IsMaximum<S>(g: Game<S>, ss: seq<S>, depth: nat, m: Ext) {
    && (forall j :: 0 <= j < |ss| ==> Minimax(g, ss[j], Opponent, depth).AtMost(m))
    && if ss == [] then m == NegInf else exists j :: 0 <= j < |ss| && Minimax(g, ss[j], Opponent, depth) == m
  }

  ghost predicate IsMinimum<S>(g: Game<S>, ss: seq<S>, depth: nat, m: Ext) {
    && (forall j :: 0 <= j < |ss| ==> m.AtMost(Minimax(g, ss[j], Mine, depth)))
    && if ss == [] then m == PosInf else exists j :: 0 <= j < |ss| && Minimax(g, ss[j], Mine, depth) == m
  }

  /** What minimax is: the outcome of a decided position; the heuristic three plies below the position searched; else
      the best or the worst of the successors. */
  lemma {:induction false} MinimaxIs<S>(g: Game<S>, s: S, p: Piece, depth: nat)
    ensures var m, ss := Minimax(g, s, p, depth), g.succ(s, p);
      if g.gameValue(s) != 0 then m == Fin(g.gameValue(s) as real)
      else if depth >= 3 then m == Fin(g.heuristic(s, p))
      else if p.Mine? then IsMaximum(g, ss, depth + 1, m) else IsMinimum(g, ss, depth + 1, m)
  {
    var ss := g.succ(s, p);
    BestOfIsMaximum(g, ss, |ss|, depth + 1);
    WorstOfIsMinimum(g, ss, |ss|, depth + 1);
  }

  /** Two games look alike from `s` as far as `k` plies ahead. */
  ghost predicate Alike<S>(g: Game<S>, h: Game<S>, s: S, p: Piece, k: nat)
    decreases k
  {
    && g.gameValue(s) == h.gameValue(s)
    && (g.gameValue(s) != 0
        || (if k == 0 then g.heuristic(s, p) == h.heuristic(s, p)
            else g.succ(s, p) == h.succ(s, p) && forall t :: t in g.succ(s, p) ==> Alike(g, h, t, Other(p), k - 1)))
  }

  /** Nothing beyond three plies is looked at. */
  lemma {:induction false} SeesThreePlies<S>(g: Game<S>, h: Game<S>, s: S, p: Piece, depth: nat)
    requires depth <= 3 && Alike(g, h, s, p, 3 - depth)
    ensures Minimax(g, s, p, depth) == Minimax(h, s, p, depth)
    decreases 3 - depth
  {
    if g.gameValue(s) == 0 && depth < 3 {
      var ss := g.succ(s, p);
      forall j | 0 <= j < |ss|
        ensures Minimax(g, ss[j], Other(p), depth + 1) == Minimax(h, ss[j], Other(p), depth + 1)
      {
        assert ss[j] in ss;
        SeesThreePlies(g, h, ss[j], Other(p), depth + 1);
      }
      SameBest(g, h, ss, |ss|, p, depth + 1);
    }
  }

  lemma {:induction false} SameBest<S>(g: Game<S>, h: Game<S>, ss: seq<S>, k: nat, p: Piece, depth: nat)
    requires k <= |ss|
    requires forall j :: 0 <= j < |ss| ==> Minimax(g, ss[j], Other(p), depth) == Minimax(h, ss[j], Other(p), depth)
    ensures if p.Mine? then BestOf(g, ss, k, depth) == BestOf(h, ss, k, depth)
            else WorstOf(g, ss, k, depth) == WorstOf(h, ss, k, depth)
  {
    if k > 0 {
      SameBest(g, h, ss, k - 1, p, depth);
    }
  }

  /** The fail-soft contract: what a returned `v` says about the exact value `m`. */
  ghost predicate FailSoft(v: Ext, m: Ext, alpha: Ext, beta: Ext) {
    && (v.AtMost(alpha) ==> m.AtMost(v))
    && (alpha.Less(v) && v.Less(beta) ==> v == m)
    && (beta.AtMost(v) ==> v.AtMost(m))
  }

  /** Position `j` is the first of `ss` whose minimax value is `v`, and no earlier one is better for `p`. */
  ghost predicate FirstAchieving<S>(g: Game<S>, ss: seq<S>, j: nat, p: Piece, v: Ext, depth: nat) {
    && j < |ss|
    && Minimax(g, ss[j], Other(p), depth) == v
    && forall i :: 0 <= i < j ==> Beats(p, v, Minimax(g, ss[i], Other(p), depth))
  }

  function Other(p: Piece): Piece {
    if p.Mine? then Opponent else Mine
  }

  predicate Beats(p: Piece, v: Ext, w: Ext) {
    if p.Mine? then w.Less(v) else v.Less(w)
  }

  /** What is promised of the returned position: the position itself at a leaf; inside the window the
      first successor that achieves the value; on a cut-off a successor that justifies it. */
  ghost predicate GoodChoice<S>(g: Game<S>, s: S, p: Piece, depth: nat, v: Ext, choice: S, alpha: Ext, beta: Ext) {
    var ss := g.succ(s, p);
    if Leaf(g, s, depth) then choice == s
    else
      && (choice == s || choice in ss)
      && (alpha.Less(v) && v.Less(beta) ==>
            exists j: nat :: FirstAchieving(g, ss, j, p, v, depth + 1) && choice == ss[j])
      && (p.Mine? && beta.AtMost(v) ==>
            exists j :: 0 <= j < |ss| && choice == ss[j] && v.AtMost(Minimax(g, ss[j], Opponent, depth + 1)))
      && (p.Opponent? && v.AtMost(alpha) ==>
            exists j :: 0 <= j < |ss| && choice == ss[j] && Minimax(g, ss[j], Mine, depth + 1).AtMost(v))
  }

  /** One successor of the maximising loop: `m` is the maximum so far, `mj` the exact value of the
      successor, `val` what the search returned for it. */
  lemma MaxStep(v: Ext, val: Ext, m: Ext, mj: Ext, alpha0: Ext, beta: Ext)
    requires v.Less(beta) && FailSoft(v, m, alpha0, beta) && m.AtMost(v)
    requires FailSoft(val, mj, Max(alpha0, v), beta)
    ensures FailSoft(Max(v, val), Max(m, mj), alpha0, beta)
    ensures Max(v, val).Less(beta) ==> mj.AtMost(Max(v, val)) && Max(m, mj).AtMost(Max(v, val))
    ensures v.Less(val) && alpha0.Less(val) && val.Less(beta) ==> mj == val
    ensures v.Less(val) && !alpha0.Less(val) ==> val.AtMost(alpha0)
    ensures beta.AtMost(Max(v, val)) ==> v.Less(val) && val.AtMost(mj)
  {
  }

  lemma MinStep(v: Ext, val: Ext, m: Ext, mj: Ext, alpha: Ext, beta0: Ext)
    requires alpha.Less(v) && FailSoft(v, m, alpha, beta0) && v.AtMost(m)
    requires FailSoft(val, mj, alpha, Min(beta0, v))
    ensures FailSoft(Min(v, val), Min(m, mj), alpha, beta0)
    ensures alpha.Less(Min(v, val)) ==> Min(v, val).AtMost(mj) && Min(v, val).AtMost(Min(m, mj))
    ensures val.Less(v) && val.Less(beta0) && alpha.Less(val) ==> mj == val
    ensures val.Less(v) && !val.Less(beta0) ==> beta0.AtMost(val)
    ensures Min(v, val).AtMost(alpha) ==> val.Less(v) && mj.AtMost(val)
  {
  }

  ghost predicate AllAtMost<S>(g: Game<S>, ss: seq<S>, k: nat, v: Ext, depth: nat)
    requires k <= |ss|
  {
    forall j :: 0 <= j < k ==> Minimax(g, ss[j], Opponent, depth).AtMost(v)
  }

  ghost predicate AllAtLeast<S>(g: Game<S>, ss: seq<S>, k: nat, v: Ext, depth: nat)
    requires k <= |ss|
  {
    forall j :: 0 <= j < k ==> v.AtMost(Minimax(g, ss[j], Mine, depth))
  }

  lemma AllAtMostStep<S>(g: Game<S>, ss: seq<S>, i: nat, v: Ext, val: Ext, depth: nat)
    requires i < |ss| && AllAtMost(g, ss, i, v, depth)
    ensures Minimax(g, ss[i], Opponent, depth).AtMost(Max(v, val)) ==> AllAtMost(g, ss, i + 1, Max(v, val), depth)
    ensures v.Less(val) && Minimax(g, ss[i], Opponent, depth) == val ==> FirstAchieving(g, ss, i, Mine, val, depth)
  {
    forall j | 0 <= j < i
      ensures Minimax(g, ss[j], Opponent, depth).AtMost(Max(v, val))
      ensures v.Less(val) ==> Minimax(g, ss[j], Opponent, depth).Less(val)
    {
      Transitive(Minimax(g, ss[j], Opponent, depth), v, Max(v, val));
    }
  }

  lemma AllAtLeastStep<S>(g: Game<S>, ss: seq<S>, i: nat, v: Ext, val: Ext, depth: nat)
    requires i < |ss| && AllAtLeast(g, ss, i, v, depth)
    ensures Min(v, val).AtMost(Minimax(g, ss[i], Mine, depth)) ==> AllAtLeast(g, ss, i + 1, Min(v, val), depth)
    ensures val.Less(v) && Minimax(g, ss[i], Mine, depth) == val ==> FirstAchieving(g, ss, i, Opponent, val, depth)
  {
    forall j | 0 <= j < i
      ensures Min(v, val).AtMost(Minimax(g, ss[j], Mine, depth))
      ensures val.Less(v) ==> val.Less(Minimax(g, ss[j], Mine, depth))
    {
      Transitive(Min(v, val), v, Minimax(g, ss[j], Mine, depth));
    }
  }

  lemma Transitive(a: Ext, b: Ext, c: Ext)
    requires a.AtMost(b) && b.AtMost(c)
    ensures a.AtMost(c)
  {
  }

  /** Minimax unfolded, and its maximum started and carried one successor further. */
  lemma {:induction false} MaxOver<S>(g: Game<S>, s: S, depth: nat)
    ensures var ss := g.succ(s, Mine);
      && Minimax(g, s, Mine, depth) ==
           (if Leaf(g, s, depth) then LeafValue(g, s, Mine) else BestOf(g, ss, |ss|, depth + 1))
      && BestOf(g, ss, 0, depth + 1) == NegInf && AllAtMost(g, ss, 0, NegInf, depth + 1)
      && forall i :: 0 <= i < |ss| ==>
           BestOf(g, ss, i + 1, depth + 1) == Max(BestOf(g, ss, i, depth + 1), Minimax(g, ss[i], Opponent, depth + 1))
  {
  }

  lemma {:induction false} MinOver<S>(g: Game<S>, s: S, depth: nat)
    ensures var ss := g.succ(s, Opponent);
      && Minimax(g, s, Opponent, depth)
           == (if Leaf(g, s, depth) then LeafValue(g, s, Opponent) else WorstOf(g, ss, |ss|, depth + 1))
      && WorstOf(g, ss, 0, depth + 1) == PosInf && AllAtLeast(g, ss, 0, PosInf, depth + 1)
      && forall i :: 0 <= i < |ss| ==>
           WorstOf(g, ss, i + 1, depth + 1) == Min(WorstOf(g, ss, i, depth + 1), Minimax(g, ss[i], Mine, depth + 1))
  {
  }

  /** max_value: the trichotomy for every window, hence plain minimax for the infinite one. */
  method MaxValue<S>(g: Game<S>, state: S, depth: nat, alpha0: Ext, beta: Ext) returns (v: Ext, choice: S)
    requires alpha0.Less(beta)
    ensures FailSoft(v, Minimax(g, state, Mine, depth), alpha0, beta)
    ensures GoodChoice(g, state, Mine, depth, v, choice, alpha0, beta)
    ensures alpha0 == NegInf && beta == PosInf ==> v == Minimax(g, state, Mine, depth)
    decreases Remaining(depth)
  {
    hide Minimax, BestOf, WorstOf, AllAtMost;
    MaxOver(g, state, depth);
    choice := state;
    if g.gameValue(state) != 0 {
      return Fin(g.gameValue(state) as real), state;
    }
    if depth >= DEPTH_LIMIT {
      return Fin(g.heuristic(state, Mine)), state;
    }
    var alpha := alpha0;
    v := NegInf;
    var ss := g.succ(state, Mine);
    ghost var best: nat := 0;
    for i := 0 to |ss|
      invariant alpha == Max(alpha0, v) && v.Less(beta)
      invariant FailSoft(v, BestOf(g, ss, i, depth + 1), alpha0, beta) && BestOf(g, ss, i, depth + 1).AtMost(v)
      invariant choice == state || choice in ss
      invariant alpha0.Less(v) ==> FirstAchieving(g, ss, best, Mine, v, depth + 1) && choice == ss[best]
      invariant AllAtMost(g, ss, i, v, depth + 1)
    {
      var val, _ := MinValue(g, ss[i], depth + 1, alpha, beta);
      ghost var exact := Minimax(g, ss[i], Opponent, depth + 1);
      MaxStep(v, val, BestOf(g, ss, i, depth + 1), exact, alpha0, beta);
      AllAtMostStep(g, ss, i, v, val, depth + 1);
      if v.Less(val) {
        v := val;
        choice := ss[i];
        best := i;
      }
      if beta.AtMost(v) {
        BestOfIsMaximum(g, ss, |ss|, depth + 1);
        Transitive(v, exact, BestOf(g, ss, |ss|, depth + 1));
        return v, choice;
      }
      alpha := Max(alpha, v);
    }
  }

  /** min_value, the mirror image. */
  method MinValue<S>(g: Game<S>, state: S, depth: nat, alpha: Ext, beta0: Ext) returns (v: Ext, choice: S)
    requires alpha.Less(beta0)
    ensures FailSoft(v, Minimax(g, state, Opponent, depth), alpha, beta0)
    ensures GoodChoice(g, state, Opponent, depth, v, choice, alpha, beta0)
    ensures alpha == NegInf && beta0 == PosInf ==> v == Minimax(g, state, Opponent, depth)
    decreases Remaining(depth)
  {
    hide Minimax, BestOf, WorstOf, AllAtLeast;
    MinOver(g, state, depth);
    choice := state;
    if g.gameValue(state) != 0 {
      return Fin(g.gameValue(state) as real), state;
    }
    if depth >= DEPTH_LIMIT {
      return Fin(g.heuristic(state, Opponent)), state;
    }
    var beta := beta0;
    v := PosInf;
    var ss := g.succ(state, Opponent);
    ghost var best: nat := 0;
    for i := 0 to |ss|
      invariant beta == Min(beta0, v) && alpha.Less(v)
      invariant FailSoft(v, WorstOf(g, ss, i, depth + 1), alpha, beta0) && v.AtMost(WorstOf(g, ss, i, depth + 1))
      invariant choice == state || choice in ss
      invariant v.Less(beta0) ==> FirstAchieving(g, ss, best, Opponent, v, depth + 1) && choice == ss[best]
      invariant AllAtLeast(g, ss, i, v, depth + 1)
    {
      var val, _ := MaxValue(g, ss[i], depth + 1, alpha, beta);
      ghost var exact := Minimax(g, ss[i], Mine, depth + 1);
      MinStep(v, val, WorstOf(g, ss, i, depth + 1), exact, alpha, beta0);
      AllAtLeastStep(g, ss, i, v, val, depth + 1);
      if val.Less(v) {
        v := val;
        choice := ss[i];
        best := i;
      }
      if v.AtMost(alpha) {
        WorstOfIsMinimum(g, ss, |ss|, depth + 1);
        Transitive(WorstOf(g, ss, |ss|, depth + 1), exact, v);
        return v, choice;
      }
      beta := Min(beta, v);
    }
  }
}
