/** What begin_op's reservation is for: whom it lets in, whom it makes wait, and why. */
module LogReserve {
  import A = LogAdmission
  import opened Params
  import opened Wrappers

  /** Blocks that open operations go on to log, each of them at most MAXOPBLOCKS distinct ones in all; no guard. */
  ghost predicate Continues(s: A.Admission, ws: seq<(nat, int)>)
    decreases |ws|
  {
    ws == [] ||
    (ws[0].0 < |s.ops| && s.ops[ws[0].0].Some? && |s.ops[ws[0].0].value + {ws[0].1}| <= MAXOPBLOCKS &&
     Continues(A.Appended(s, ws[0].0, ws[0].1), ws[1..]))
  }

  ghost function Continued(s: A.Admission, ws: seq<(nat, int)>): A.Admission
    requires Continues(s, ws)
    decreases |ws|
  {
    if ws == [] then s else Continued(A.Appended(s, ws[0].0, ws[0].1), ws[1..])
  }

  /** The open operations can log more than the header holds. */
  ghost predicate CanOverflow(s: A.Admission) {
    exists ws :: Overflows(s, ws)
  }

  ghost predicate Overflows(s: A.Admission, ws: seq<(nat, int)>) {
    Continues(s, ws) && |Continued(s, ws).blocks| > LOGSIZE
  }

  /** Operations have logged at most their share, and what they logged is listed. */
  ghost predicate Listed(s: A.Admission) {
    forall p :: 0 <= p < |s.ops| && s.ops[p].Some? ==>
      |s.ops[p].value| <= MAXOPBLOCKS && forall b :: b in s.ops[p].value ==> b in s.blocks
  }

  lemma {:induction false} AppendCosts(s: A.Admission, p: nat, b: int)
    requires Listed(s) && p < |s.ops| && s.ops[p].Some? && |s.ops[p].value + {b}| <= MAXOPBLOCKS
    ensures var t := A.Appended(s, p, b);
      && Listed(t)
      && |t.blocks| + A.Unspent(t.ops, MAXOPBLOCKS) <= |s.blocks| + A.Unspent(s.ops, MAXOPBLOCKS)
      && (b !in s.blocks ==> |t.blocks| == |s.blocks| + 1
                             && A.Unspent(t.ops, MAXOPBLOCKS) == A.Unspent(s.ops, MAXOPBLOCKS) - 1)
  {
    A.UpdateOps(s.ops, p, Some(s.ops[p].value + {b}), MAXOPBLOCKS);
    if b in s.ops[p].value {
      assert s.ops[p].value + {b} == s.ops[p].value;
    }
  }

  lemma {:induction false} UnspentPositive(ops: seq<Option<set<int>>>)
    requires forall p :: 0 <= p < |ops| && ops[p].Some? ==> |ops[p].value| <= MAXOPBLOCKS
    ensures A.Unspent(ops, MAXOPBLOCKS) >= 0
    ensures A.Unspent(ops, MAXOPBLOCKS) > 0 ==>
      exists p :: 0 <= p < |ops| && ops[p].Some? && |ops[p].value| < MAXOPBLOCKS
  {
    if ops != [] {
      UnspentPositive(ops[1..]);
      if p :| 0 <= p < |ops[1..]| && ops[1..][p].Some? && |ops[1..][p].value| < MAXOPBLOCKS {
        assert ops[p + 1] == ops[1..][p];
      }
    }
  }

  lemma {:induction false} ContinuedBound(s: A.Admission, ws: seq<(nat, int)>)
    requires Listed(s) && Continues(s, ws)
    ensures |Continued(s, ws).blocks| <= |s.blocks| + A.Unspent(s.ops, MAXOPBLOCKS)
    decreases |ws|
  {
    hide A.Appended;
    if ws == [] {
      UnspentPositive(s.ops);
    } else {
      AppendCosts(s, ws[0].0, ws[0].1);
      ContinuedBound(A.Appended(s, ws[0].0, ws[0].1), ws[1..]);
    }
  }

  /** A number that is not in the list. */
  function Fresh(bs: seq<int>): (b: int)
    ensures b !in bs && forall i :: 0 <= i < |bs| ==> bs[i] < b
  {
    if bs == [] then 0
    else
      var b := Fresh(bs[1..]);
      if bs[0] < b then b else bs[0] + 1
  }

  /** Operations that use up their shares. */
  lemma {:induction false} SpendAll(s: A.Admission) returns (ws: seq<(nat, int)>)
    requires Listed(s)
    ensures Continues(s, ws) && |Continued(s, ws).blocks| == |s.blocks| + A.Unspent(s.ops, MAXOPBLOCKS)
    decreases A.Unspent(s.ops, MAXOPBLOCKS)
  {
    UnspentPositive(s.ops);
    if A.Unspent(s.ops, MAXOPBLOCKS) == 0 {
      ws := [];
    } else {
      var p: nat :| p < |s.ops| && s.ops[p].Some? && |s.ops[p].value| < MAXOPBLOCKS;
      var b := Fresh(s.blocks);
      assert |s.ops[p].value + {b}| <= |s.ops[p].value| + 1;
      AppendCosts(s, p, b);
      var t := A.Appended(s, p, b);
      var rest := SpendAll(t);
      ws := [(p, b)] + rest;
      assert ws[1..] == rest;
    }
  }

  /** The header overflows in some continuation exactly when the shares left do not fit. */
  lemma {:induction false} OverflowIff(s: A.Admission)
    requires Listed(s)
    ensures CanOverflow(s) <==> |s.blocks| + A.Unspent(s.ops, MAXOPBLOCKS) > LOGSIZE
  {
    if ws :| Overflows(s, ws) {
      ContinuedBound(s, ws);
    }
    if |s.blocks| + A.Unspent(s.ops, MAXOPBLOCKS) > LOGSIZE {
      var ws := SpendAll(s);
      assert Overflows(s, ws);
    }
  }

  // --- begin_op ---

  /** The state in which process `p` has been let in. */
  function LetIn(s: A.Admission, p: nat): A.Admission
    requires p < |s.ops|
  {
    s.(outstanding := s.outstanding + 1, ops := s.ops[p := Some({})])
  }

  /** begin_op returns instead of going to sleep. */
  predicate GetsIn(s: A.Admission, p: nat)
    requires A.Enabled(s, A.Begin(p))
  {
    A.Step(s, A.Begin(p)) == Some(LetIn(s, p))
  }

  /** What begin_op knows: the header and how many operations are open, but not what these have logged already. */
  function Known(s: A.Admission): A.Admission {
    s.(ops := Untouched(s.ops))
  }

  function Untouched(ops: seq<Option<set<int>>>): (r: seq<Option<set<int>>>)
    ensures |r| == |ops| && forall p :: 0 <= p < |ops| ==> r[p] == if ops[p].Some? then Some({}) else None
  {
    seq(|ops|, p requires 0 <= p < |ops| => if ops[p].Some? then Some({}) else None)
  }

  lemma {:induction false} FullShares(ops: seq<Option<set<int>>>)
    requires forall p :: 0 <= p < |ops| && ops[p].Some? ==> ops[p].value == {}
    ensures A.Unspent(ops, MAXOPBLOCKS) == MAXOPBLOCKS * A.Opened(ops)
  {
    if ops != [] {
      FullShares(ops[1..]);
    }
  }

  lemma {:induction false} NothingLeft(ops: seq<Option<set<int>>>)
    requires forall p :: 0 <= p < |ops| && ops[p].Some? ==> |ops[p].value| == MAXOPBLOCKS
    ensures A.Unspent(ops, MAXOPBLOCKS) == 0
  {
    if ops != [] {
      NothingLeft(ops[1..]);
    }
  }

  lemma {:induction false} SameOpened(ops: seq<Option<set<int>>>)
    ensures A.Opened(Untouched(ops)) == A.Opened(ops)
  {
    if ops != [] {
      SameOpened(ops[1..]);
      assert Untouched(ops)[1..] == Untouched(ops[1..]);
    }
  }

  lemma {:induction false} LetInListed(s: A.Admission, p: nat)
    requires Listed(s) && p < |s.ops| && s.ops[p].None?
    ensures Listed(LetIn(s, p))
    ensures A.Unspent(LetIn(s, p).ops, MAXOPBLOCKS) == A.Unspent(s.ops, MAXOPBLOCKS) + MAXOPBLOCKS
  {
    A.UpdateOps(s.ops, p, Some({}), MAXOPBLOCKS);
  }

  /** While no commit runs, begin_op makes a process wait exactly when, for all it knows, the open operations and the
      new one could log more than the header holds. */
  lemma {:induction false} WaitsForCause(s: A.Admission, p: nat)
    requires A.Inv(s, MAXOPBLOCKS) && A.Enabled(s, A.Begin(p)) && !s.committing
    ensures !GetsIn(s, p) <==> CanOverflow(LetIn(Known(s), p))
    ensures !GetsIn(s, p) ==> A.Step(s, A.Begin(p)) == Some(s)
  {
    var k := Known(s);
    FullShares(k.ops);
    SameOpened(s.ops);
    LetInListed(k, p);
    OverflowIff(LetIn(k, p));
    assert LetIn(s, p).ops[p].Some?;
  }

  /** Who gets in cannot make the header overflow; who waits could, unless the open operations have logged enough of
      their shares already. */
  lemma {:induction false} AdmittedFits(s: A.Admission, p: nat)
    requires A.Inv(s, MAXOPBLOCKS) && A.Enabled(s, A.Begin(p)) && !s.committing
    ensures GetsIn(s, p) ==> !CanOverflow(LetIn(s, p))
    ensures !GetsIn(s, p) ==>
      (CanOverflow(LetIn(s, p)) <==> |s.blocks| + A.Unspent(s.ops, MAXOPBLOCKS) + MAXOPBLOCKS > LOGSIZE)
  {
    LetInListed(s, p);
    OverflowIff(LetIn(s, p));
    A.UnspentBound(s.ops, MAXOPBLOCKS);
  }

  /** So a process may wait without need: two operations have logged their full shares, and a third one, which would
      just fit, is not let in. */
  lemma {:induction false} WaitsWithoutNeed(size: nat, nproc: nat) returns (es: seq<A.Event>, s: A.Admission)
    requires nproc >= 3 && size > 2 * MAXOPBLOCKS
    ensures A.Run(A.Init(size, nproc), es, MAXOPBLOCKS) && A.After(A.Init(size, nproc), es, MAXOPBLOCKS) == Some(s)
    ensures A.Enabled(s, A.Begin(2)) && !s.committing && !GetsIn(s, 2) && !CanOverflow(LetIn(s, 2))
  {
    es := A.LogTwo(size, nproc, 0, MAXOPBLOCKS, MAXOPBLOCKS, MAXOPBLOCKS);
    s := A.After(A.Init(size, nproc), es, MAXOPBLOCKS).value;
    A.InitInv(size, nproc, MAXOPBLOCKS);
    A.RunInv(A.Init(size, nproc), es, MAXOPBLOCKS);
    NothingLeft(s.ops);
    AdmittedFits(s, 2);
  }

  // --- How many operations can be open ---

  /** The first `k` processes have called begin_op and got in. */
  lemma {:induction false} OpenMany(size: nat, nproc: nat, k: nat) returns (es: seq<A.Event>, s: A.Admission)
    requires k <= nproc && k * MAXOPBLOCKS <= LOGSIZE
    ensures A.Run(A.Init(size, nproc), es, MAXOPBLOCKS) && A.After(A.Init(size, nproc), es, MAXOPBLOCKS) == Some(s)
    ensures |s.ops| == nproc && s.blocks == [] && s.outstanding == k && !s.committing
    ensures forall p :: 0 <= p < nproc ==> (s.ops[p].Some? <==> p < k)
  {
    var s0 := A.Init(size, nproc);
    if k == 0 {
      es, s := [], s0;
    } else {
      var xs, t := OpenMany(size, nproc, k - 1);
      var e := A.Begin(k - 1);
      s := A.Step(t, e).value;
      assert A.Run(s, [], MAXOPBLOCKS);
      assert A.Run(t, [e], MAXOPBLOCKS) && A.After(t, [e], MAXOPBLOCKS) == Some(s);
      A.RunConcat(s0, xs, [e], MAXOPBLOCKS);
      es := xs + [e];
    }
  }

  lemma {:induction false} NeverMoreOpen(s: A.Admission, es: seq<A.Event>, m: nat)
    requires A.Run(s, es, m) && A.After(s, es, m).Some? && s.outstanding <= LOGSIZE / MAXOPBLOCKS
    ensures A.After(s, es, m).value.outstanding <= LOGSIZE / MAXOPBLOCKS
    decreases |es|
  {
    if es != [] {
      NeverMoreOpen(A.Step(s, es[0]).value, es[1..], m);
    }
  }

  /** LOGSIZE / MAXOPBLOCKS operations can be open at once, and never more. */
  lemma {:induction false} MostOpen(size: nat, nproc: nat) returns (es: seq<A.Event>, s: A.Admission)
    requires nproc >= LOGSIZE / MAXOPBLOCKS
    ensures A.Run(A.Init(size, nproc), es, MAXOPBLOCKS) && A.After(A.Init(size, nproc), es, MAXOPBLOCKS) == Some(s)
    ensures s.outstanding == A.Opened(s.ops) == LOGSIZE / MAXOPBLOCKS
    ensures forall fs, m :: A.Run(A.Init(size, nproc), fs, m) && A.After(A.Init(size, nproc), fs, m).Some? ==>
      A.After(A.Init(size, nproc), fs, m).value.outstanding <= LOGSIZE / MAXOPBLOCKS
  {
    es, s := OpenMany(size, nproc, LOGSIZE / MAXOPBLOCKS);
    A.InitInv(size, nproc, MAXOPBLOCKS);
    A.RunInv(A.Init(size, nproc), es, MAXOPBLOCKS);
    forall fs, m | A.Run(A.Init(size, nproc), fs, m) && A.After(A.Init(size, nproc), fs, m).Some?
      ensures A.After(A.Init(size, nproc), fs, m).value.outstanding <= LOGSIZE / MAXOPBLOCKS
    {
      NeverMoreOpen(A.Init(size, nproc), fs, m);
    }
  }
}
