/** log_write reads lh.n and outstanding before it takes log.lock, so other processes may log blocks between its
    guard and its append. Here they are two steps. The reservations hold all the same, and so does the condition
    under which nobody panics; but the guard no longer keeps the header within the log. */
module LogRace {
  import A = LogAdmission
  import opened Params
  import opened Wrappers

  /** `passed[p]` is the block that process p is about to append, having passed the guard. */
  datatype State = State(log: A.Admission, passed: seq<Option<int>>)

  datatype Event = Check(p: nat, b: int) | Append(p: nat) | Other(e: A.Event)

  function Quiet(s: A.Admission): State {
    State(s, seq(|s.ops|, _ => None))
  }

  predicate Enabled(s: State, e: Event) {
    && |s.passed| == |s.log.ops|
    && match e
       case Check(p, b) => p < |s.passed| && s.log.ops[p].Some? && s.passed[p].None?
       case Append(p) => p < |s.passed| && s.log.ops[p].Some? && s.passed[p].Some?
       case Other(o) => !o.Write? && A.Enabled(s.log, o) && (o.Committed? || s.passed[o.p].None?)
  }

  /** None is a panic. */
  function Step(s: State, e: Event): Option<State>
    requires Enabled(s, e)
  {
    match e
    case Check(p, b) =>
      if A.TooBig(s.log) || s.log.outstanding < 1 then None
      else Some(s.(passed := s.passed[p := Some(b)]))
    case Append(p) => Some(State(A.Appended(s.log, p, s.passed[p].value), s.passed[p := None]))
    case Other(o) =>
      match A.Step(s.log, o)
      case None => None
      case Some(t) => Some(s.(log := t))
  }

  /** log_write is called with a block that leaves the operation with at most `m`. */
  predicate WithinBudget(s: State, e: Event, m: nat)
    requires Enabled(s, e)
  {
    e.Check? ==> |s.log.ops[e.p].value + {e.b}| <= m
  }

  predicate Run(s: State, es: seq<Event>, m: nat)
    decreases |es|
  {
    es == [] ||
    (Enabled(s, es[0]) && WithinBudget(s, es[0], m) &&
     match Step(s, es[0])
     case None => |es| == 1
     case Some(t) => Run(t, es[1..], m))
  }

  function After(s: State, es: seq<Event>, m: nat): Option<State>
    requires Run(s, es, m)
    decreases |es|
  {
    if es == [] then Some(s)
    else match Step(s, es[0]) case None => None case Some(t) => After(t, es[1..], m)
  }

  // ---------------------------------------------------------------- what survives

  ghost predicate Inv(s: State, m: nat) {
    && A.Inv(s.log, m) && |s.passed| == |s.log.ops|
    && forall p :: 0 <= p < |s.passed| && s.passed[p].Some? ==>
         s.log.ops[p].Some? && |s.log.ops[p].value + {s.passed[p].value}| <= m
  }

  lemma {:induction false} StepInv(s: State, e: Event, m: nat)
    requires m <= MAXOPBLOCKS && Inv(s, m) && Enabled(s, e) && WithinBudget(s, e, m) && Step(s, e).Some?
    ensures Inv(Step(s, e).value, m)
  {
    hide A.Inv;
    match e
    case Check(p, b) =>
    case Append(p) => A.AppendInv(s.log, p, s.passed[p].value, m);
    case Other(o) => A.StepInv(s.log, o, m);
  }

  lemma {:induction false} AtMostPeak(s: A.Admission, m: nat)
    requires A.Inv(s, m)
    ensures |s.blocks| <= A.Peak(m)
  {
    if s.ops != [] {
      A.SomeOpen(s.ops, 0, m);
    }
  }

  /** The reservations survive the race: after every run the header and what the open operations may still log
      fit LOGSIZE, the numbers are distinct, and no run builds a longer header than the peak. */
  lemma {:induction false} RunInv(s: State, es: seq<Event>, m: nat)
    requires m <= MAXOPBLOCKS && Inv(s, m) && Run(s, es, m) && After(s, es, m).Some?
    ensures var t := After(s, es, m).value;
      && Inv(t, m) && t.log.size == s.log.size
      && |t.log.blocks| + A.Unspent(t.log.ops, MAXOPBLOCKS) <= LOGSIZE
      && |t.log.blocks| <= A.Peak(m)
    decreases |es|
  {
    hide Enabled, Step, WithinBudget;
    if es == [] {
      AtMostPeak(s.log, m);
    } else {
      StepInv(s, es[0], m);
      SameSize(s, es[0]);
      RunInv(Step(s, es[0]).value, es[1..], m);
    }
  }

  lemma SameSize(s: State, e: Event)
    requires Enabled(s, e) && Step(s, e).Some?
    ensures Step(s, e).value.log.size == s.log.size
  {
  }

  lemma {:induction false} InitInv(size: nat, nproc: nat, m: nat)
    ensures Inv(Quiet(A.Init(size, nproc)), m)
  {
    A.InitInv(size, nproc, m);
  }

  lemma {:induction false} NoPanicBelowPeak(s: State, es: seq<Event>, m: nat)
    requires m <= MAXOPBLOCKS && Inv(s, m) && Run(s, es, m)
    requires A.Peak(m) < LOGSIZE && A.Peak(m) < s.log.size - 1
    ensures After(s, es, m).Some?
    decreases |es|
  {
    if es != [] {
      StepBelowPeak(s, es[0], m);
      StepInv(s, es[0], m);
      SameSize(s, es[0]);
      hide Enabled, Step, WithinBudget, Inv;
      NoPanicBelowPeak(Step(s, es[0]).value, es[1..], m);
    }
  }

  lemma {:induction false} StepBelowPeak(s: State, e: Event, m: nat)
    requires m <= MAXOPBLOCKS && Inv(s, m) && Enabled(s, e) && WithinBudget(s, e, m)
    requires A.Peak(m) < LOGSIZE && A.Peak(m) < s.log.size - 1
    ensures Step(s, e).Some?
  {
    AtMostPeak(s.log, m);
    if e.Check? {
      A.OpenInv(s.log, e.p, m);
    } else if e.Other? && e.e.End? {
      A.OpenInv(s.log, e.e.p, m);
    }
  }

  // ---------------------------------------------------------------- the atomic model is a special case

  lemma {:induction false} RunConcat(s: State, xs: seq<Event>, ys: seq<Event>, m: nat)
    requires Run(s, xs, m) && After(s, xs, m).Some? && Run(After(s, xs, m).value, ys, m)
    ensures Run(s, xs + ys, m) && After(s, xs + ys, m) == After(After(s, xs, m).value, ys, m)
    decreases |xs|
  {
    hide Enabled, Step, WithinBudget;
    if xs == [] {
      assert xs + ys == ys;
    } else {
      RunConcat(Step(s, xs[0]).value, xs[1..], ys, m);
      assert (xs + ys)[1..] == xs[1..] + ys;
    }
  }

  /** What one step of the atomic model is made of. */
  lemma {:induction false} EmbedStep(s: A.Admission, e: A.Event, m: nat) returns (rs: seq<Event>)
    requires A.Enabled(s, e) && A.WithinBudget(s, e, m)
    ensures Run(Quiet(s), rs, m)
    ensures After(Quiet(s), rs, m) == match A.Step(s, e) case None => None case Some(t) => Some(Quiet(t))
  {
    var q := Quiet(s);
    var f := if e.Write? then Check(e.p, e.b) else Other(e);
    var o := Step(q, f);
    if e.Write? && o.Some? {
      rs := [f, Append(e.p)];
      var r := Step(o.value, rs[1]);
      assert r.value == Quiet(A.Step(s, e).value);
      assert rs[1..] == [Append(e.p)] && rs[1..][1..] == [];
      assert Run(r.value, [], m);
      assert Run(o.value, rs[1..], m) && After(o.value, rs[1..], m) == r;
    } else {
      rs := [f];
      assert rs[1..] == [];
      if o.Some? {
        assert o.value == Quiet(A.Step(s, e).value);
        assert Run(o.value, [], m);
      }
    }
  }

  lemma {:induction false} Embed(s: A.Admission, es: seq<A.Event>, m: nat) returns (rs: seq<Event>)
    requires A.Run(s, es, m)
    ensures Run(Quiet(s), rs, m)
    ensures After(Quiet(s), rs, m) == match A.After(s, es, m) case None => None case Some(t) => Some(Quiet(t))
    decreases |es|
  {
    hide Run, After, Quiet;
    if es == [] {
      rs := [];
      NoEvents(Quiet(s), m);
    } else {
      rs := EmbedStep(s, es[0], m);
      if A.Step(s, es[0]).Some? {
        var t := A.Step(s, es[0]).value;
        var rest := Embed(t, es[1..], m);
        RunConcat(Quiet(s), rs, rest, m);
        rs := rs + rest;
      }
    }
  }

  lemma NoEvents(s: State, m: nat)
    ensures Run(s, [], m) && After(s, [], m) == Some(s)
  {
  }

  ghost predicate PanicFree(size: nat, nproc: nat, m: nat) {
    forall rs :: Run(Quiet(A.Init(size, nproc)), rs, m) ==> After(Quiet(A.Init(size, nproc)), rs, m).Some?
  }

  /** With the guard outside the lock, nobody panics under the same condition as with the guard inside. */
  lemma {:induction false} PanicFreeIff(size: nat, nproc: nat, m: nat)
    requires nproc >= 2 && 1 <= m <= MAXOPBLOCKS
    ensures PanicFree(size, nproc, m) <==> (A.Peak(m) < LOGSIZE && A.Peak(m) < size - 1)
  {
    var s := A.Init(size, nproc);
    if A.Peak(m) < LOGSIZE && A.Peak(m) < size - 1 {
      InitInv(size, nproc, m);
      forall rs | Run(Quiet(s), rs, m)
        ensures After(Quiet(s), rs, m).Some?
      {
        NoPanicBelowPeak(Quiet(s), rs, m);
      }
    } else {
      var es := A.PanicAtPeak(size, nproc, m);
      var rs := Embed(s, es, m);
    }
  }

  // ---------------------------------------------------------------- what does not survive

  /** The listed blocks have room behind the header block. */
  predicate FitsLog(s: A.Admission) {
    s.blocks == [] || |s.blocks| < s.size
  }

  /** No run of operations of at most `m` blocks lists more blocks than the log has. */
  ghost predicate StaysInLog(size: nat, nproc: nat, m: nat) {
    forall rs :: Run(Quiet(A.Init(size, nproc)), rs, m) && After(Quiet(A.Init(size, nproc)), rs, m).Some? ==>
      FitsLog(After(Quiet(A.Init(size, nproc)), rs, m).value.log)
  }

  /** Two open operations, of processes 0 and 1, can each log another block, and the log has room for one. */
  ghost predicate AtTheBrink(s: A.Admission, m: nat) {
    && |s.ops| >= 2 && s.ops[0].Some? && s.ops[1].Some? && s.outstanding >= 1
    && s.blocks == A.Upto(|s.blocks|) && |s.blocks| + 2 == s.size && |s.blocks| < LOGSIZE
    && |s.ops[0].value| < m && |s.ops[1].value| < m
  }

  /** Ten or fewer blocks of finished operations, and the rest from the two open ones. */
  lemma {:induction false} ToTheBrink(size: nat, nproc: nat, m: nat) returns (es: seq<A.Event>)
    requires nproc >= 2 && 1 <= m <= MAXOPBLOCKS && 2 <= size <= A.Peak(m)
    ensures A.Run(A.Init(size, nproc), es, m) && A.After(A.Init(size, nproc), es, m).Some?
    ensures AtTheBrink(A.After(A.Init(size, nproc), es, m).value, m)
  {
    hide A.Run, A.After;
    var k := if size - 2 < MAXOPBLOCKS then size - 2 else MAXOPBLOCKS;
    var rest: nat := size - 2 - k;
    var c1 := if rest < m then rest else m - 1;
    es := A.LogTwo(size, nproc, k, rest - c1, c1, m);
  }

  /** Both processes pass the guard before either appends. */
  lemma {:induction false} BothPass(s: A.Admission, m: nat) returns (rs: seq<Event>)
    requires AtTheBrink(s, m)
    ensures Run(Quiet(s), rs, m) && After(Quiet(s), rs, m).Some?
    ensures |After(Quiet(s), rs, m).value.log.blocks| == s.size == After(Quiet(s), rs, m).value.log.size
  {
    var n := |s.blocks|;
    rs := [Check(0, n), Check(1, n + 1), Append(0), Append(1)];
    var t0 := Quiet(s);
    var t1 := Step(t0, rs[0]).value;
    var t2 := Step(t1, rs[1]).value;
    var t3 := Step(t2, rs[2]).value;
    var t4 := Step(t3, rs[3]).value;
    assert t3.log.blocks == s.blocks + [n];
    assert t4.log.blocks == s.blocks + [n] + [n + 1];
    assert rs[1..] == [Check(1, n + 1), Append(0), Append(1)];
    assert rs[1..][1..] == [Append(0), Append(1)];
    assert rs[1..][1..][1..] == [Append(1)];
    assert rs[1..][1..][1..][1..] == [];
    assert Run(t4, [], m) && After(t4, [], m) == Some(t4);
    assert Run(t3, [Append(1)], m) && After(t3, [Append(1)], m) == Some(t4);
    assert Run(t2, rs[1..][1..], m) && After(t2, rs[1..][1..], m) == Some(t4);
    assert Run(t1, rs[1..], m) && After(t1, rs[1..], m) == Some(t4);
  }

  /** The header stays within the log exactly when the peak does: the guard adds nothing. */
  lemma {:induction false} StaysInLogIff(size: nat, nproc: nat, m: nat)
    requires nproc >= 2 && 1 <= m <= MAXOPBLOCKS
    ensures StaysInLog(size, nproc, m) <==> size < 2 || A.Peak(m) < size
  {
    var s := Quiet(A.Init(size, nproc));
    InitInv(size, nproc, m);
    if size >= 2 && A.Peak(m) >= size {
      var es := ToTheBrink(size, nproc, m);
      var t := A.After(A.Init(size, nproc), es, m).value;
      var rs := Embed(A.Init(size, nproc), es, m);
      var more := BothPass(t, m);
      RunConcat(s, rs, more, m);
      assert !FitsLog(After(s, rs + more, m).value.log);
    } else {
      forall rs | Run(s, rs, m) && After(s, rs, m).Some?
        ensures FitsLog(After(s, rs, m).value.log)
      {
        RunInv(s, rs, m);
        if size < 2 {
          NothingLogged(s, rs, m);
        }
      }
    }
  }

  /** A log without data blocks: every log_write panics. */
  lemma {:induction false} NothingLogged(s: State, es: seq<Event>, m: nat)
    requires Run(s, es, m) && After(s, es, m).Some?
    requires s.log.size < 2 && s.log.blocks == [] && forall p :: 0 <= p < |s.passed| ==> s.passed[p].None?
    ensures After(s, es, m).value.log.blocks == []
    decreases |es|
  {
    if es != [] {
      NothingLogged(Step(s, es[0]).value, es[1..], m);
    }
  }

  /** With the log of mkfs two operations that use their full budget can list one block more than the log has;
      one block less each, and the header stays within the log and nobody panics. */
  lemma MkfsRace(nproc: nat)
    requires nproc >= 2
    ensures !StaysInLog(LOGSIZE, nproc, MAXOPBLOCKS)
    ensures StaysInLog(LOGSIZE, nproc, MAXOPBLOCKS - 1) && PanicFree(LOGSIZE, nproc, MAXOPBLOCKS - 1)
  {
    StaysInLogIff(LOGSIZE, nproc, MAXOPBLOCKS);
    StaysInLogIff(LOGSIZE, nproc, MAXOPBLOCKS - 1);
    PanicFreeIff(LOGSIZE, nproc, MAXOPBLOCKS - 1);
  }
}
