/** Admission control of the write-ahead log: begin_op, end_op and log_write as atomic steps of many
    processes under log.lock, with the block numbers of the transaction but not their contents. */
module LogAdmission {
  import opened Params
  import opened Sequences
  import opened Wrappers

  /** `ops[p]` is the set of blocks that the open operation of process `p` has logged. */
  datatype Admission = Admission(
    size: nat,                      // blocks of the on-disk log, header included
    blocks: seq<int>,               // log.lh.block[..log.lh.n]
    outstanding: int,
    committing: bool,
    ops: seq<Option<set<int>>>)

  datatype Event = Begin(p: nat) | Write(p: nat, b: int) | End(p: nat) | Committed

  function Init(size: nat, nproc: nat): Admission {
    Admission(size, [], 0, false, seq(nproc, _ => None))
  }

  /** One pass of begin_op's loop: sleep (false) or be admitted (true). */
  predicate Admits(s: Admission) {
    !s.committing && |s.blocks| + (s.outstanding + 1) * MAXOPBLOCKS <= LOGSIZE
  }

  /** log_write's first guard panics. */
  predicate TooBig(s: Admission) {
    |s.blocks| >= LOGSIZE || |s.blocks| >= s.size - 1
  }

  /** Log absorption: a block already in the header is not added again. */
  function Absorb(blocks: seq<int>, b: int): seq<int> {
    if b in blocks then blocks else blocks + [b]
  }

  /** What log_write does under log.lock. */
  function Appended(s: Admission, p: nat, b: int): Admission
    requires p < |s.ops| && s.ops[p].Some?
  {
    s.(blocks := Absorb(s.blocks, b), ops := s.ops[p := Some(s.ops[p].value + {b})])
  }

  /** The program order of processes: who may do what next. */
  predicate Enabled(s: Admission, e: Event) {
    match e
    case Begin(p) => p < |s.ops| && s.ops[p].None?
    case Write(p, b) => p < |s.ops| && s.ops[p].Some?
    case End(p) => p < |s.ops| && s.ops[p].Some?
    case Committed => s.committing
  }

  /** None is a panic; a sleeping begin_op leaves the state alone. log_write evaluates its guard before it takes
      log.lock; here that and the append are one step, in LogRace they are two. */
  function Step(s: Admission, e: Event): Option<Admission>
    requires Enabled(s, e)
  {
    match e
    case Begin(p) =>
      if !Admits(s) then Some(s)
      else Some(s.(outstanding := s.outstanding + 1, ops := s.ops[p := Some({})]))
    case Write(p, b) =>
      if TooBig(s) || s.outstanding < 1 then None
      else Some(Appended(s, p, b))
    case End(p) =>
      if s.committing then None
      else Some(s.(outstanding := s.outstanding - 1, committing := s.outstanding == 1, ops := s.ops[p := None]))
    case Committed => Some(s.(blocks := [], committing := false))
  }

  /** Every write leaves its operation with at most `m` distinct blocks. */
  predicate WithinBudget(s: Admission, e: Event, m: nat)
    requires Enabled(s, e)
  {
    e.Write? ==> |s.ops[e.p].value + {e.b}| <= m
  }

  /** Runs in which every operation logs at most `m` distinct blocks; the event that panics may be last. */
  predicate Run(s: Admission, es: seq<Event>, m: nat)
    decreases |es|
  {
    es == [] ||
    (Enabled(s, es[0]) && WithinBudget(s, es[0], m) &&
     match Step(s, es[0])
     case None => |es| == 1
     case Some(t) => Run(t, es[1..], m))
  }

  /** The state a run ends in; None when it ended in a panic. */
  function After(s: Admission, es: seq<Event>, m: nat): Option<Admission>
    requires Run(s, es, m)
    decreases |es|
  {
    if es == [] then Some(s)
    else match Step(s, es[0]) case None => None case Some(t) => After(t, es[1..], m)
  }

  function Opened(ops: seq<Option<set<int>>>): nat {
    if ops == [] then 0 else (if ops[0].Some? then 1 else 0) + Opened(ops[1..])
  }

  /** Blocks the open operations may still log when each may log `m`. */
  function Unspent(ops: seq<Option<set<int>>>, m: nat): int {
    if ops == [] then 0 else (if ops[0].Some? then m - |ops[0].value| else 0) + Unspent(ops[1..], m)
  }

  lemma {:induction false} UpdateOps(ops: seq<Option<set<int>>>, p: nat, o: Option<set<int>>, m: nat)
    requires p < |ops|
    ensures Opened(ops[p := o]) == Opened(ops) - (if ops[p].Some? then 1 else 0) + (if o.Some? then 1 else 0)
    ensures Unspent(ops[p := o], m) == Unspent(ops, m) - (if ops[p].Some? then m - |ops[p].value| else 0)
                                                       + (if o.Some? then m - |o.value| else 0)
  {
    if p == 0 {
      assert ops[p := o][1..] == ops[1..];
    } else {
      UpdateOps(ops[1..], p - 1, o, m);
      assert ops[p := o][1..] == ops[1..][p - 1 := o];
    }
  }

  lemma {:induction false} SomeOpen(ops: seq<Option<set<int>>>, p: nat, m: nat)
    requires p < |ops| && forall i :: 0 <= i < |ops| && ops[i].Some? ==> |ops[i].value| <= m
    ensures Opened(ops) >= 0 && Unspent(ops, m) >= 0
    ensures ops[p].Some? ==> Opened(ops) >= 1 && Unspent(ops, m) >= m - |ops[p].value|
    decreases |ops|
  {
    if |ops| > 1 {
      SomeOpen(ops[1..], if p > 0 then p - 1 else 0, m);
    }
  }

  /** The invariant of every run in which operations log at most `m` distinct blocks. */
  ghost predicate Inv(s: Admission, m: nat) {
    && Distinct(s.blocks)
    && s.outstanding == Opened(s.ops)
    && (s.committing ==> s.outstanding == 0)
    && (s.outstanding == 0 && !s.committing ==> s.blocks == [])
    && (forall p :: 0 <= p < |s.ops| && s.ops[p].Some? ==>
          |s.ops[p].value| <= m && forall b :: b in s.ops[p].value ==> b in s.blocks)
    && |s.blocks| + Unspent(s.ops, MAXOPBLOCKS) <= LOGSIZE
    && |s.blocks| + Unspent(s.ops, m) <= MAXOPBLOCKS + 2 * m
  }

  lemma {:induction false} InitUnspent(nproc: nat, m: nat)
    ensures Unspent(seq(nproc, _ => None), m) == 0 && Opened(seq(nproc, _ => None)) == 0
  {
    if nproc > 0 {
      var t: seq<Option<set<int>>> := seq(nproc, _ => None);
      InitUnspent(nproc - 1, m);
      assert t[1..] == seq(nproc - 1, _ => None);
    }
  }

  lemma InitInv(size: nat, nproc: nat, m: nat)
    ensures Inv(Init(size, nproc), m)
  {
    InitUnspent(nproc, m);
    InitUnspent(nproc, MAXOPBLOCKS);
  }

  lemma BeginInv(s: Admission, p: nat, m: nat)
    requires m <= MAXOPBLOCKS && Inv(s, m) && Enabled(s, Begin(p)) && Admits(s)
    ensures Inv(Step(s, Begin(p)).value, m)
  {
    var ops := s.ops[p := Some({})];
    UpdateOps(s.ops, p, Some({}), m);
    UpdateOps(s.ops, p, Some({}), MAXOPBLOCKS);
    UnspentBound(ops, m);
    UnspentBound(ops, MAXOPBLOCKS);
    SomeOpen(s.ops, p, m);
    var k := Opened(ops);
    assert k == 1 || k == 2 || k == 3;
    assert m * k == if k == 1 then m else if k == 2 then m + m else m + m + m;
  }

  /** The append keeps the invariant whatever the guard has seen. */
  lemma AppendInv(s: Admission, p: nat, b: int, m: nat)
    requires m <= MAXOPBLOCKS && Inv(s, m) && p < |s.ops| && s.ops[p].Some? && |s.ops[p].value + {b}| <= m
    ensures Inv(Appended(s, p, b), m)
  {
    var o := Some(s.ops[p].value + {b});
    UpdateOps(s.ops, p, o, m);
    UpdateOps(s.ops, p, o, MAXOPBLOCKS);
    SomeOpen(s.ops, p, m);
    if b in s.ops[p].value {
      assert o.value == s.ops[p].value;
    } else {
      assert |o.value| == |s.ops[p].value| + 1;
    }
  }

  lemma EndInv(s: Admission, p: nat, m: nat)
    requires m <= MAXOPBLOCKS && Inv(s, m) && Enabled(s, End(p)) && Step(s, End(p)).Some?
    ensures Inv(Step(s, End(p)).value, m)
  {
    UpdateOps(s.ops, p, None, m);
    UpdateOps(s.ops, p, None, MAXOPBLOCKS);
    SomeOpen(s.ops, p, m);
  }

  lemma CommittedInv(s: Admission, m: nat)
    requires m <= MAXOPBLOCKS && Inv(s, m) && s.committing
    ensures Inv(s.(blocks := [], committing := false), m)
  {
    forall p | 0 <= p < |s.ops| ensures s.ops[p].None? {
      SomeOpen(s.ops, p, m);
    }
    UnspentBound(s.ops, m);
    UnspentBound(s.ops, MAXOPBLOCKS);
  }

  lemma OpenInv(s: Admission, p: nat, m: nat)
    requires Inv(s, m) && p < |s.ops| && s.ops[p].Some?
    ensures s.outstanding >= 1 && !s.committing
  {
    SomeOpen(s.ops, p, m);
  }

  lemma StepInv(s: Admission, e: Event, m: nat)
    requires m <= MAXOPBLOCKS && Inv(s, m) && Enabled(s, e) && WithinBudget(s, e, m) && Step(s, e).Some?
    ensures Inv(Step(s, e).value, m)
  {
    match e
    case Begin(p) => if Admits(s) { BeginInv(s, p, m); }
    case Write(p, b) => AppendInv(s, p, b, m);
    case End(p) => EndInv(s, p, m);
    case Committed => CommittedInv(s, m);
  }

  lemma {:induction false} UnspentBound(ops: seq<Option<set<int>>>, m: nat)
    ensures Unspent(ops, m) <= m * Opened(ops)
  {
    if ops != [] {
      UnspentBound(ops[1..], m);
    }
  }

  /** Reservation and isolation over all runs: the header never holds more than its reservations allow,
      its block numbers are distinct, and a commit runs only while no operation is open. */
  lemma {:induction false} RunInv(s: Admission, es: seq<Event>, m: nat)
    requires m <= MAXOPBLOCKS && Inv(s, m) && Run(s, es, m) && After(s, es, m).Some?
    ensures var t := After(s, es, m).value;
      && Inv(t, m)
      && |t.blocks| + Unspent(t.ops, MAXOPBLOCKS) <= LOGSIZE
      && Distinct(t.blocks)
      && (t.committing ==> forall p :: 0 <= p < |t.ops| ==> t.ops[p].None?)
      && t.size == s.size
    decreases |es|
  {
    if es == [] {
      if s.committing {
        forall p | 0 <= p < |s.ops| ensures s.ops[p].None? {
          SomeOpen(s.ops, p, m);
        }
      }
    } else {
      StepInv(s, es[0], m);
      RunInv(Step(s, es[0]).value, es[1..], m);
    }
  }

  // --- When does log_write panic? ---

  lemma {:induction false} RunConcat(s: Admission, xs: seq<Event>, ys: seq<Event>, m: nat)
    requires Run(s, xs, m) && After(s, xs, m).Some? && Run(After(s, xs, m).value, ys, m)
    ensures Run(s, xs + ys, m) && After(s, xs + ys, m) == After(After(s, xs, m).value, ys, m)
    decreases |xs|
  {
    if xs == [] {
      assert xs + ys == ys;
    } else {
      RunConcat(Step(s, xs[0]).value, xs[1..], ys, m);
      assert (xs + ys)[1..] == xs[1..] + ys;
    }
  }

  /** Largest header any run can build when operations log at most `m` blocks. */
  function Peak(m: nat): nat {
    MAXOPBLOCKS + 2 * m
  }

  lemma {:induction false} NoPanicBelowPeak(s: Admission, es: seq<Event>, m: nat)
    requires m <= MAXOPBLOCKS && Inv(s, m) && Run(s, es, m)
    requires Peak(m) < LOGSIZE && Peak(m) < s.size - 1
    ensures After(s, es, m).Some?
    decreases |es|
  {
    if es != [] {
      var e := es[0];
      if e.Write? || e.End? {
        SomeOpen(s.ops, e.p, m);
      }
      StepInv(s, e, m);
      NoPanicBelowPeak(Step(s, e).value, es[1..], m);
    }
  }

  function Upto(k: nat): (r: seq<int>)
    ensures |r| == k && forall i :: 0 <= i < k ==> r[i] == i
  {
    seq(k, i => i)
  }

  /** Process `p` logs `count` new blocks in a row, or the log panics on the way. */
  lemma {:induction false} LogMany(s: Admission, p: nat, count: nat, m: nat) returns (es: seq<Event>)
    requires p < |s.ops| && s.ops[p].Some? && s.outstanding >= 1
    requires s.blocks == Upto(|s.blocks|) && |s.ops[p].value| + count <= m
    requires forall b :: b in s.ops[p].value ==> b < |s.blocks|
    ensures Run(s, es, m)
    ensures |s.blocks| + count < s.size && |s.blocks| + count <= LOGSIZE ==> After(s, es, m).Some?
    ensures After(s, es, m).Some? ==>
      var t := After(s, es, m).value;
      && t.blocks == Upto(|s.blocks| + count)
      && |t.ops| == |s.ops| && t.ops[p].Some? && |t.ops[p].value| == |s.ops[p].value| + count
      && t == s.(blocks := t.blocks, ops := s.ops[p := t.ops[p]])
      && (forall b :: b in t.ops[p].value ==> b < |t.blocks|)
      && (count > 0 ==> |t.blocks| - 1 in t.ops[p].value)
    decreases count
  {
    if count == 0 {
      es := [];
    } else {
      var rest := LogMany(s, p, count - 1, m);
      if After(s, rest, m).None? {
        es := rest;
      } else {
        var t := After(s, rest, m).value;
        var e := Write(p, |t.blocks|);
        assert |t.ops[p].value + {|t.blocks|}| == |t.ops[p].value| + 1;
        assert Run(t, [e], m);
        RunConcat(s, rest, [e], m);
        es := rest + [e];
        if Step(t, e).Some? {
          var u := Step(t, e).value;
          assert After(t, [e], m) == After(u, [], m) == Some(u);
          assert u.blocks == Upto(|s.blocks| + count);
          assert u.ops == s.ops[p := u.ops[p]];
        }
      }
    }
  }

  /** Process 0 has an open operation that logged nothing, and `k` blocks are in the header. */
  function Idle(size: nat, nproc: nat, k: nat): Admission
    requires nproc >= 2
  {
    var none: seq<Option<set<int>>> := seq(nproc, _ => None);
    Admission(size, Upto(k), 1, false, none[0 := Some({})])
  }

  /** While process 0 idles, process 1 runs `k` operations of one block each. */
  lemma {:induction false} FillSlowly(size: nat, nproc: nat, k: nat, m: nat) returns (es: seq<Event>)
    requires nproc >= 2 && m >= 1 && k <= MAXOPBLOCKS
    ensures Run(Init(size, nproc), es, m)
    ensures k < size ==> After(Init(size, nproc), es, m).Some?
    ensures After(Init(size, nproc), es, m).Some? ==> After(Init(size, nproc), es, m).value == Idle(size, nproc, k)
    decreases k
  {
    var s := Init(size, nproc);
    if k == 0 {
      es := [Begin(0)];
      assert Step(s, Begin(0)) == Some(Idle(size, nproc, 0));
      assert Run(Idle(size, nproc, 0), es[1..], m);
    } else {
      var rest := FillSlowly(size, nproc, k - 1, m);
      es := rest;
      if After(s, rest, m).Some? {
        var t := Idle(size, nproc, k - 1);
        var u := Step(t, Begin(1)).value;
        assert u.ops[1] == Some({}) && u.ops[0] == Some({});
        var w := LogMany(u, 1, 1, m);
        assert Run(t, [Begin(1)] + w, m) by { assert ([Begin(1)] + w)[1..] == w; }
        assert After(t, [Begin(1)] + w, m) == After(u, w, m) by { assert ([Begin(1)] + w)[1..] == w; }
        RunConcat(s, rest, [Begin(1)] + w, m);
        es := rest + ([Begin(1)] + w);
        if After(u, w, m).Some? {
          var v := After(u, w, m).value;
          assert Step(v, End(1)).value == Idle(size, nproc, k);
          assert Run(Idle(size, nproc, k), [], m);
          assert Run(v, [End(1)], m) && After(v, [End(1)], m) == Some(Idle(size, nproc, k));
          RunConcat(s, es, [End(1)], m);
          es := es + [End(1)];
        }
      }
    }
  }

  /** Then process 1 opens another one. */
  lemma {:induction false} FillAndBegin(size: nat, nproc: nat, k: nat, m: nat) returns (es: seq<Event>)
    requires nproc >= 2 && m >= 1 && k <= MAXOPBLOCKS
    ensures Run(Init(size, nproc), es, m)
    ensures k < size ==> After(Init(size, nproc), es, m).Some?
    ensures var o, t := After(Init(size, nproc), es, m), Idle(size, nproc, k);
      o.Some? ==> o.value == t.(outstanding := 2, ops := t.ops[1 := Some({})])
  {
    var s := Init(size, nproc);
    es := FillSlowly(size, nproc, k, m);
    if After(s, es, m).Some? {
      var t := Idle(size, nproc, k);
      var u := Step(t, Begin(1)).value;
      assert Run(u, [], m);
      assert Run(t, [Begin(1)], m) && After(t, [Begin(1)], m) == Some(u);
      RunConcat(s, es, [Begin(1)], m);
      es := es + [Begin(1)];
    }
  }

  /** Processes 0 and 1 have open operations that logged `c0` and `c1` blocks, the last one was logged by 0. */
  ghost predicate TwoOpen(s: Admission, size: nat, nproc: nat, n: nat, c0: nat, c1: nat) {
    && s.size == size && |s.ops| == nproc >= 2 && s.outstanding == 2
    && s.ops[0].Some? && |s.ops[0].value| == c0 && s.ops[1].Some? && |s.ops[1].value| == c1
    && (forall p :: 2 <= p < nproc ==> s.ops[p].None?) && !s.committing
    && s.blocks == Upto(n) && (c0 > 0 ==> n - 1 in s.ops[0].value)
    && forall b :: b in s.ops[0].value || b in s.ops[1].value ==> b < n
  }

  /** On top of `k` blocks of finished operations two open ones log `c1` and `c0` blocks, or the log panics. */
  lemma {:induction false} LogTwo(size: nat, nproc: nat, k: nat, c0: nat, c1: nat, m: nat) returns (es: seq<Event>)
    requires nproc >= 2 && m >= 1 && k <= MAXOPBLOCKS && c0 <= m && c1 <= m
    ensures Run(Init(size, nproc), es, m)
    ensures k + c0 + c1 < size && k + c0 + c1 <= LOGSIZE ==> After(Init(size, nproc), es, m).Some?
    ensures var o := After(Init(size, nproc), es, m);
      o.Some? ==> TwoOpen(o.value, size, nproc, k + c0 + c1, c0, c1)
  {
    hide Inv, Enabled, Step, WithinBudget;
    var s := Init(size, nproc);
    es := FillAndBegin(size, nproc, k, m);
    if After(s, es, m).Some? {
      var u := After(s, es, m).value;
      var w1 := LogMany(u, 1, c1, m);
      RunConcat(s, es, w1, m);
      es := es + w1;
      if After(u, w1, m).Some? {
        var v := After(u, w1, m).value;
        assert v.ops[0] == Some({});
        var w0 := LogMany(v, 0, c0, m);
        RunConcat(s, es, w0, m);
        es := es + w0;
      }
    }
  }

  /** The peak is reached: two operations of `m` blocks on top of ten one-block operations, and then
      the older one logs one of its own blocks again. */
  lemma {:induction false} PanicAtPeak(size: nat, nproc: nat, m: nat) returns (es: seq<Event>)
    requires nproc >= 2 && 1 <= m <= MAXOPBLOCKS
    requires Peak(m) >= LOGSIZE || Peak(m) >= size - 1
    ensures Run(Init(size, nproc), es, m) && After(Init(size, nproc), es, m).None?
  {
    var s := Init(size, nproc);
    es := LogTwo(size, nproc, MAXOPBLOCKS, m, m, m);
    if After(s, es, m).Some? {
      var x := After(s, es, m).value;
      var e := Write(0, |x.blocks| - 1);
      assert x.ops[0].value + {e.b} == x.ops[0].value;
      assert TooBig(x);
      assert Run(x, [e], m) && After(x, [e], m).None?;
      RunConcat(s, es, [e], m);
      es := es + [e];
    }
  }

  /** No run of operations of at most `m` distinct blocks each panics. */
  ghost predicate PanicFree(size: nat, nproc: nat, m: nat) {
    forall es :: Run(Init(size, nproc), es, m) ==> After(Init(size, nproc), es, m).Some?
  }

  /** log_write is panic-free in every run of operations of at most `m` blocks exactly when the peak
      stays below both bounds of its guard. */
  lemma PanicFreeIff(size: nat, nproc: nat, m: nat)
    requires nproc >= 2 && 1 <= m <= MAXOPBLOCKS
    ensures PanicFree(size, nproc, m) <==> (Peak(m) < LOGSIZE && Peak(m) < size - 1)
  {
    if Peak(m) < LOGSIZE && Peak(m) < size - 1 {
      forall es | Run(Init(size, nproc), es, m) ensures After(Init(size, nproc), es, m).Some? {
        InitInv(size, nproc, m);
        NoPanicBelowPeak(Init(size, nproc), es, m);
      }
    } else {
      var es := PanicAtPeak(size, nproc, m);
    }
  }

  /** With the log that mkfs lays out (LOGSIZE blocks, header included) the budget that begin_op
      reserves, MAXOPBLOCKS, is one too many: one block less is always safe. */
  lemma MkfsLog(nproc: nat)
    requires nproc >= 2
    ensures PanicFree(LOGSIZE, nproc, MAXOPBLOCKS - 1) && !PanicFree(LOGSIZE, nproc, MAXOPBLOCKS)
  {
    PanicFreeIff(LOGSIZE, nproc, MAXOPBLOCKS - 1);
    PanicFreeIff(LOGSIZE, nproc, MAXOPBLOCKS);
  }
}
