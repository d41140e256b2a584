/** Runs of nice, macquire and mrelease in which the priorities go wrong, and with them the exact disciplines under
    which they do not. */
module MutexRuns {
  import opened Wrappers
  import opened ProcTable
  import opened KernelMutex
  import opened MutexPriorities

  lemma {:induction false} RunConcat(s: Sys, xs: seq<Event>, ys: seq<Event>, a: nat, b: nat)
    requires Run(s, xs) && Within(s, xs, a, b) && Run(End(s, xs), ys) && Within(End(s, xs), ys, a, b)
    ensures Run(s, xs + ys) && Within(s, xs + ys, a, b) && End(s, xs + ys) == End(End(s, xs), ys)
    decreases |xs|
  {
    hide Enabled, After, Allowed;
    if xs == [] {
      assert xs + ys == ys;
    } else {
      RunConcat(After(s, xs[0]), xs[1..], ys, a, b);
      assert (xs + ys)[1..] == xs[1..] + ys;
    }
  }

  /** A run from `s` to `t` within the discipline. */
  ghost predicate Leads(s: Sys, es: seq<Event>, t: Sys, a: nat, b: nat) {
    Run(s, es) && Within(s, es, a, b) && End(s, es) == t
  }

  lemma Start(s: Sys, a: nat, b: nat)
    ensures Leads(s, [], s, a, b)
  {
  }

  lemma {:induction false} Then(s: Sys, es: seq<Event>, t: Sys, e: Event, u: Sys, a: nat, b: nat)
    returns (fs: seq<Event>)
    requires Leads(s, es, t, a, b) && Enabled(t, e) && Allowed(t, e, a, b) && After(t, e) == u
    ensures fs == es + [e] && Leads(s, fs, u, a, b)
  {
    hide Enabled, After, Allowed;
    Start(u, a, b);
    assert [e][1..] == [];
    assert Leads(t, [e], u, a, b);
    RunConcat(s, es, [e], a, b);
    fs := es + [e];
  }

  lemma {:induction false} Chain(s: Sys, xs: seq<Event>, t: Sys, ys: seq<Event>, u: Sys, a: nat, b: nat)
    returns (zs: seq<Event>)
    requires Leads(s, xs, t, a, b) && Leads(t, ys, u, a, b)
    ensures zs == xs + ys && Leads(s, zs, u, a, b)
  {
    hide Enabled, After, Allowed;
    RunConcat(s, xs, ys, a, b);
    zs := xs + ys;
  }

  /** Process `p` calls macquire on a free mutex and returns from it. */
  function Taking(p: nat, l: nat): seq<Event> {
    [Acquire(p, l), Advance(p), Advance(p), Advance(p)]
  }

  /** It calls macquire on a mutex that is taken, up to where it has found the holder's value larger than its own. */
  function Weighing(p: nat, l: nat): seq<Event> {
    [Acquire(p, l), Advance(p), Advance(p), Advance(p), Advance(p)]
  }

  ghost predicate InUser(s: Sys, p: nat) {
    Shaped(s) && p < |s.procs| && s.procs[p].state == RUNNING && s.pcs[p].loc.User?
  }

  lemma {:induction false} TakingRuns(s: Sys, p: nat, l: nat, a: nat, b: nat) returns (t: Sys)
    requires InUser(s, p) && l < |s.mutexes| && s.mutexes[l] == Mutex(None, false, None) && |s.held[p]| <= b
    ensures Leads(s, Taking(p, l), t, a, b)
    ensures t == s.(
      mutexes := s.mutexes[l := Mutex(None, true, Some(p))],
      held := s.held[p := s.held[p] + {l}], pcs := s.pcs[p := Pc(User, l)])
  {
    hide Leads;
    Start(s, a, b);
    var has := s.held[p := s.held[p] + {l}];
    var t0 := At(s, p, Pc(Spin, l));
    var t1 := SetMutex(At(s, p, Pc(Test, l)), l, Mutex(Some(p), false, None));
    var t2 := SetMutex(At(s, p, Pc(Got, l)), l, Mutex(Some(p), true, Some(p))).(held := has);
    t := SetMutex(At(s, p, Pc(User, l)), l, Mutex(None, true, Some(p))).(held := has);
    var es := Then(s, [], s, Acquire(p, l), t0, a, b);
    es := Then(s, es, t0, Advance(p), t1, a, b);
    es := Then(s, es, t1, Advance(p), t2, a, b);
    es := Then(s, es, t2, Advance(p), t, a, b);
    assert es == Taking(p, l);
  }

  /** It asks for a taken mutex and has read its own value. */
  lemma {:induction false} AskingRuns(s: Sys, p: nat, l: nat, h: nat, a: nat, b: nat) returns (t: Sys)
    requires InUser(s, p) && l < |s.mutexes| && s.mutexes[l] == Mutex(None, true, Some(h)) && |s.held[p]| <= b
    ensures Leads(s, [Acquire(p, l), Advance(p), Advance(p), Advance(p)], t, a, b)
    ensures t == s.(mutexes := s.mutexes[l := Mutex(Some(p), true, Some(h))],
                    pcs := s.pcs[p := Pc(Weigh(s.procs[p].elevated), l)])
  {
    hide Leads;
    Start(s, a, b);
    var taken := SetMutex(s, l, Mutex(Some(p), true, Some(h)));
    var t0 := At(s, p, Pc(Spin, l));
    var t1, t2 := At(taken, p, Pc(Test, l)), At(taken, p, Pc(Look, l));
    t := At(taken, p, Pc(Weigh(s.procs[p].elevated), l));
    var es := Then(s, [], s, Acquire(p, l), t0, a, b);
    es := Then(s, es, t0, Advance(p), t1, a, b);
    es := Then(s, es, t1, Advance(p), t2, a, b);
    es := Then(s, es, t2, Advance(p), t, a, b);
    assert es == [Acquire(p, l), Advance(p), Advance(p), Advance(p)];
  }

  lemma {:induction false} WeighingRuns(s: Sys, p: nat, l: nat, h: nat, a: nat, b: nat) returns (t: Sys)
    requires InUser(s, p) && l < |s.mutexes| && s.mutexes[l] == Mutex(None, true, Some(h)) && |s.held[p]| <= b
    requires h < |s.procs| && s.procs[p].elevated < s.procs[h].elevated
    ensures Leads(s, Weighing(p, l), t, a, b)
    ensures t == s.(mutexes := s.mutexes[l := Mutex(Some(p), true, Some(h))], pcs := s.pcs[p := Pc(Raise, l)])
  {
    hide Leads;
    var asks := AskingRuns(s, p, l, h, a, b);
    t := At(asks, p, Pc(Raise, l));
    var es := Then(s, [Acquire(p, l), Advance(p), Advance(p), Advance(p)], asks, Advance(p), t, a, b);
    assert es == Weighing(p, l);
  }

  /** The second read. */
  lemma {:induction false} RereadRuns(s: Sys, p: nat, a: nat, b: nat) returns (t: Sys)
    requires Shaped(s) && p < |s.procs| && s.procs[p].state == RUNNING && s.pcs[p].loc.Raise? &&
      s.pcs[p].l < |s.mutexes|
    ensures Leads(s, [Advance(p)], t, a, b)
    ensures t == s.(pcs := s.pcs[p := Pc(Lend(s.procs[p].elevated), s.pcs[p].l)])
  {
    hide Leads;
    Start(s, a, b);
    t := At(s, p, Pc(Lend(s.procs[p].elevated), s.pcs[p].l));
    var es := Then(s, [], s, Advance(p), t, a, b);
    assert es == [Advance(p)];
  }

  /** The store. */
  lemma {:induction false} LendRuns(s: Sys, p: nat, h: nat, a: nat, b: nat) returns (t: Sys)
    requires Shaped(s) && p < |s.procs| && s.procs[p].state == RUNNING && s.pcs[p].loc.Lend? && s.pcs[p].l < |s.mutexes|
    requires HeldBy(s, s.pcs[p].l, h)
    ensures Leads(s, [Advance(p)], t, a, b)
    ensures t == s.(
      procs := s.procs[h := s.procs[h].(elevated := s.pcs[p].loc.value)], pcs := s.pcs[p := Pc(Busy, s.pcs[p].l)])
  {
    hide Leads;
    Start(s, a, b);
    t := At(SetProc(s, h, s.procs[h].(elevated := s.pcs[p].loc.value)), p, Pc(Busy, s.pcs[p].l));
    var es := Then(s, [], s, Advance(p), t, a, b);
    assert es == [Advance(p)];
  }

  /** On from there it falls asleep. */
  lemma {:induction false} DozingRuns(s: Sys, p: nat, a: nat, b: nat) returns (t: Sys)
    requires Shaped(s) && p < |s.procs| && s.procs[p].state == RUNNING && s.pcs[p].loc.Busy? && s.pcs[p].l < |s.mutexes|
    requires s.plock.None?
    ensures Leads(s, [Advance(p), Advance(p), Advance(p)], t, a, b)
    ensures var l := s.pcs[p].l; t == s.(
      procs := s.procs[p := s.procs[p].(state := SLEEPING, chan := Some(l))],
      mutexes := s.mutexes[l := s.mutexes[l].(lk := None)], pcs := s.pcs[p := Pc(Sleep, l)])
  {
    hide Leads;
    Start(s, a, b);
    var l := s.pcs[p].l;
    var t0 := At(s, p, Pc(Both, l)).(plock := Some(p));
    var t1 := SetMutex(At(s, p, Pc(Dozing, l)), l, s.mutexes[l].(lk := None)).(plock := Some(p));
    t := SetProc(SetMutex(At(s, p, Pc(Sleep, l)), l, s.mutexes[l].(lk := None)), p,
                 s.procs[p].(state := SLEEPING, chan := Some(l)));
    var es := Then(s, [], s, Advance(p), t0, a, b);
    es := Then(s, es, t0, Advance(p), t1, a, b);
    es := Then(s, es, t1, Advance(p), t, a, b);
    assert es == [Advance(p), Advance(p), Advance(p)];
  }

  /** Process `p` calls nice and returns from it. */
  function Nicing(p: nat, inc: int): seq<Event> {
    [Nice(p, inc), Advance(p), Advance(p)]
  }

  /** Left alone, the steps of nice do what sys_nice does. */
  lemma {:induction false} NicingRuns(s: Sys, p: nat, inc: int, a: nat, b: nat) returns (t: Sys)
    requires InUser(s, p) && -INT / 2 <= inc < INT / 2 && |s.held[p]| <= a
    ensures Leads(s, Nicing(p, inc), t, a, b)
    ensures t == s.(procs := s.procs[p := Niced(s.procs[p], inc)])
  {
    hide Leads, Add;
    Start(s, a, b);
    var q, l := s.procs[p], s.pcs[p].l;
    var sum := Add(q.priority, inc);
    var t0 := At(SetProc(s, p, q.(priority := sum)), p, Pc(Clamping, l));
    var t1 := At(SetProc(s, p, q.(priority := Clamp(sum))), p, Pc(Settling, l));
    t := SetProc(s, p, Niced(q, inc));
    var es := Then(s, [], s, Nice(p, inc), t0, a, b);
    es := Then(s, es, t0, Advance(p), t1, a, b);
    es := Then(s, es, t1, Advance(p), t, a, b);
    assert es == Nicing(p, inc);
  }

  /** Process `p` calls mrelease, while its elevated value is not its priority, and returns from it. */
  function Releasing(p: nat, l: nat): seq<Event> {
    [Release(p, l), Advance(p), Advance(p), Advance(p)] + [Advance(p), Advance(p), Advance(p), Advance(p)]
  }

  lemma {:induction false} ResetRuns(s: Sys, p: nat, l: nat, a: nat, b: nat) returns (t: Sys)
    requires InUser(s, p) && l < |s.mutexes| && s.mutexes[l] == Mutex(None, true, Some(p)) && l in s.held[p]
    requires s.procs[p].elevated != s.procs[p].priority
    ensures Leads(s, [Release(p, l), Advance(p), Advance(p), Advance(p)], t, a, b)
    ensures t == s.(
      procs := s.procs[p := s.procs[p].(elevated := s.procs[p].priority)],
      mutexes := s.mutexes[l := Mutex(Some(p), true, Some(p))], pcs := s.pcs[p := Pc(RelReset, l)])
  {
    hide Leads;
    Start(s, a, b);
    var taken := SetMutex(s, l, Mutex(Some(p), true, Some(p)));
    var t0, t1, t2 := At(s, p, Pc(RelSpin, l)), At(taken, p, Pc(RelHold, l)), At(taken, p, Pc(RelStore, l));
    t := SetProc(At(taken, p, Pc(RelReset, l)), p, s.procs[p].(elevated := s.procs[p].priority));
    var es := Then(s, [], s, Release(p, l), t0, a, b);
    es := Then(s, es, t0, Advance(p), t1, a, b);
    es := Then(s, es, t1, Advance(p), t2, a, b);
    es := Then(s, es, t2, Advance(p), t, a, b);
    assert es == [Release(p, l), Advance(p), Advance(p), Advance(p)];
  }

  lemma {:induction false} FreeingRuns(s: Sys, p: nat, l: nat, a: nat, b: nat) returns (t: Sys)
    requires Shaped(s) && p < |s.procs| && s.procs[p].state == RUNNING && s.pcs[p] == Pc(RelReset, l)
    requires l < |s.mutexes| && s.plock.None?
    ensures Leads(s, [Advance(p), Advance(p), Advance(p), Advance(p)], t, a, b)
    ensures t == s.(
      procs := AllWoken(s.procs, l), mutexes := s.mutexes[l := Mutex(None, false, None)],
      held := s.held[p := s.held[p] - {l}], pcs := s.pcs[p := Pc(User, l)])
  {
    hide Leads;
    Start(s, a, b);
    var has := s.held[p := s.held[p] - {l}];
    var freed := SetMutex(s, l, Mutex(s.mutexes[l].lk, false, None)).(held := has);
    var t0, t1 := At(freed, p, Pc(Cleared, l)), At(freed, p, Pc(Waking, l)).(plock := Some(p));
    var t2 := At(freed, p, Pc(Woke, l)).(procs := AllWoken(s.procs, l));
    t := SetMutex(At(freed, p, Pc(User, l)), l, Mutex(None, false, None)).(procs := AllWoken(s.procs, l));
    var es := Then(s, [], s, Advance(p), t0, a, b);
    es := Then(s, es, t0, Advance(p), t1, a, b);
    es := Then(s, es, t1, Advance(p), t2, a, b);
    es := Then(s, es, t2, Advance(p), t, a, b);
    assert es == [Advance(p), Advance(p), Advance(p), Advance(p)];
  }

  /** Processes that run at the given priorities, and `n` free mutexes. */
  function Fresh(priorities: seq<int>, n: nat): Sys {
    Sys(seq(|priorities|, i requires 0 <= i < |priorities| => Proc(RUNNING, None, priorities[i], priorities[i])),
        seq(|priorities|, _ => Pc(User, 0)), seq(|priorities|, _ => {}), seq(n, _ => Mutex(None, false, None)), None)
  }

  /** A holder calls nice between a waiter's comparison and its store. */
  const NICE_RACE: seq<Event> := Taking(0, 0) + Weighing(1, 0) + [Advance(1)] + Nicing(0, -15) + [Advance(1)]

  lemma {:induction false} NiceBreaksBound() returns (t: Sys)
    ensures Initial(Fresh([15, 10], 1)) && Leads(Fresh([15, 10], 1), NICE_RACE, t, 1, 0)
    ensures |t.procs| == |t.pcs| == 2 && t.procs[0] == Proc(RUNNING, None, 0, 10) && t.pcs[0].loc.User?
  {
    hide Leads, Run, Taking, Weighing, Nicing;
    var s := Fresh([15, 10], 1);
    t := TakingRuns(s, 0, 0, 1, 0);
    var u := WeighingRuns(t, 1, 0, 0, 1, 0);
    var es := Chain(s, Taking(0, 0), t, Weighing(1, 0), u, 1, 0);
    t := RereadRuns(u, 1, 1, 0);
    es := Chain(s, es, u, [Advance(1)], t, 1, 0);
    u := NicingRuns(t, 0, -15, 1, 0);
    es := Chain(s, es, t, Nicing(0, -15), u, 1, 0);
    t := LendRuns(u, 1, 0, 1, 0);
    es := Chain(s, es, u, [Advance(1)], t, 1, 0);
  }

  /** Nobody calls nice, but process 0 asks for a third mutex. It has compared itself with the holder, process 1, when
      the store of process 2, which compared itself with process 0 before process 3 raised that further, takes its value
      back up: and then it reads it again. */
  const THREE_MUTEXES: seq<Event> :=
    Taking(0, 1) + Taking(0, 2) + Taking(1, 0) + Weighing(2, 1) + [Advance(2)] + Weighing(3, 2) + [Advance(3)]
    + [Advance(3)] + Weighing(0, 0) + [Advance(2)] + [Advance(0)] + [Advance(0)]

  lemma {:induction false} ThirdMutexBreaksBound() returns (t: Sys)
    ensures Initial(Fresh([15, 7, 10, 5], 3)) && Leads(Fresh([15, 7, 10, 5], 3), THREE_MUTEXES, t, 0, 2)
    ensures |t.procs| == |t.pcs| == 4 && t.procs[1] == Proc(RUNNING, None, 7, 10) && t.pcs[1].loc.User?
  {
    hide Leads, Run, Taking, Weighing;
    var s := Fresh([15, 7, 10, 5], 3);
    t := TakingRuns(s, 0, 1, 0, 2);
    var u := TakingRuns(t, 0, 2, 0, 2);
    var es := Chain(s, Taking(0, 1), t, Taking(0, 2), u, 0, 2);
    t := TakingRuns(u, 1, 0, 0, 2);
    es := Chain(s, es, u, Taking(1, 0), t, 0, 2);
    u := WeighingRuns(t, 2, 1, 0, 0, 2);
    es := Chain(s, es, t, Weighing(2, 1), u, 0, 2);
    t := RereadRuns(u, 2, 0, 2);
    es := Chain(s, es, u, [Advance(2)], t, 0, 2);
    u := WeighingRuns(t, 3, 2, 0, 0, 2);
    es := Chain(s, es, t, Weighing(3, 2), u, 0, 2);
    t := RereadRuns(u, 3, 0, 2);
    es := Chain(s, es, u, [Advance(3)], t, 0, 2);
    u := LendRuns(t, 3, 0, 0, 2);
    es := Chain(s, es, t, [Advance(3)], u, 0, 2);
    t := WeighingRuns(u, 0, 0, 1, 0, 2);
    es := Chain(s, es, u, Weighing(0, 0), t, 0, 2);
    u := LendRuns(t, 2, 0, 0, 2);
    es := Chain(s, es, t, [Advance(2)], u, 0, 2);
    t := RereadRuns(u, 0, 0, 2);
    es := Chain(s, es, u, [Advance(0)], t, 0, 2);
    u := LendRuns(t, 0, 1, 0, 2);
    es := Chain(s, es, t, [Advance(0)], u, 0, 2);
    t := u;
  }

  /** Process `p` calls macquire on a taken mutex, raises the holder and falls asleep. */
  function Blocking(p: nat, l: nat): seq<Event> {
    Weighing(p, l) + [Advance(p)] + [Advance(p)] + [Advance(p), Advance(p), Advance(p)]
  }

  lemma {:induction false} BlockingRuns(s: Sys, p: nat, l: nat, h: nat, a: nat, b: nat) returns (t: Sys)
    requires InUser(s, p) && l < |s.mutexes| && s.mutexes[l] == Mutex(None, true, Some(h)) && |s.held[p]| <= b
    requires h < |s.procs| && h != p && s.procs[p].elevated < s.procs[h].elevated && s.plock.None?
    ensures Leads(s, Blocking(p, l), t, a, b)
    ensures t == s.(
      procs := s.procs[h := s.procs[h].(elevated := s.procs[p].elevated)]
                      [p := s.procs[p].(state := SLEEPING, chan := Some(l))],
      pcs := s.pcs[p := Pc(Sleep, l)])
  {
    hide Leads, Run, Weighing;
    t := WeighingRuns(s, p, l, h, a, b);
    var u := RereadRuns(t, p, a, b);
    var es := Chain(s, Weighing(p, l), t, [Advance(p)], u, a, b);
    t := LendRuns(u, p, h, a, b);
    es := Chain(s, es, u, [Advance(p)], t, a, b);
    u := DozingRuns(t, p, a, b);
    es := Chain(s, es, t, [Advance(p), Advance(p), Advance(p)], u, a, b);
    t := u;
  }

  /** It calls macquire on a taken mutex, does not raise the holder, and falls asleep. */
  function Yielding(p: nat, l: nat): seq<Event> {
    [Acquire(p, l), Advance(p), Advance(p), Advance(p), Advance(p)] + [Advance(p), Advance(p), Advance(p)]
  }

  /** A process that is not more urgent than the holder, or is the holder, stores nothing. */
  lemma {:induction false} YieldingRuns(s: Sys, p: nat, l: nat, h: nat, a: nat, b: nat) returns (t: Sys)
    requires InUser(s, p) && l < |s.mutexes| && s.mutexes[l] == Mutex(None, true, Some(h)) && |s.held[p]| <= b
    requires h < |s.procs| && s.procs[p].elevated >= s.procs[h].elevated && s.plock.None?
    ensures Leads(s, Yielding(p, l), t, a, b)
    ensures t == s.(procs := s.procs[p := s.procs[p].(state := SLEEPING, chan := Some(l))],
                    pcs := s.pcs[p := Pc(Sleep, l)])
  {
    hide Leads;
    var asks := AskingRuns(s, p, l, h, a, b);
    var busy := At(asks, p, Pc(Busy, l));
    var es := Then(s, [Acquire(p, l), Advance(p), Advance(p), Advance(p)], asks, Advance(p), busy, a, b);
    t := DozingRuns(busy, p, a, b);
    es := Chain(s, es, busy, [Advance(p), Advance(p), Advance(p)], t, a, b);
    assert es == Yielding(p, l);
  }

  /** A process waits for a mutex whose holder runs at a larger value. */
  ghost predicate Left(s: Sys, q: nat, l: nat, h: nat) {
    && Shaped(s) && q < |s.procs| && h < |s.procs| && l in s.held[h] && Waits(s, q, l)
    && s.pcs[h].loc.User? && s.procs[q].elevated < s.procs[h].elevated
  }

  const NESTED: seq<Event> := Taking(0, 0) + Taking(0, 1) + Blocking(1, 0) + Releasing(0, 1)

  /** Process 0 gives back mutex 1 and runs at its own priority again, although the more urgent process 1 still waits
      for mutex 0, which it holds. */
  lemma {:induction false} NestedReleaseLoses() returns (t: Sys)
    ensures Initial(Fresh([0, -5], 2)) && Leads(Fresh([0, -5], 2), NESTED, t, 0, 1) && Left(t, 1, 0, 0)
  {
    hide Leads, Run, Taking, Blocking;
    var s := Fresh([0, -5], 2);
    t := TakingRuns(s, 0, 0, 0, 1);
    var u := TakingRuns(t, 0, 1, 0, 1);
    var es := Chain(s, Taking(0, 0), t, Taking(0, 1), u, 0, 1);
    t := BlockingRuns(u, 1, 0, 0, 0, 1);
    es := Chain(s, es, u, Blocking(1, 0), t, 0, 1);
    u := ResetRuns(t, 0, 1, 0, 1);
    var v := FreeingRuns(u, 0, 1, 0, 1);
    assert AllWoken(u.procs, 1) == u.procs;
    var fs := Chain(t, [Release(0, 1), Advance(0), Advance(0), Advance(0)], u,
                    [Advance(0), Advance(0), Advance(0), Advance(0)], v, 0, 1);
    es := Chain(s, es, t, fs, v, 0, 1);
    t := v;
  }

  /** A sleeper that has been woken is dispatched and takes the mutex, which is free. */
  function Resuming(p: nat): seq<Event> {
    [Dispatch(p), Advance(p), Advance(p), Advance(p), Advance(p)]
  }

  lemma {:induction false} ResumingRuns(s: Sys, p: nat, l: nat, a: nat, b: nat) returns (t: Sys)
    requires Shaped(s) && p < |s.procs| && s.procs[p].state == RUNNABLE && s.pcs[p] == Pc(Sleep, l) && s.plock.None?
    requires l < |s.mutexes| && s.mutexes[l] == Mutex(None, false, None)
    ensures Leads(s, Resuming(p), t, a, b)
    ensures t == s.(
      procs := s.procs[p := s.procs[p].(state := RUNNING, chan := None)],
      mutexes := s.mutexes[l := Mutex(None, true, Some(p))],
      held := s.held[p := s.held[p] + {l}], pcs := s.pcs[p := Pc(User, l)])
  {
    hide Leads;
    Start(s, a, b);
    var q := s.procs[p];
    var awake := SetProc(s, p, q.(state := RUNNING, chan := None));
    var has := s.held[p := s.held[p] + {l}];
    var t0 := SetProc(s, p, q.(state := RUNNING));
    var t1 := At(awake, p, Pc(Spin, l));
    var t2 := SetMutex(At(awake, p, Pc(Test, l)), l, Mutex(Some(p), false, None));
    var t3 := SetMutex(At(awake, p, Pc(Got, l)), l, Mutex(Some(p), true, Some(p))).(held := has);
    t := SetMutex(At(awake, p, Pc(User, l)), l, Mutex(None, true, Some(p))).(held := has);
    var es := Then(s, [], s, Dispatch(p), t0, a, b);
    es := Then(s, es, t0, Advance(p), t1, a, b);
    es := Then(s, es, t1, Advance(p), t2, a, b);
    es := Then(s, es, t2, Advance(p), t3, a, b);
    es := Then(s, es, t3, Advance(p), t, a, b);
    assert es == Resuming(p);
  }

  const HANDOVER: seq<Event> := Taking(0, 0) + Blocking(1, 0) + Releasing(0, 0) + Resuming(1)

  /** Process 1 sleeps on the mutex, is woken when process 0 releases it, and ends up with it. */
  lemma {:induction false} Handover() returns (t: Sys)
    ensures Initial(Fresh([0, -5], 1)) && Leads(Fresh([0, -5], 1), HANDOVER, t, 0, 0)
    ensures |t.held| == |t.pcs| == |t.procs| == 2 && t.held[0] == {} && t.held[1] == {0}
    ensures t.mutexes == [Mutex(None, true, Some(1))] && t.pcs[1].loc.User? && t.procs[1].state == RUNNING
  {
    hide Leads, Run, Taking, Blocking, Resuming;
    var s := Fresh([0, -5], 1);
    t := TakingRuns(s, 0, 0, 0, 0);
    var u := BlockingRuns(t, 1, 0, 0, 0, 0);
    var es := Chain(s, Taking(0, 0), t, Blocking(1, 0), u, 0, 0);
    t := ResetRuns(u, 0, 0, 0, 0);
    var v := FreeingRuns(t, 0, 0, 0, 0);
    var fs := Chain(u, [Release(0, 0), Advance(0), Advance(0), Advance(0)], t,
                    [Advance(0), Advance(0), Advance(0), Advance(0)], v, 0, 0);
    es := Chain(s, es, u, fs, v, 0, 0);
    t := ResumingRuns(v, 1, 0, 0, 0);
    es := Chain(s, es, v, Resuming(1), t, 0, 0);
  }

  const NICE_ALONE: seq<Event> := Taking(0, 0) + Blocking(1, 0) + Nicing(0, 0)

  /** So does nice, even by nothing. */
  lemma {:induction false} NiceLoses() returns (t: Sys)
    ensures Initial(Fresh([0, -5], 1)) && Leads(Fresh([0, -5], 1), NICE_ALONE, t, 1, 0) && Left(t, 1, 0, 0)
  {
    hide Leads, Run, Taking, Blocking, Nicing;
    var s := Fresh([0, -5], 1);
    t := TakingRuns(s, 0, 0, 1, 0);
    var u := BlockingRuns(t, 1, 0, 0, 1, 0);
    var es := Chain(s, Taking(0, 0), t, Blocking(1, 0), u, 1, 0);
    t := NicingRuns(u, 0, 0, 1, 0);
    es := Chain(s, es, u, Nicing(0, 0), t, 1, 0);
  }

  // ---------------------------------------------------------------- the disciplines are exact

  ghost predicate AlwaysBounded(a: nat, b: nat) {
    forall s, es :: Initial(s) && Run(s, es) && Within(s, es, a, b) ==> Bounded(End(s, es))
  }

  ghost predicate AlwaysLending(a: nat, b: nat) {
    forall s, es :: Initial(s) && Run(s, es) && Within(s, es, a, b) ==> Lending(End(s, es))
  }

  /** From the start, with nice by processes that hold nothing and macquire by processes that hold at most one mutex,
      elevated <= priority outside nice. */
  lemma {:induction false} BoundedRuns(s: Sys, es: seq<Event>, a: nat, b: nat)
    requires Initial(s) && Run(s, es) && Within(s, es, a, b) && a == 0 && b <= 1
    ensures Bounded(End(s, es))
  {
    hide Initial, BoundInv, Bounded;
    WithinMore(s, es, a, b, 0, 1);
    InitBound(s);
    BoundRun(s, es);
    BoundHolds(End(s, es));
  }

  /** Under no weaker discipline is that so. */
  lemma {:induction false} BoundedIff(a: nat, b: nat)
    ensures AlwaysBounded(a, b) <==> a == 0 && b <= 1
  {
    hide Run, Initial, Fresh;
    if a == 0 && b <= 1 {
      forall s, es | Initial(s) && Run(s, es) && Within(s, es, a, b)
        ensures Bounded(End(s, es))
      {
        BoundedRuns(s, es, a, b);
      }
    } else if a >= 1 {
      var t := NiceBreaksBound();
      WithinMore(Fresh([15, 10], 1), NICE_RACE, 1, 0, a, b);
      assert !Bounded(End(Fresh([15, 10], 1), NICE_RACE));
    } else {
      var t := ThirdMutexBreaksBound();
      WithinMore(Fresh([15, 7, 10, 5], 3), THREE_MUTEXES, 0, 2, a, b);
      assert !Bounded(End(Fresh([15, 7, 10, 5], 3), THREE_MUTEXES));
    }
  }

  /** From the start, with one mutex at a time and no nice by holders. */
  lemma {:induction false} HoldersInherit(s: Sys, es: seq<Event>)
    requires Initial(s) && Run(s, es) && Within(s, es, 0, 0)
    ensures Lending(End(s, es))
  {
    hide Initial, InheritInv, Lending;
    InitInherit(s);
    Inheritance(s, es);
    LendingHolds(End(s, es));
  }

  /** And under no weaker discipline. */
  lemma {:induction false} LendingIff(a: nat, b: nat)
    ensures AlwaysLending(a, b) <==> a == 0 && b == 0
  {
    hide Run, Initial, Fresh, Waits;
    if a == 0 && b == 0 {
      forall s, es | Initial(s) && Run(s, es) && Within(s, es, a, b)
        ensures Lending(End(s, es))
      {
        HoldersInherit(s, es);
      }
    } else if a >= 1 {
      var t := NiceLoses();
      WithinMore(Fresh([0, -5], 1), NICE_ALONE, 1, 0, a, b);
      assert !Lending(End(Fresh([0, -5], 1), NICE_ALONE));
    } else {
      var t := NestedReleaseLoses();
      WithinMore(Fresh([0, -5], 2), NESTED, 0, 1, a, b);
      assert !Lending(End(Fresh([0, -5], 2), NESTED));
    }
  }
}
