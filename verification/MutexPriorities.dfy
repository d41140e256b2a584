/** What nice, macquire and mrelease make of priorities, in runs that keep a discipline: who may call nice, and who may
    call macquire, goes by the number of mutexes that the caller holds. */
module MutexPriorities {
  import opened Wrappers
  import opened ProcTable
  import opened KernelMutex

  // ---------------------------------------------------------------- disciplines

  /** nice is called by processes that hold at most `a` mutexes, macquire by processes that hold at most `b`. */
  ghost predicate Allowed(s: Sys, e: Event, a: nat, b: nat)
    requires Enabled(s, e)
  {
    (e.Nice? ==> |s.held[e.p]| <= a) && (e.Acquire? ==> |s.held[e.p]| <= b)
  }

  ghost predicate Within(s: Sys, es: seq<Event>, a: nat, b: nat)
    requires Run(s, es)
    decreases es
  {
    es == [] || (Allowed(s, es[0], a, b) && Within(After(s, es[0]), es[1..], a, b))
  }

  lemma {:induction false} WithinMore(s: Sys, es: seq<Event>, a: nat, b: nat, a': nat, b': nat)
    requires Run(s, es) && Within(s, es, a, b) && a <= a' && b <= b'
    ensures Within(s, es, a', b')
    decreases es
  {
    hide Enabled, After;
    if es != [] {
      WithinMore(After(s, es[0]), es[1..], a, b, a', b');
    }
  }

  predicate AtMostOne(held: set<nat>) {
    forall k, l :: k in held && l in held ==> k == l
  }

  predicate AtMostTwo(held: set<nat>) {
    forall k, l, m :: k in held && l in held && m in held ==> k == l || l == m || k == m
  }

  lemma {:induction false} Few(held: set<nat>)
    ensures |held| == 0 ==> held == {}
    ensures |held| <= 1 ==> AtMostOne(held)
  {
    forall k, l | k in held && l in held && k != l
      ensures |held| >= 2
    {
      assert {k, l} <= held;
      var rest := held - {k};
      assert l in rest && |rest| == |held| - 1;
    }
  }

  lemma AddOne(held: set<nat>, l: nat)
    ensures AtMostOne(held) ==> AtMostTwo(held + {l})
  {
  }

  // ---------------------------------------------------------------- elevated <= priority

  /** While this holds nobody but through mutex `l` can raise process `h`, and `h` does not reset its own value. */
  ghost predicate Calm(s: Sys, h: nat, l: nat)
    requires Shaped(s) && h < |s.procs|
  {
    (s.pcs[h].loc.RelReset? && s.pcs[h].l != l) || (forall k :: k in s.held[h] ==> k == l)
  }

  /** The holder of mutex `l` may take over the value `v`. */
  ghost predicate Below(s: Sys, v: int, l: nat)
    requires Shaped(s) && l < |s.mutexes|
  {
    var h := s.mutexes[l].holder;
    h.Some? && h.value < |s.procs| ==>
      v <= s.procs[h.value].priority && (Calm(s, h.value, l) ==> v <= s.procs[h.value].elevated)
  }

  /** nice only without mutexes, macquire with one at most; and then the value of a process that compares
      itself with a holder does not go up. */
  ghost predicate OwnBound(s: Sys, p: nat)
    requires Shaped(s) && p < |s.procs|
  {
    var pc, q := s.pcs[p], s.procs[p];
    && AtMostTwo(s.held[p]) && (InMacquire(pc.loc) ==> AtMostOne(s.held[p])) && (InNice(pc.loc) ==> s.held[p] == {})
    && (!InNice(pc.loc) ==> q.elevated <= q.priority)
    && (pc.loc.Weigh? ==> q.elevated <= pc.loc.mine)
  }

  ghost predicate LendBound(s: Sys, p: nat, l: nat)
    requires Shaped(s) && p < |s.procs| && l < |s.mutexes|
  {
    var pc := s.pcs[p];
    && (pc.loc.Raise? && pc.l == l ==> Below(s, s.procs[p].elevated, l))
    && (pc.loc.Lend? && pc.l == l ==> Below(s, pc.loc.value, l))
  }

  ghost predicate BoundFact(s: Sys, p: nat, l: nat)
    requires Shaped(s) && p < |s.procs| && l < |s.mutexes|
  {
    OwnBound(s, p) && LendBound(s, p, l)
  }

  ghost predicate BoundInv(s: Sys) {
    Inv(s) && forall p: nat, l: nat :: p < |s.procs| && l < |s.mutexes| ==> BoundFact(s, p, l)
  }

  lemma BoundOf(s: Sys, p: nat, l: nat)
    requires BoundInv(s) && p < |s.procs| && l < |s.mutexes|
    ensures Fact(s, p, l) && NamedMutex(s, l) && OwnBound(s, p) && LendBound(s, p, l)
  {
    assert BoundFact(s, p, l);
  }

  lemma BoundSizes(s: Sys)
    requires BoundInv(s)
    ensures |s.pcs| == |s.procs| == |s.held| && |s.mutexes| > 0
  {
  }

  /** A store into process `h` stays below its priority, and lowers its value if it is in macquire. */
  lemma {:induction false} RaisesDown(s: Sys, p: nat, h: nat)
    requires BoundInv(s) && Enabled(s, Advance(p)) && Raises(s, p, h)
    ensures var v := s.pcs[p].loc.value;
      && v <= s.procs[h].priority && !InNice(s.pcs[h].loc) && s.pcs[p].l in s.held[h]
      && (InMacquire(s.pcs[h].loc) ==> v <= s.procs[h].elevated)
  {
    hide BoundInv, WaitFact, ValueFact;
    BoundSizes(s);
    BoundOf(s, p, s.pcs[p].l);
    BoundOf(s, h, s.pcs[p].l);
  }

  lemma {:induction false} AdvanceOwn(s: Sys, p: nat, q: nat)
    requires BoundInv(s) && Enabled(s, Advance(p)) && q < |s.procs|
    ensures var t := Step(s, p);
      |t.pcs| == |t.procs| == |t.held| == |s.procs| && OwnBound(t, q)
  {
    hide BoundInv, Step, LockFact, WaitFact, Raises, Calm, Below, LendBound;
    BoundSizes(s);
    BoundOf(s, p, About(s, p));
    BoundOf(s, q, About(s, p));
    StepPcs(s, p, q);
    StepHeld(s, p, q);
    StepProcs(s, p, q);
    AddOne(s.held[p], s.pcs[p].l);
    if Raises(s, p, q) {
      RaisesDown(s, p, q);
    }
  }

  /** While process `q` owns the spinlock, the steps of others leave the holder of the mutex below which it is. */
  lemma {:induction false} BelowStays(s: Sys, p: nat, q: nat, l: nat, v: int)
    requires BoundInv(s) && Enabled(s, Advance(p)) && q < |s.procs| && l < |s.mutexes| && p != q
    requires Asking(s.pcs[q].loc) && s.pcs[q].l == l && Below(s, v, l)
    ensures var t := Step(s, p);
      |t.pcs| == |t.procs| == |t.held| == |s.procs| && |t.mutexes| == |s.mutexes| && Below(t, v, l)
  {
    hide BoundInv, Step, WaitFact, LendBound;
    BoundSizes(s);
    var k := About(s, p);
    BoundOf(s, p, k);
    BoundOf(s, p, l);
    BoundOf(s, q, l);
    StepMutexes(s, p, l);
    StepPcs(s, p, q);
    if s.mutexes[l].holder.Some? {
      var h := s.mutexes[l].holder.value;
      BoundOf(s, h, l);
      BoundOf(s, h, k);
      BoundOf(s, h, About(s, h));
      StepPcs(s, p, h);
      StepHeld(s, p, h);
      StepProcs(s, p, h);
      if Raises(s, p, h) {
        RaisesDown(s, p, h);
        assert l in s.held[h] && k in s.held[h] && k != l;
        assert !Calm(s, h, l);
      }
      assert !InNice(s.pcs[h].loc);
    }
  }

  /** What process `p` has compared or read again for mutex `l` is below the holder. */
  lemma {:induction false} BelowOwn(s: Sys, p: nat, l: nat)
    requires BoundInv(s) && Enabled(s, Advance(p)) && l < |s.mutexes|
    ensures var t := Step(s, p);
      |t.pcs| == |t.procs| == |t.held| == |s.procs| && |t.mutexes| == |s.mutexes| && LendBound(t, p, l)
  {
    hide BoundInv, Step, WaitFact;
    BoundSizes(s);
    BoundOf(s, p, l);
    StepPcs(s, p, p);
    StepMutexes(s, p, l);
    StepProcs(s, p, p);
    if s.mutexes[l].holder.Some? {
      NamedOfBound(s, l);
      var h := s.mutexes[l].holder.value;
      BoundOf(s, h, l);
      StepPcs(s, p, h);
      StepHeld(s, p, h);
      StepProcs(s, p, h);
    }
  }

  lemma NamedOfBound(s: Sys, l: nat)
    requires BoundInv(s) && l < |s.mutexes|
    ensures s.mutexes[l].holder.Some? ==> s.mutexes[l].holder.value < |s.procs|
  {
    NamedOf(s, l);
  }

  lemma {:induction false} AdvanceLend(s: Sys, p: nat, q: nat, l: nat)
    requires BoundInv(s) && Enabled(s, Advance(p)) && q < |s.procs| && l < |s.mutexes|
    ensures var t := Step(s, p);
      |t.pcs| == |t.procs| == |t.held| == |s.procs| && |t.mutexes| == |s.mutexes| && LendBound(t, q, l)
  {
    hide BoundInv, Step, WaitFact, LockFact, ValueFact, Calm;
    if p == q {
      BelowOwn(s, p, l);
    } else {
      BoundSizes(s);
      BoundOf(s, q, l);
      StepPcs(s, p, q);
      StepProcs(s, p, q);
      StepMutexes(s, p, l);
      if s.pcs[q].l == l && s.pcs[q].loc.Lend? {
        BelowStays(s, p, q, l, s.pcs[q].loc.value);
      } else if s.pcs[q].l == l && s.pcs[q].loc.Raise? {
        BelowStays(s, p, q, l, s.procs[q].elevated);
        if Raises(s, p, q) {
          RaisesDown(s, p, q);
        }
      }
    }
  }

  lemma {:induction false} OtherBound(s: Sys, e: Event, q: nat, l: nat)
    requires BoundInv(s) && Enabled(s, e) && !e.Advance? && Allowed(s, e, 0, 1) && q < |s.procs| && l < |s.mutexes|
    ensures var t := After(s, e);
      |t.pcs| == |t.procs| == |t.held| == |s.procs| && |t.mutexes| == |s.mutexes| && BoundFact(t, q, l)
  {
    hide BoundInv, WaitFact, Step;
    BoundOf(s, e.p, l);
    BoundOf(s, q, l);
    Few(s.held[e.p]);
    if s.mutexes[l].holder.Some? {
      NamedOfBound(s, l);
      BoundOf(s, s.mutexes[l].holder.value, l);
    }
  }

  lemma SameSize(s: Sys, e: Event)
    requires Enabled(s, e)
    ensures |After(s, e).procs| == |s.procs| && |After(s, e).mutexes| == |s.mutexes| && Shaped(After(s, e))
  {
  }

  lemma {:induction false} BoundStep(s: Sys, e: Event)
    requires BoundInv(s) && Enabled(s, e) && Allowed(s, e, 0, 1)
    ensures BoundInv(After(s, e))
  {
    hide OwnBound, LendBound, Step, Enabled, Allowed, Fact, After;
    var t := After(s, e);
    SameSize(s, e);
    StepInv(s, e);
    forall q: nat, l: nat | q < |t.procs| && l < |t.mutexes|
      ensures BoundFact(t, q, l)
    {
      if e.Advance? {
        AfterAdvance(s, e);
        AdvanceOwn(s, e.p, q);
        AdvanceLend(s, e.p, q, l);
      } else {
        OtherBound(s, e, q, l);
      }
    }
  }

  lemma AfterAdvance(s: Sys, e: Event)
    requires Enabled(s, e) && e.Advance?
    ensures e == Advance(e.p) && e.p < |s.procs| && Shaped(s) && OnMutex(s, s.pcs[e.p]) && After(s, e) == Step(s, e.p)
  {
  }

  lemma {:induction false} BoundRun(s: Sys, es: seq<Event>)
    requires BoundInv(s) && Run(s, es) && Within(s, es, 0, 1)
    ensures BoundInv(End(s, es))
    decreases es
  {
    hide BoundInv, Enabled, Allowed, After;
    if es != [] {
      BoundStep(s, es[0]);
      BoundRun(After(s, es[0]), es[1..]);
    }
  }

  lemma {:induction false} InitBound(s: Sys)
    requires Initial(s)
    ensures BoundInv(s)
  {
    InitInv(s);
  }

  /** Outside nice, nobody runs at less than its own priority. */
  ghost predicate Bounded(s: Sys) {
    && Shaped(s)
    && forall p: nat :: p < |s.procs| && !InNice(s.pcs[p].loc) ==>
         HIGHEST <= s.procs[p].elevated <= s.procs[p].priority <= LOWEST
  }

  lemma {:induction false} BoundHolds(s: Sys)
    requires BoundInv(s)
    ensures Bounded(s)
  {
    hide BoundInv, LockFact, WaitFact, LendBound;
    BoundSizes(s);
    forall p: nat | p < |s.procs| && !InNice(s.pcs[p].loc)
      ensures HIGHEST <= s.procs[p].elevated <= s.procs[p].priority <= LOWEST
    {
      BoundOf(s, p, 0);
    }
  }

  // ---------------------------------------------------------------- priority inheritance

  /** The holder of mutex `l`, unless it has already started to release it, runs at least as urgently as
      process `p` if that waits for the mutex. */
  predicate Inherits(s: Sys, p: nat, l: nat)
    requires p < |s.pcs| && |s.pcs| == |s.procs| && l < |s.mutexes|
  {
    var h := s.mutexes[l].holder;
    Waits(s, p, l) && h.Some? && h.value < |s.procs| && s.pcs[h.value] != Pc(RelReset, l) ==>
      s.procs[h.value].elevated <= s.procs[p].elevated
  }

  /** With one mutex at a time, a process in macquire holds none, and what it has read of itself is still true. */
  ghost predicate OneFact(s: Sys, p: nat)
    requires Shaped(s) && p < |s.procs|
  {
    var loc, e := s.pcs[p].loc, s.procs[p].elevated;
    && AtMostOne(s.held[p]) && (InMacquire(loc) ==> s.held[p] == {})
    && (loc.Weigh? ==> loc.mine == e) && (loc.Lend? ==> loc.value == e)
  }

  ghost predicate InheritFact(s: Sys, p: nat, l: nat)
    requires Shaped(s) && p < |s.procs| && l < |s.mutexes|
  {
    OneFact(s, p) && Inherits(s, p, l)
  }

  ghost predicate InheritInv(s: Sys) {
    BoundInv(s) && forall p: nat, l: nat :: p < |s.procs| && l < |s.mutexes| ==> InheritFact(s, p, l)
  }

  lemma InheritOf(s: Sys, p: nat, l: nat)
    requires InheritInv(s) && p < |s.procs| && l < |s.mutexes|
    ensures Fact(s, p, l) && NamedMutex(s, l) && OwnBound(s, p) && LendBound(s, p, l) && OneFact(s, p) &&
      Inherits(s, p, l)
  {
    BoundOf(s, p, l);
    assert InheritFact(s, p, l);
  }

  lemma InheritSizes(s: Sys)
    requires InheritInv(s)
    ensures |s.pcs| == |s.procs| == |s.held| && |s.mutexes| > 0
    ensures forall l :: 0 <= l < |s.mutexes| && s.mutexes[l].holder.Some? ==> s.mutexes[l].holder.value < |s.procs|
  {
    forall l | 0 <= l < |s.mutexes|
      ensures s.mutexes[l].holder.Some? ==> s.mutexes[l].holder.value < |s.procs|
    {
      NamedOfBound(s, l);
    }
  }

  lemma {:induction false} AdvanceOne(s: Sys, p: nat, q: nat)
    requires InheritInv(s) && Enabled(s, Advance(p)) && q < |s.procs|
    ensures var t := Step(s, p);
      |t.pcs| == |t.procs| == |t.held| == |s.procs| && OneFact(t, q)
  {
    hide Step, InheritInv, WaitFact, ValueFact, Inherits, LendBound, OwnBound;
    InheritSizes(s);
    var k := About(s, p);
    InheritOf(s, p, k);
    InheritOf(s, q, k);
    StepPcs(s, p, q);
    StepHeld(s, p, q);
    StepProcs(s, p, q);
  }

  lemma {:induction false} AdvanceInherits(s: Sys, p: nat, q: nat, l: nat)
    requires InheritInv(s) && Enabled(s, Advance(p)) && q < |s.procs| && l < |s.mutexes|
    ensures var t := Step(s, p);
      |t.pcs| == |t.procs| == |s.procs| && |t.mutexes| == |s.mutexes| && Inherits(t, q, l)
  {
    hide Step, InheritInv;
    InheritSizes(s);
    var k := About(s, p);
    InheritOf(s, p, k);
    InheritOf(s, p, l);
    InheritOf(s, q, k);
    InheritOf(s, q, l);
    StepPcs(s, p, q);
    StepMutexes(s, p, l);
    StepProcs(s, p, q);
    if s.mutexes[l].holder.Some? {
      var h := s.mutexes[l].holder.value;
      InheritOf(s, h, l);
      InheritOf(s, h, k);
      StepPcs(s, p, h);
      StepProcs(s, p, h);
    }
    StepPcs(s, p, p);
    StepProcs(s, p, p);
  }

  lemma {:induction false} OtherInherits(s: Sys, e: Event, q: nat, l: nat)
    requires InheritInv(s) && Enabled(s, e) && !e.Advance? && Allowed(s, e, 0, 0) && q < |s.procs| && l < |s.mutexes|
    ensures var t := After(s, e);
      |t.pcs| == |t.procs| == |t.held| == |s.procs| && |t.mutexes| == |s.mutexes| && InheritFact(t, q, l)
  {
    hide InheritInv, LendBound, OwnBound, Step;
    InheritSizes(s);
    InheritOf(s, e.p, l);
    InheritOf(s, q, l);
    Few(s.held[e.p]);
    if s.mutexes[l].holder.Some? {
      InheritOf(s, s.mutexes[l].holder.value, l);
    }
  }

  lemma {:induction false} InheritStep(s: Sys, e: Event)
    requires InheritInv(s) && Enabled(s, e) && Allowed(s, e, 0, 0)
    ensures InheritInv(After(s, e))
  {
    hide BoundInv, OneFact, Inherits, Step, Enabled, Allowed, After;
    var t := After(s, e);
    SameSize(s, e);
    AllowedMore(s, e);
    BoundStep(s, e);
    forall q: nat, l: nat | q < |t.procs| && l < |t.mutexes|
      ensures InheritFact(t, q, l)
    {
      if e.Advance? {
        AfterAdvance(s, e);
        AdvanceOne(s, e.p, q);
        AdvanceInherits(s, e.p, q, l);
      } else {
        OtherInherits(s, e, q, l);
      }
    }
  }

  lemma AllowedMore(s: Sys, e: Event)
    requires Enabled(s, e) && Allowed(s, e, 0, 0)
    ensures Allowed(s, e, 0, 1)
  {
  }

  /** With one mutex at a time and no nice by holders every step keeps inheritance. */
  lemma {:induction false} Inheritance(s: Sys, es: seq<Event>)
    requires InheritInv(s) && Run(s, es) && Within(s, es, 0, 0)
    ensures InheritInv(End(s, es))
    decreases es
  {
    hide InheritInv, Enabled, Allowed, After;
    if es != [] {
      InheritStep(s, es[0]);
      Inheritance(After(s, es[0]), es[1..]);
    }
  }

  lemma {:induction false} InitInherit(s: Sys)
    requires Initial(s)
    ensures InheritInv(s)
  {
    InitBound(s);
  }

  /** Whoever waits for a mutex lends its urgency to the holder, until that has begun to release. */
  ghost predicate Lending(s: Sys) {
    && Shaped(s)
    && forall q: nat, l: nat, h: nat ::
         q < |s.procs| && h < |s.procs| && l in s.held[h] && Waits(s, q, l) && s.pcs[h] != Pc(RelReset, l) ==>
           s.procs[h].elevated <= s.procs[q].elevated
  }

  lemma {:induction false} LendingHolds(s: Sys)
    requires InheritInv(s)
    ensures Lending(s)
  {
    hide InheritInv, Waits, OwnBound, LendBound, WaitFact, ValueFact;
    InheritSizes(s);
    forall q: nat, l: nat, h: nat |
      q < |s.procs| && h < |s.procs| && l in s.held[h] && Waits(s, q, l) && s.pcs[h] != Pc(RelReset, l)
      ensures s.procs[h].elevated <= s.procs[q].elevated
    {
      HeldExists(s, h, l);
      InheritOf(s, h, l);
      InheritOf(s, q, l);
    }
  }

  lemma HeldExists(s: Sys, h: nat, l: nat)
    requires InheritInv(s) && h < |s.held| && l in s.held[h]
    ensures l < |s.mutexes|
  {
    hide Fact, BoundFact, InheritFact;
    assert Named(s);
  }

  /** Releasing mutex `m` while holding `l` too: whatever the waiters of `l` had given is taken away, so
      inheritance survives the reset exactly when no waiter of `l` is more urgent than the holder's own priority. */
  lemma {:induction false} NestedRelease(s: Sys, h: nat, l: nat)
    requires Inv(s) && Enabled(s, Advance(h)) && s.pcs[h].loc.RelStore? && s.pcs[h].l != l
    requires l < |s.mutexes| && l in s.held[h]
    ensures var t := Step(s, h);
      && |t.pcs| == |t.procs| == |s.procs| && |t.mutexes| == |s.mutexes|
      && ((forall q: nat :: q < |t.procs| ==> Inherits(t, q, l)) <==>
          (forall q: nat :: q < |s.procs| && Waits(s, q, l) ==> s.procs[h].priority <= s.procs[q].elevated))
  {
    StoreOwn(s, h, l);
  }

  /** nice while holding mutex `l`: the same condition on the new priority, when it becomes the elevated value. */
  lemma {:induction false} NiceWhileHolding(s: Sys, h: nat, l: nat)
    requires Inv(s) && Enabled(s, Advance(h)) && s.pcs[h].loc.Settling?
    requires l < |s.mutexes| && l in s.held[h]
    ensures var t := Step(s, h);
      && |t.pcs| == |t.procs| == |s.procs| && |t.mutexes| == |s.mutexes|
      && ((forall q: nat :: q < |t.procs| ==> Inherits(t, q, l)) <==>
          (forall q: nat :: q < |s.procs| && Waits(s, q, l) ==> s.procs[h].priority <= s.procs[q].elevated))
  {
    StoreOwn(s, h, l);
  }

  lemma {:induction false} StoreOwn(s: Sys, h: nat, l: nat)
    requires Inv(s) && Enabled(s, Advance(h)) && (s.pcs[h].loc.Settling? || (s.pcs[h].loc.RelStore? && s.pcs[h].l != l))
    requires l < |s.mutexes| && l in s.held[h]
    ensures var t := Step(s, h);
      && |t.pcs| == |t.procs| == |s.procs| && |t.mutexes| == |s.mutexes|
      && ((forall q: nat :: q < |t.procs| ==> Inherits(t, q, l)) <==>
          (forall q: nat :: q < |s.procs| && Waits(s, q, l) ==> s.procs[h].priority <= s.procs[q].elevated))
  {
    hide Step, Inv;
    SizesOf(s);
    var t := Step(s, h);
    StepPcs(s, h, h);
    StepMutexes(s, h, l);
    StepProcs(s, h, h);
    FactOf(s, h, l);
    forall q: nat | q < |s.procs|
      ensures Inherits(t, q, l) <==> (Waits(s, q, l) ==> s.procs[h].priority <= s.procs[q].elevated)
    {
      FactOf(s, q, l);
      StepPcs(s, h, q);
      StepProcs(s, h, q);
    }
    hide Inherits, Waits;
  }
}
