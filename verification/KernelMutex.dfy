/** sysproc.c and proc.c: nice, macquire, mrelease, sleep and wakeup as interleaved steps of processes on any number
    of CPUs. A step is what one process does between two points where another one may interfere: taking or dropping a
    spinlock, the work done under it, and every single read or write of an elevated value, which no lock protects. */
module KernelMutex {
  import opened Wrappers
  import opened ProcTable

  /** Where a process is in nice, macquire or mrelease. */
  datatype Loc =
    | User                 // in user code
    | Clamping             // nice: has added the increment
    | Settling             //   has moved the sum into the range, about to store it as elevated value
    | Spin                 // macquire: about to acquire lk
    | Test                 //   holds lk, at the loop test
    | Got                  //   has the mutex, still holds lk
    | Look                 //   mutex taken: about to read its own elevated value
    | Weigh(mine: int)     //   has read it, about to compare it with the holder's
    | Raise                //   it is smaller: about to read its own again
    | Lend(value: int)     //   has read it again, about to store it into the holder
    | Busy                 //   in sleep(), wants ptable.lock
    | Both                 //   holds ptable.lock and lk
    | Dozing               //   has dropped lk, holds ptable.lock
    | Sleep                //   in sched()
    | RelSpin              // mrelease: about to acquire lk
    | RelHold              //   holds lk, about to compare its elevated value with its priority
    | RelStore             //   they differ: about to reset the elevated value
    | RelReset             //   its elevated value needs no reset any more
    | Cleared              //   mutex free, in wakeup(), wants ptable.lock
    | Waking               //   holds ptable.lock
    | Woke                 //   sleepers are runnable, ptable.lock dropped

  /** Place in the code, and the mutex that the system call is about. */
  datatype Pc = Pc(loc: Loc, l: nat)

  /** `lk` is the process that holds the spinlock of the mutex. */
  datatype Mutex = Mutex(lk: Option<nat>, locked: bool, holder: Option<nat>)

  /** `held[p]` are the mutexes that macquire has given to process p and p has not released. */
  datatype Sys = Sys(procs: seq<Proc>, pcs: seq<Pc>, held: seq<set<nat>>, mutexes: seq<Mutex>, plock: Option<nat>)

  datatype Event =
    | Nice(p: nat, inc: int)    // nice up to the addition
    | Acquire(p: nat, l: nat)
    | Release(p: nat, l: nat)
    | Advance(p: nat)           // the next step inside a system call
    | Preempt(p: nat)
    | Dispatch(p: nat)
    | Kill(p: nat)              // wakes a sleeper without a wakeup

  ghost predicate Shaped(s: Sys) {
    |s.pcs| == |s.procs| == |s.held|
  }

  predicate InNice(loc: Loc) {
    loc.Clamping? || loc.Settling?
  }

  /** In macquire, not yet given the mutex. */
  predicate InMacquire(loc: Loc) {
    loc.Spin? || loc.Test? || Asking(loc) || loc.Busy? || loc.Both? || loc.Dozing? || loc.Sleep?
  }

  /** Has found the mutex taken and is about to raise the holder. */
  predicate Asking(loc: Loc) {
    loc.Look? || loc.Weigh? || loc.Raise? || loc.Lend?
  }

  /** A process in a call about a mutex names one that exists. */
  predicate OnMutex(s: Sys, pc: Pc) {
    pc.loc.User? || InNice(pc.loc) || pc.l < |s.mutexes|
  }

  /** A spinlock that is taken makes the step wait. */
  predicate CanAdvance(s: Sys, pc: Pc)
    requires OnMutex(s, pc)
  {
    match pc.loc
    case User => false
    case Spin => s.mutexes[pc.l].lk.None?
    case RelSpin => s.mutexes[pc.l].lk.None?
    case Busy => s.plock.None?
    case Cleared => s.plock.None?
    case Sleep => s.plock.None?
    case _ => true
  }

  ghost predicate Enabled(s: Sys, e: Event) {
    Shaped(s) && e.p < |s.procs| && OnMutex(s, s.pcs[e.p]) &&
    match e
    case Nice(p, inc) => s.procs[p].state == RUNNING && s.pcs[p].loc.User? && -INT / 2 <= inc < INT / 2
    case Acquire(p, l) => s.procs[p].state == RUNNING && s.pcs[p].loc.User? && l < |s.mutexes|
    case Release(p, l) => s.procs[p].state == RUNNING && s.pcs[p].loc.User? && l < |s.mutexes| && l in s.held[p]
    case Advance(p) => s.procs[p].state == RUNNING && CanAdvance(s, s.pcs[p])
    case Preempt(p) => s.procs[p].state == RUNNING
    case Dispatch(p) => s.procs[p].state == RUNNABLE && s.plock.None?
    case Kill(p) => s.procs[p].state == SLEEPING && s.plock.None?
  }

  function At(s: Sys, p: nat, pc: Pc): Sys
    requires p < |s.pcs|
  {
    s.(pcs := s.pcs[p := pc])
  }

  function SetMutex(s: Sys, l: nat, m: Mutex): Sys
    requires l < |s.mutexes|
  {
    s.(mutexes := s.mutexes[l := m])
  }

  function SetProc(s: Sys, p: nat, q: Proc): Sys
    requires p < |s.procs|
  {
    s.(procs := s.procs[p := q])
  }

  /** The process that mutex `l` names as its holder. */
  predicate HeldBy(s: Sys, l: nat, h: nat)
    requires l < |s.mutexes|
  {
    h < |s.procs| && s.mutexes[l].holder == Some(h)
  }

  /** `myproc()->elevated < lock->holder->elevated`, with the value of the left side that was read before. */
  predicate Behind(s: Sys, l: nat, mine: int)
    requires l < |s.mutexes|
  {
    var h := s.mutexes[l].holder;
    h.Some? && h.value < |s.procs| && mine < s.procs[h.value].elevated
  }

  function NextLoc(s: Sys, p: nat): Loc
    requires p < |s.pcs| == |s.procs| && OnMutex(s, s.pcs[p])
  {
    var l := s.pcs[p].l;
    match s.pcs[p].loc
    case User => User
    case Clamping => Settling
    case Settling => User
    case Spin => Test
    case Test => if s.mutexes[l].locked then Look else Got
    case Got => User
    case Look => Weigh(s.procs[p].elevated)
    case Weigh(mine) => if Behind(s, l, mine) then Raise else Busy
    case Raise => Lend(s.procs[p].elevated)
    case Lend(_) => Busy
    case Busy => Both
    case Both => Dozing
    case Dozing => Sleep
    case Sleep => Spin
    case RelSpin => RelHold
    case RelHold => if s.procs[p].elevated != s.procs[p].priority then RelStore else RelReset
    case RelStore => RelReset
    case RelReset => Cleared
    case Cleared => Waking
    case Waking => Woke
    case Woke => User
  }

  /** What the step does besides moving on. */
  function Work(s: Sys, p: nat): Sys
    requires |s.pcs| == |s.procs| == |s.held| && p < |s.procs| && OnMutex(s, s.pcs[p])
  {
    var l, q := s.pcs[p].l, s.procs[p];
    match s.pcs[p].loc
    case Clamping => SetProc(s, p, q.(priority := Clamp(q.priority)))
    case Settling => SetProc(s, p, q.(elevated := q.priority))
    case Spin => SetMutex(s, l, s.mutexes[l].(lk := Some(p)))
    case Test =>
      if s.mutexes[l].locked then s
      else SetMutex(s, l, s.mutexes[l].(locked := true, holder := Some(p))).(held := s.held[p := s.held[p] + {l}])
    case Got => SetMutex(s, l, s.mutexes[l].(lk := None))
    case Lend(value) =>
      var h := s.mutexes[l].holder;
      if h.Some? && h.value < |s.procs| then SetProc(s, h.value, s.procs[h.value].(elevated := value)) else s
    case Busy => s.(plock := Some(p))
    case Both => SetMutex(s, l, s.mutexes[l].(lk := None))
    case Dozing => SetProc(s, p, q.(state := SLEEPING, chan := Some(l))).(plock := None)
    case Sleep => SetProc(s, p, q.(chan := None))
    case RelSpin => SetMutex(s, l, s.mutexes[l].(lk := Some(p)))
    case RelStore => SetProc(s, p, q.(elevated := q.priority))
    case RelReset =>
      SetMutex(s, l, s.mutexes[l].(locked := false, holder := None)).(held := s.held[p := s.held[p] - {l}])
    case Cleared => s.(plock := Some(p))
    case Waking => s.(procs := AllWoken(s.procs, l), plock := None)
    case Woke => SetMutex(s, l, s.mutexes[l].(lk := None))
    case _ => s
  }

  function Step(s: Sys, p: nat): Sys
    requires |s.pcs| == |s.procs| == |s.held| && p < |s.procs| && OnMutex(s, s.pcs[p])
  {
    At(s, p, Pc(NextLoc(s, p), s.pcs[p].l)).(
      procs := Work(s, p).procs, held := Work(s, p).held, mutexes := Work(s, p).mutexes, plock := Work(s, p).plock)
  }

  ghost function After(s: Sys, e: Event): Sys
    requires Enabled(s, e)
  {
    match e
    case Nice(p, inc) =>
      At(SetProc(s, p, s.procs[p].(priority := Add(s.procs[p].priority, inc))), p, Pc(Clamping, s.pcs[p].l))
    case Acquire(p, l) => At(s, p, Pc(Spin, l))
    case Release(p, l) => At(s, p, Pc(RelSpin, l))
    case Advance(p) => Step(s, p)
    case Preempt(p) => SetProc(s, p, s.procs[p].(state := RUNNABLE))
    case Dispatch(p) => SetProc(s, p, s.procs[p].(state := RUNNING))
    case Kill(p) => SetProc(s, p, s.procs[p].(state := RUNNABLE))
  }

  // ---------------------------------------------------------------- the invariant

  predicate OwnsLk(pc: Pc) {
    || pc.loc.Test? || pc.loc.Got? || Asking(pc.loc) || pc.loc.Busy? || pc.loc.Both?
    || pc.loc.RelHold? || pc.loc.RelStore? || pc.loc.RelReset? || pc.loc.Cleared? || pc.loc.Waking? || pc.loc.Woke?
  }

  predicate OwnsPlock(pc: Pc) {
    pc.loc.Both? || pc.loc.Dozing? || pc.loc.Waking?
  }

  /** In mrelease, between freeing the mutex and waking its sleepers. */
  predicate Waker(pc: Pc) {
    pc.loc.Cleared? || pc.loc.Waking?
  }

  /** Has found mutex `l` taken and has not been woken since. */
  predicate Waits(s: Sys, p: nat, l: nat)
    requires p < |s.pcs| && p < |s.procs|
  {
    && s.pcs[p].l == l
    && (s.pcs[p].loc.Busy? || s.pcs[p].loc.Both? || s.pcs[p].loc.Dozing? ||
        (s.pcs[p].loc.Sleep? && s.procs[p].state == SLEEPING))
  }

  /** The spinlock of mutex `l` is held by an mrelease that has yet to wake the sleepers. */
  predicate WakerAt(s: Sys, l: nat)
    requires l < |s.mutexes|
  {
    var lk := s.mutexes[l].lk;
    lk.Some? && lk.value < |s.pcs| && Waker(s.pcs[lk.value]) && s.pcs[lk.value].l == l
  }

  /** Between process `p` and mutex `l`: spinlocks are owned by the processes whose code says so, the mutex
      names the process that holds it, and a process inside mrelease holds the mutex. */
  ghost predicate LockFact(s: Sys, p: nat, l: nat)
    requires |s.pcs| == |s.procs| == |s.held| && p < |s.procs| && l < |s.mutexes|
  {
    var pc, m := s.pcs[p], s.mutexes[l];
    && OnMutex(s, pc)
    && (OwnsLk(pc) && pc.l == l <==> m.lk == Some(p))
    && (OwnsPlock(pc) <==> s.plock == Some(p))
    && (l in s.held[p] <==> m.holder == Some(p))
    && (m.locked <==> m.holder.Some?)
    && ((pc.loc.RelSpin? || pc.loc.RelHold? || pc.loc.RelStore? || pc.loc.RelReset? || pc.loc.Got?) && pc.l == l ==>
          l in s.held[p])
    && ((pc.loc.Cleared? || pc.loc.Waking? || pc.loc.Woke?) && pc.l == l ==> l !in s.held[p])
  }

  predicate InRange(x: int) {
    HIGHEST <= x <= LOWEST
  }

  /** Who waits for a mutex, waits for a holder or for a releaser that still has to call wakeup. */
  ghost predicate WaitFact(s: Sys, p: nat, l: nat)
    requires |s.pcs| == |s.procs| == |s.held| && p < |s.procs| && l < |s.mutexes|
  {
    var pc, m, q := s.pcs[p], s.mutexes[l], s.procs[p];
    && (q.state == SLEEPING ==> pc.loc.Sleep?)
    && (pc.loc.Sleep? ==> q.chan == Some(pc.l))
    && ((Asking(pc.loc) || pc.loc.Busy? || pc.loc.Both?) && pc.l == l ==> m.locked)
    && (Waits(s, p, l) ==> m.locked || WakerAt(s, l))
  }

  /** No value leaves the range but the sum inside nice; and who holds no mutex runs at its own priority. */
  ghost predicate ValueFact(s: Sys, p: nat)
    requires |s.pcs| == |s.procs| == |s.held| && p < |s.procs|
  {
    var pc, q := s.pcs[p], s.procs[p];
    && (s.held[p] == {} && !InNice(pc.loc) ==> q.elevated == q.priority)
    && (pc.loc.RelReset? && s.held[p] == {pc.l} ==> q.elevated == q.priority)
    && InRange(q.elevated) && (!pc.loc.Clamping? ==> InRange(q.priority))
    && (pc.loc.Lend? ==> InRange(pc.loc.value))
  }

  ghost predicate Fact(s: Sys, p: nat, l: nat)
    requires |s.pcs| == |s.procs| == |s.held| && p < |s.procs| && l < |s.mutexes|
  {
    LockFact(s, p, l) && WaitFact(s, p, l) && ValueFact(s, p)
  }

  /** The names of processes and mutexes in use exist. */
  ghost predicate Named(s: Sys) {
    && |s.pcs| == |s.procs| == |s.held|
    && (s.plock.Some? ==> s.plock.value < |s.procs|)
    && (forall l: nat :: l < |s.mutexes| ==> NamedMutex(s, l))
    && (forall p: nat, l: nat :: p < |s.held| && l in s.held[p] ==> l < |s.mutexes|)
  }

  predicate NamedMutex(s: Sys, l: nat)
    requires l < |s.mutexes|
  {
    && (s.mutexes[l].lk.Some? ==> s.mutexes[l].lk.value < |s.procs|)
    && (s.mutexes[l].holder.Some? ==> s.mutexes[l].holder.value < |s.procs|)
  }

  ghost predicate Inv(s: Sys) {
    Named(s) && |s.mutexes| > 0 && forall p: nat, l: nat :: p < |s.procs| && l < |s.mutexes| ==> Fact(s, p, l)
  }

  lemma FactOf(s: Sys, p: nat, l: nat)
    requires Inv(s) && p < |s.procs| && l < |s.mutexes|
    ensures Fact(s, p, l) && NamedMutex(s, l)
  {
  }

  // ---------------------------------------------------------------- what a step changes

  function NextMutex(s: Sys, p: nat): Mutex
    requires p < |s.pcs| && OnMutex(s, s.pcs[p]) && !s.pcs[p].loc.User? && !InNice(s.pcs[p].loc)
  {
    var m, loc := s.mutexes[s.pcs[p].l], s.pcs[p].loc;
    if loc.Spin? || loc.RelSpin? then m.(lk := Some(p))
    else if loc.Got? || loc.Both? || loc.Woke? then m.(lk := None)
    else if loc.Test? && !m.locked then m.(locked := true, holder := Some(p))
    else if loc.RelReset? then m.(locked := false, holder := None)
    else m
  }

  lemma {:induction false} StepPcs(s: Sys, p: nat, q: nat)
    requires Shaped(s) && p < |s.procs| && OnMutex(s, s.pcs[p]) && q < |s.procs|
    ensures |Step(s, p).pcs| == |Step(s, p).procs| == |Step(s, p).held| == |s.pcs|
    ensures Step(s, p).pcs[q] == if q == p then Pc(NextLoc(s, p), s.pcs[p].l) else s.pcs[q]
  {
    hide NextLoc;
  }

  lemma {:induction false} StepMutexes(s: Sys, p: nat, l: nat)
    requires Shaped(s) && p < |s.procs| && OnMutex(s, s.pcs[p]) && l < |s.mutexes|
    ensures |Step(s, p).mutexes| == |s.mutexes|
    ensures Step(s, p).mutexes[l] == 
        if l == s.pcs[p].l && !s.pcs[p].loc.User? && !InNice(s.pcs[p].loc) then NextMutex(s, p) else s.mutexes[l]
  {
  }

  lemma {:induction false} StepHeld(s: Sys, p: nat, q: nat)
    requires Shaped(s) && p < |s.procs| && OnMutex(s, s.pcs[p]) && q < |s.procs|
    ensures |Step(s, p).held| == |s.held|
    ensures var l, loc := s.pcs[p].l, s.pcs[p].loc;
      Step(s, p).held[q] ==
        if q == p && loc.Test? && !s.mutexes[l].locked then s.held[p] + {l}
        else if q == p && loc.RelReset? then s.held[p] - {l}
        else s.held[q]
  {
  }

  lemma {:induction false} StepPlock(s: Sys, p: nat)
    requires Shaped(s) && p < |s.procs| && OnMutex(s, s.pcs[p])
    ensures var loc := s.pcs[p].loc;
      Step(s, p).plock ==
        if loc.Busy? || loc.Cleared? then Some(p) else if loc.Dozing? || loc.Waking? then None else s.plock
  {
  }

  /** The step stores the value into the elevated value of process `h`. */
  predicate Raises(s: Sys, p: nat, h: nat)
    requires p < |s.pcs| && OnMutex(s, s.pcs[p])
  {
    s.pcs[p].loc.Lend? && HeldBy(s, s.pcs[p].l, h)
  }

  lemma {:induction false} StepProcs(s: Sys, p: nat, q: nat)
    requires Shaped(s) && p < |s.procs| && OnMutex(s, s.pcs[p]) && q < |s.procs|
    ensures |Step(s, p).procs| == |s.procs|
    ensures var l, loc, u := s.pcs[p].l, s.pcs[p].loc, s.procs[q];
      Step(s, p).procs[q] ==
        if Raises(s, p, q) then u.(elevated := loc.value)
        else if loc.Waking? then Woken(u, l)
        else if q != p then u
        else if loc.Dozing? then u.(state := SLEEPING, chan := Some(l))
        else if loc.Sleep? then u.(chan := None)
        else if loc.RelStore? || loc.Settling? then u.(elevated := u.priority)
        else if loc.Clamping? then u.(priority := Clamp(u.priority))
        else u
  {
  }

  /** The mutex that the step of process `p` is about; any other one if it is about none. */
  function About(s: Sys, p: nat): (l: nat)
    requires p < |s.pcs| && OnMutex(s, s.pcs[p]) && |s.mutexes| > 0
    ensures l < |s.mutexes| && (s.pcs[p].l < |s.mutexes| ==> l == s.pcs[p].l)
  {
    if s.pcs[p].l < |s.mutexes| then s.pcs[p].l else 0
  }

  lemma {:induction false} AdvanceNames(s: Sys, p: nat, q: nat, l: nat)
    requires Inv(s) && Enabled(s, Advance(p)) && q < |s.procs| && l < |s.mutexes|
    ensures var t := Step(s, p);
      && |t.pcs| == |t.procs| == |t.held| == |s.procs| && |t.mutexes| == |s.mutexes|
      && NamedMutex(t, l) && (t.plock.Some? ==> t.plock.value < |t.procs|)
      && forall m :: m in t.held[q] ==> m < |t.mutexes|
  {
    hide Step, LockFact, WaitFact, ValueFact, NextLoc;
    FactOf(s, p, l);
    StepPcs(s, p, q);
    StepMutexes(s, p, l);
    StepHeld(s, p, q);
    StepPlock(s, p);
    StepProcs(s, p, q);
  }

  lemma {:induction false} AdvanceLocks(s: Sys, p: nat, q: nat, l: nat)
    requires Inv(s) && Enabled(s, Advance(p)) && q < |s.procs| && l < |s.mutexes|
    ensures var t := Step(s, p);
      |t.pcs| == |t.procs| == |t.held| == |s.procs| && |t.mutexes| == |s.mutexes| && LockFact(t, q, l)
  {
    hide Step, Inv, WaitFact, ValueFact, NamedMutex;
    FactOf(s, p, About(s, p));
    FactOf(s, p, l);
    FactOf(s, q, l);
    StepPcs(s, p, q);
    StepMutexes(s, p, l);
    StepHeld(s, p, q);
    StepPlock(s, p);
    StepProcs(s, p, q);
  }

  lemma {:induction false} AdvanceWaits(s: Sys, p: nat, q: nat, l: nat)
    requires Inv(s) && Enabled(s, Advance(p)) && q < |s.procs| && l < |s.mutexes|
    ensures var t := Step(s, p);
      |t.pcs| == |t.procs| == |t.held| == |s.procs| && |t.mutexes| == |s.mutexes| && WaitFact(t, q, l)
  {
    hide Inv, Step, ValueFact, NamedMutex;
    FactOf(s, p, About(s, p));
    FactOf(s, p, l);
    FactOf(s, q, About(s, p));
    FactOf(s, q, l);
    StepPcs(s, p, q);
    StepMutexes(s, p, l);
    StepProcs(s, p, q);
    if s.mutexes[l].lk.Some? {
      NamedOf(s, l);
      FactOf(s, s.mutexes[l].lk.value, l);
      StepPcs(s, p, s.mutexes[l].lk.value);
    }
    StepPcs(s, p, p);
  }

  lemma SizesOf(s: Sys)
    requires Inv(s)
    ensures |s.pcs| == |s.procs| == |s.held| && |s.mutexes| > 0
  {
  }

  lemma NamedOf(s: Sys, l: nat)
    requires Inv(s) && l < |s.mutexes|
    ensures s.mutexes[l].lk.Some? ==> s.mutexes[l].lk.value < |s.procs|
    ensures s.mutexes[l].holder.Some? ==> s.mutexes[l].holder.value < |s.procs|
  {
    assert NamedMutex(s, l);
  }

  lemma {:induction false} AdvanceValues(s: Sys, p: nat, q: nat)
    requires Inv(s) && Enabled(s, Advance(p)) && q < |s.procs|
    ensures var t := Step(s, p);
      |t.pcs| == |t.procs| == |t.held| == |s.procs| && |t.mutexes| == |s.mutexes| && ValueFact(t, q)
  {
    hide Inv, Step, WaitFact, NamedMutex;
    SizesOf(s);
    FactOf(s, p, About(s, p));
    FactOf(s, q, About(s, p));
    StepPcs(s, p, q);
    StepMutexes(s, p, About(s, p));
    StepHeld(s, p, q);
    StepProcs(s, p, q);
  }

  /** A step inside nice, macquire or mrelease keeps the invariant. */
  lemma {:induction false} AdvanceInv(s: Sys, p: nat)
    requires Inv(s) && Enabled(s, Advance(p))
    ensures Inv(Step(s, p))
  {
    hide Step, LockFact, WaitFact, ValueFact;
    var t := Step(s, p);
    AdvanceNames(s, p, p, 0);
    forall q: nat, l: nat | q < |s.procs| && l < |s.mutexes|
      ensures Fact(t, q, l)
    {
      AdvanceLocks(s, p, q, l);
      AdvanceWaits(s, p, q, l);
      AdvanceValues(s, p, q);
    }
    forall l: nat | l < |t.mutexes|
      ensures NamedMutex(t, l)
    {
      AdvanceNames(s, p, p, l);
    }
    forall q: nat, l: nat | q < |t.held| && l in t.held[q]
      ensures l < |t.mutexes|
    {
      AdvanceNames(s, p, q, 0);
    }
  }

  /** The other events keep it: calls, preemption, dispatch and kill. */
  lemma {:induction false} OtherInv(s: Sys, e: Event)
    requires Inv(s) && Enabled(s, e) && !e.Advance?
    ensures Inv(After(s, e))
  {
    hide Fact;
    var t := After(s, e);
    assert t.mutexes == s.mutexes && t.held == s.held && t.plock == s.plock && |t.pcs| == |t.procs| == |s.procs|;
    assert forall l: nat :: l < |s.mutexes| ==> NamedMutex(s, l);
    forall q: nat, l: nat | q < |s.procs| && l < |s.mutexes|
      ensures Fact(t, q, l)
    {
      OtherFact(s, e, q, l);
    }
    forall l: nat | l < |t.mutexes|
      ensures NamedMutex(t, l)
    {
      assert NamedMutex(s, l);
    }
    assert Named(t);
  }

  lemma {:induction false} OtherFact(s: Sys, e: Event, q: nat, l: nat)
    requires Inv(s) && Enabled(s, e) && !e.Advance? && q < |s.procs| && l < |s.mutexes|
    ensures var t := After(s, e);
      |t.pcs| == |t.procs| == |t.held| == |s.procs| && |t.mutexes| == |s.mutexes| && Fact(t, q, l)
  {
    hide LockFact, WaitFact, ValueFact;
    OtherLocks(s, e, q, l);
    OtherWaits(s, e, q, l);
  }

  lemma {:induction false} OtherLocks(s: Sys, e: Event, q: nat, l: nat)
    requires Inv(s) && Enabled(s, e) && !e.Advance? && q < |s.procs| && l < |s.mutexes|
    ensures var t := After(s, e);
      |t.pcs| == |t.procs| == |t.held| == |s.procs| && |t.mutexes| == |s.mutexes| && LockFact(t, q, l)
  {
    hide Inv, WaitFact, ValueFact, Step;
    FactOf(s, e.p, l);
    FactOf(s, q, l);
  }

  lemma {:induction false} OtherWaits(s: Sys, e: Event, q: nat, l: nat)
    requires Inv(s) && Enabled(s, e) && !e.Advance? && q < |s.procs| && l < |s.mutexes|
    ensures var t := After(s, e);
      && |t.pcs| == |t.procs| == |t.held| == |s.procs| && |t.mutexes| == |s.mutexes|
      && WaitFact(t, q, l) && ValueFact(t, q)
  {
    hide Inv, LockFact, Step;
    FactOf(s, e.p, l);
    FactOf(s, q, l);
  }

  // ---------------------------------------------------------------- runs

  ghost predicate Run(s: Sys, es: seq<Event>)
    decreases es
  {
    es == [] || (Enabled(s, es[0]) && Run(After(s, es[0]), es[1..]))
  }

  ghost function End(s: Sys, es: seq<Event>): Sys
    requires Run(s, es)
    decreases es
  {
    if es == [] then s else End(After(s, es[0]), es[1..])
  }

  lemma {:induction false} StepInv(s: Sys, e: Event)
    requires Inv(s) && Enabled(s, e)
    ensures Inv(After(s, e))
  {
    if e.Advance? {
      AdvanceInv(s, e.p);
    } else {
      OtherInv(s, e);
    }
  }

  lemma {:induction false} RunInv(s: Sys, es: seq<Event>)
    requires Inv(s) && Run(s, es)
    ensures Inv(End(s, es))
    decreases es
  {
    hide Inv, Enabled, After;
    if es != [] {
      StepInv(s, es[0]);
      RunInv(After(s, es[0]), es[1..]);
    }
  }

  /** Processes in user code, mutexes free, priorities in range and not raised. */
  ghost predicate Initial(s: Sys) {
    && |s.pcs| == |s.procs| == |s.held| && |s.mutexes| > 0 && s.plock.None?
    && (forall p: nat :: p < |s.pcs| ==> s.pcs[p].loc.User? && s.held[p] == {} && s.procs[p].state != SLEEPING)
    && (forall l: nat :: l < |s.mutexes| ==> s.mutexes[l] == Mutex(None, false, None))
    && (forall p: nat :: p < |s.procs| ==> HIGHEST <= s.procs[p].elevated == s.procs[p].priority <= LOWEST)
  }

  lemma {:induction false} InitInv(s: Sys)
    requires Initial(s)
    ensures Inv(s)
  {
  }

  // ---------------------------------------------------------------- what it means

  /** In every run: only one process holds a mutex; no value leaves the range but the sum inside nice; what was lent
      to a process is taken back when it holds no mutex any more; and a process is asleep on a free mutex only while
      some mrelease of it is between freeing it and waking the sleepers. */
  lemma {:induction false} Safe(s: Sys, es: seq<Event>)
    requires Initial(s) && Run(s, es)
    ensures var t := End(s, es);
      && |t.pcs| == |t.procs| == |t.held|
      && (forall p: nat, q: nat, l: nat ::
            p < |t.held| && q < |t.held| && l in t.held[p] && l in t.held[q] ==> p == q)
      && (forall p: nat :: p < |t.procs| ==>
            InRange(t.procs[p].elevated) && (!t.pcs[p].loc.Clamping? ==> InRange(t.procs[p].priority)))
      && (forall p: nat :: p < |t.procs| && t.held[p] == {} && !InNice(t.pcs[p].loc) ==>
            t.procs[p].elevated == t.procs[p].priority)
      && (forall p: nat, l: nat ::
            p < |t.procs| && l < |t.mutexes| && t.procs[p].state == SLEEPING && t.pcs[p] == Pc(Sleep, l) ==>
              t.mutexes[l].locked || WakerAt(t, l))
  {
    InitInv(s);
    RunInv(s, es);
    var t := End(s, es);
    forall p: nat, q: nat, l: nat | p < |t.held| && q < |t.held| && l in t.held[p] && l in t.held[q]
      ensures p == q
    {
      FactOf(t, p, l);
      FactOf(t, q, l);
    }
    forall p: nat | p < |t.procs|
      ensures InRange(t.procs[p].elevated) && (!t.pcs[p].loc.Clamping? ==> InRange(t.procs[p].priority))
      ensures t.held[p] == {} && !InNice(t.pcs[p].loc) ==> t.procs[p].elevated == t.procs[p].priority
    {
      FactOf(t, p, 0);
    }
    forall p: nat, l: nat |
      p < |t.procs| && l < |t.mutexes| && t.procs[p].state == SLEEPING && t.pcs[p] == Pc(Sleep, l)
      ensures t.mutexes[l].locked || WakerAt(t, l)
    {
      FactOf(t, p, l);
    }
  }

  // ---------------------------------------------------------------- what the calls return with

  predicate InRelease(loc: Loc) {
    loc.RelSpin? || loc.RelHold? || loc.RelStore? || loc.RelReset? || loc.Cleared? || loc.Waking? || loc.Woke?
  }

  predicate IsCall(e: Event) {
    e.Nice? || e.Acquire? || e.Release?
  }

  /** The last call that process `p` has made. */
  function LastCall(es: seq<Event>, p: nat): Option<Event> {
    if es == [] then None
    else
      var e := es[|es| - 1];
      if IsCall(e) && e.p == p then Some(e) else LastCall(es[..|es| - 1], p)
  }

  /** A process inside a call is inside the one that it made last. */
  ghost predicate CallFact(s: Sys, p: nat, call: Option<Event>)
    requires p < |s.pcs|
  {
    var pc := s.pcs[p];
    && (InMacquire(pc.loc) || pc.loc.Got? ==> call == Some(Acquire(p, pc.l)))
    && (InRelease(pc.loc) ==> call == Some(Release(p, pc.l)))
    && (InNice(pc.loc) ==> call.Some? && call.value.Nice? && call.value.p == p)
  }

  lemma {:induction false} CallStep(s: Sys, e: Event, p: nat, past: seq<Event>)
    requires Enabled(s, e) && p < |s.pcs| && CallFact(s, p, LastCall(past, p))
    ensures |After(s, e).pcs| == |s.pcs| && CallFact(After(s, e), p, LastCall(past + [e], p))
  {
    assert (past + [e])[..|past|] == past;
    if e.Advance? {
      hide Step;
      StepPcs(s, e.p, p);
    }
  }

  lemma {:induction false} CallsKept(s: Sys, es: seq<Event>, p: nat, past: seq<Event>)
    requires Run(s, es) && p < |s.pcs| && CallFact(s, p, LastCall(past, p))
    ensures |End(s, es).pcs| == |s.pcs| && CallFact(End(s, es), p, LastCall(past + es, p))
    decreases es
  {
    hide Enabled, After, CallFact, LastCall;
    if es == [] {
      assert past + es == past;
    } else {
      CallStep(s, es[0], p, past);
      CallsKept(After(s, es[0]), es[1..], p, past + [es[0]]);
      assert past + [es[0]] + es[1..] == past + es;
    }
  }

  lemma {:induction false} RunLast(s: Sys, es: seq<Event>, e: Event)
    requires Run(s, es + [e])
    ensures Run(s, es) && Enabled(End(s, es), e) && End(s, es + [e]) == After(End(s, es), e)
    decreases es
  {
    hide Enabled, After;
    var fs := es + [e];
    if es == [] {
      assert fs[1..] == [];
    } else {
      assert fs[1..] == es[1..] + [e];
      RunLast(After(s, es[0]), es[1..], e);
    }
  }

  /** What process `p` has when the call has returned: macquire the mutex, mrelease not any more; and neither keeps the
      spinlock. nice has made its new priority its elevated value. */
  ghost predicate Returned(s: Sys, p: nat, call: Event) {
    && |s.pcs| == |s.procs| == |s.held| && p < |s.procs| && call.p == p
    && match call
       case Acquire(_, l) =>
         l < |s.mutexes| && l in s.held[p] && s.mutexes[l].holder == Some(p) && s.mutexes[l].lk != Some(p)
       case Release(_, l) =>
         l < |s.mutexes| && l !in s.held[p] && s.mutexes[l].holder != Some(p) && s.mutexes[l].lk != Some(p)
       case Nice(_, _) => s.procs[p].elevated == s.procs[p].priority && InRange(s.procs[p].priority)
       case _ => false
  }

  lemma {:induction false} ReturnStep(s: Sys, p: nat, call: Option<Event>)
    requires Inv(s) && Enabled(s, Advance(p)) && CallFact(s, p, call) && Step(s, p).pcs[p].loc.User?
    ensures call.Some? && Returned(Step(s, p), p, call.value)
  {
    hide Step, Inv, WaitFact, NamedMutex;
    AdvanceInv(s, p);
    SizesOf(s);
    var k := About(s, p);
    FactOf(s, p, k);
    StepPcs(s, p, p);
    StepMutexes(s, p, k);
    StepHeld(s, p, p);
    StepProcs(s, p, p);
    FactOf(Step(s, p), p, k);
  }

  /** In every run from the start, whenever a step takes a process back to user code, the call that it made last has
      done what it is for: macquire never returns without the mutex. */
  lemma {:induction false} CallsReturn(s: Sys, es: seq<Event>, p: nat)
    requires Initial(s) && Run(s, es + [Advance(p)])
    requires var t := End(s, es + [Advance(p)]); p < |t.pcs| && t.pcs[p].loc.User?
    ensures LastCall(es, p).Some? && Returned(End(s, es + [Advance(p)]), p, LastCall(es, p).value)
  {
    RunLast(s, es, Advance(p));
    InitInv(s);
    RunInv(s, es);
    var t := End(s, es);
    SamePcs(s, es);
    assert CallFact(s, p, LastCall([], p));
    CallsKept(s, es, p, []);
    assert [] + es == es;
    hide Inv, Run, Initial, Returned, CallFact;
    ReturnStep(t, p, LastCall(es, p));
  }

  lemma {:induction false} SamePcs(s: Sys, es: seq<Event>)
    requires Run(s, es)
    ensures |End(s, es).pcs| == |s.pcs|
    decreases es
  {
    hide Step;
    if es != [] {
      if es[0].Advance? {
        StepPcs(s, es[0].p, es[0].p);
      }
      SamePcs(After(s, es[0]), es[1..]);
    }
  }
}
