/** proc.c: the process table as far as scheduling and sleeping go. */
module ProcTable {
  import opened Wrappers
  import opened Params

  datatype RunState = UNUSED | EMBRYO | SLEEPING | RUNNABLE | RUNNING | ZOMBIE

  /** `chan` is the mutex a process sleeps on; a smaller `elevated` runs first. */
  datatype Proc = Proc(state: RunState, chan: Option<nat>, priority: int, elevated: int)

  const HIGHEST := -20
  const LOWEST := 19
  const INT: int := 0x1_0000_0000

  function Clamp(x: int): (r: int)
    ensures HIGHEST <= r <= LOWEST
  {
    if x < HIGHEST then HIGHEST else if x > LOWEST then LOWEST else x
  }

  /** The range is -20 to 19, and a value outside goes to its nearest limit. */
  lemma ClampIsNearest(x: int, y: int)
    ensures -20 <= Clamp(x) <= 19
    ensures -20 <= y <= 19 ==> (if Clamp(x) > x then Clamp(x) - x else x - Clamp(x)) <= (if y > x then y - x else x - y)
  {
  }

  /** Addition of two ints, wrapping around. */
  function Add(x: int, y: int): (s: int)
    ensures -0x8000_0000 <= s < 0x8000_0000 && (s - (x + y)) % 0x1_0000_0000 == 0
  {
    var s := (x + y) % INT;
    if s >= INT / 2 then s - INT else s
  }

  /** sys_nice: the range check in it can never hold, so every increment is taken. */
  function Niced(p: Proc, inc: int): (r: Proc)
    ensures HIGHEST <= r.priority <= LOWEST && r.elevated == r.priority && r.state == p.state && r.chan == p.chan
  {
    var v := Clamp(Add(p.priority, inc));
    p.(priority := v, elevated := v)
  }

  /** The new priority is the old one plus the increment, moved into the range, exactly when the sum does not
      overflow. */
  lemma {:induction false} NiceClamps(p: Proc, inc: int)
    requires HIGHEST <= p.priority <= LOWEST && -INT / 2 <= inc < INT / 2
    ensures Niced(p, inc).priority == Clamp(p.priority + inc) <==> -INT / 2 <= p.priority + inc < INT / 2
  {
    var s := p.priority + inc;
    if s >= INT / 2 {
      assert s % INT == s;
    } else if s < -INT / 2 {
      assert s % INT == s + INT;
    } else if s < 0 {
      assert s % INT == s + INT;
    } else {
      assert s % INT == s;
    }
  }

  /** The largest increment makes the least urgent process the most urgent one. */
  lemma NiceOverflows()
    ensures Niced(Proc(RUNNING, None, LOWEST, LOWEST), INT / 2 - 1).priority == HIGHEST
  {
  }

  method SysNice(procs: array<Proc>, me: nat, inc: int)
    requires me < procs.Length && -INT / 2 <= inc < INT / 2
    modifies procs
    ensures procs[..] == old(procs[..])[me := Niced(old(procs[me]), inc)]
  {
    if inc < -39 && inc > 39 {
      return;
    }
    procs[me] := procs[me].(priority := Add(procs[me].priority, inc));
    if procs[me].priority < HIGHEST {
      procs[me] := procs[me].(priority := HIGHEST);
    } else if procs[me].priority > LOWEST {
      procs[me] := procs[me].(priority := LOWEST);
    }
    procs[me] := procs[me].(elevated := procs[me].priority);
  }

  // ---------------------------------------------------------------- wakeup

  function Woken(p: Proc, chan: nat): Proc {
    if p.state == SLEEPING && p.chan == Some(chan) then p.(state := RUNNABLE) else p
  }

  function AllWoken(procs: seq<Proc>, chan: nat): (r: seq<Proc>)
    ensures |r| == |procs| && forall i :: 0 <= i < |procs| ==> r[i] == Woken(procs[i], chan)
  {
    seq(|procs|, i requires 0 <= i < |procs| => Woken(procs[i], chan))
  }

  /** wakeup1: makes every sleeper on `chan` runnable, and touches nobody else. */
  method Wakeup1(procs: array<Proc>, chan: nat)
    modifies procs
    ensures procs[..] == AllWoken(old(procs[..]), chan)
    ensures forall i :: 0 <= i < procs.Length ==>
      var p := old(procs[i]);
      procs[i] == if p.state == SLEEPING && p.chan == Some(chan) then p.(state := RUNNABLE) else p
  {
    for p := 0 to procs.Length
      invariant forall i :: 0 <= i < p ==> procs[i] == Woken(old(procs[i]), chan)
      invariant forall i :: p <= i < procs.Length ==> procs[i] == old(procs[i])
    {
      if procs[p].state == SLEEPING && procs[p].chan == Some(chan) {
        procs[p] := procs[p].(state := RUNNABLE);
      }
    }
  }

  // ---------------------------------------------------------------- the choice of the scheduler

  /** Steps from `start` to `i` around the table. */
  function Turn(i: nat, start: nat): nat
    requires i < NPROC && start <= NPROC
  {
    if i >= start then i - start else i + NPROC - start
  }

  /** Process `h` is runnable, no runnable process has a smaller elevated value, and ties go to `p`, else to
      the first one around the table from `start`. */
  ghost predicate Chosen(procs: seq<Proc>, p: nat, start: nat, h: nat)
    requires |procs| == NPROC && p < NPROC && start <= NPROC
  {
    && h < NPROC && procs[h].state == RUNNABLE
    && (forall i: nat :: i < NPROC && procs[i].state == RUNNABLE ==> procs[h].elevated <= procs[i].elevated)
    && (procs[p].elevated == procs[h].elevated ==> h == p)
    && (h != p ==> forall i: nat ::
         i < NPROC && procs[i].state == RUNNABLE && procs[i].elevated == procs[h].elevated ==>
          Turn(h, start) <= Turn(i, start))
  }

  lemma {:induction false} TurnOf(i: nat, start: nat)
    requires i < NPROC && start <= NPROC
    ensures Turn((start + i) % NPROC, start) == i
    ensures (start + Turn(i, start)) % NPROC == i
  {
  }

  /** One round of scheduler(): from a runnable process found at `p`, choose and start the one to run. */
  method Schedule(procs: array<Proc>, p: nat, start: nat) returns (h: nat, next: nat)
    requires procs.Length == NPROC && p < NPROC && start <= NPROC && procs[p].state == RUNNABLE
    modifies procs
    ensures Chosen(old(procs[..]), p, start, h)
    ensures next == if h == p then 0 else h + 1
    ensures procs[..] == old(procs[..])[h := old(procs[h]).(state := RUNNING)]
  {
    h := p;
    next := 0;
    for i := 0 to NPROC
      invariant h < NPROC && procs[h].state == RUNNABLE && next == (if h == p then 0 else h + 1)
      invariant unchanged(procs)
      invariant procs[h].elevated <= procs[p].elevated && (procs[p].elevated == procs[h].elevated ==> h == p)
      invariant forall k: nat :: k < NPROC && procs[k].state == RUNNABLE && Turn(k, start) < i ==>
        procs[h].elevated <= procs[k].elevated
      invariant h != p ==> Turn(h, start) < i
      invariant h != p ==> forall k: nat ::
        k < NPROC && procs[k].state == RUNNABLE && procs[k].elevated == procs[h].elevated ==>
        Turn(h, start) <= Turn(k, start)
    {
      var index := (start + i) % NPROC;
      TurnOf(i, start);
      if procs[index].state == RUNNABLE && procs[h].elevated > procs[index].elevated {
        h := index;
        next := index + 1;
      }
      forall k: nat | k < NPROC && Turn(k, start) == i
        ensures k == index
      {
        TurnOf(k, start);
      }
    }
    procs[h] := procs[h].(state := RUNNING);
  }
}
