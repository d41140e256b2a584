/** What the ring, the windows and the status board promise, for every interleaving. */
module RingTheorems {
  import opened RingModel
  import opened RingSafety
  import opened RingSteps

  /** The next window to poll is that of the oldest request, and at most `win` requests are in flight. */
  predicate InStep(c: Config, cl: Client) {
    c.win > 0 && cl.nxtComp == cl.lastCompleted % c.win && cl.lastSubmitted - cl.lastCompleted <= c.win
  }

  /** Request `i` of thread `t` has a ticket and is not acknowledged. */
  predicate Live(s: State, t: nat, i: nat) {
    t < |s.clients| && s.clients[t].lastCompleted <= i < |s.clients[t].tickets|
  }

  /** Flow control. The counters stay in order; the ring holds at most one ticket per window; the next
      window to acknowledge is the one of the oldest request; outstanding requests never share one. */
  lemma FlowControl(c: Config, s: State)
    requires Fits(c) && Reachable(c, s)
    ensures s.cTail <= s.cHead <= s.pTail <= s.pHead
    ensures s.pHead - s.cTail <= c.threads * c.win && s.pHead - s.cTail <= RING_SIZE
    ensures |s.clients| == c.threads && c.win > 0
    ensures forall t :: 0 <= t < c.threads ==> InStep(c, s.clients[t])
    ensures forall t, i, r, j ::
              Live(s, t, i) && Live(s, r, j) && SlotOf(c, t, i) == SlotOf(c, r, j) ==> t == r && i == j
  {
    ReachableInv(c, s);
    Occupancy(c, s);
    MulMonoRight(c.threads, Outstanding(c), c.win);
    forall t | 0 <= t < c.threads ensures InStep(c, s.clients[t]) {
      assert ClientOK(c, s, t);
    }
    forall t, i, r, j | Live(s, t, i) && Live(s, r, j) && SlotOf(c, t, i) == SlotOf(c, r, j)
      ensures t == r && i == j
    {
      assert ClientOK(c, s, t) && ClientOK(c, s, r);
      WindowsDiffer(c, s, t, i, r, j);
    }
  }

  lemma {:induction false} MulMonoRight(k: nat, a: nat, b: nat)
    requires a <= b
    ensures k * a <= k * b
  {
    if k > 0 {
      MulMonoRight(k - 1, a, b);
      assert k * a == (k - 1) * a + a && k * b == (k - 1) * b + b;
    }
  }

  /** Server `u` took its ticket itself and has exactly the descriptor submitted under it. */
  ghost predicate HoldsItem(c: Config, s: State, u: nat)
    requires ValidConfig(c) && u < |s.servers|
  {
    var x := s.servers[u].consHead;
    && x < |s.taker| && s.taker[x] == u
    && x < |s.owner| && s.owner[x].thread < c.threads && s.owner[x].index < c.n
    && s.servers[u].buf == TicketItem(c, s, x)
  }

  /** Exactly once, in ticket order, unharmed. A server works on the very descriptor that was submitted
      under its ticket; tickets are taken one after the other; no two servers hold the same one; no
      request has two tickets; and a released ticket is in the served log exactly once, or is about to
      enter it. */
  lemma ExactlyOnce(c: Config, s: State)
    requires Fits(c) && Reachable(c, s)
    ensures Inv(c, s)
    ensures forall u :: 0 <= u < c.servers && Serving(s.servers[u].pc) ==> HoldsItem(c, s, u)
    ensures forall u, r :: 0 <= u < r < c.servers && Serving(s.servers[u].pc) && Serving(s.servers[r].pc) ==>
              s.servers[u].consHead != s.servers[r].consHead
    ensures forall x, y :: 0 <= x < y < |s.owner| ==> s.owner[x] != s.owner[y]
    ensures forall p, q :: 0 <= p < q < |s.log| ==> s.log[p].ticket != s.log[q].ticket
    ensures forall x: nat :: x < s.cTail ==>
              (exists p :: 0 <= p < |s.log| && s.log[p].ticket == x) ||
                (BeingServed(s, x) && s.servers[s.taker[x]].pc.Exec?)
  {
    ReachableInv(c, s);
    forall u | 0 <= u < c.servers && Serving(s.servers[u].pc) ensures HoldsItem(c, s, u) {
      assert ServerOK(c, s, u);
    }
    forall u, r | 0 <= u < r < c.servers && Serving(s.servers[u].pc) && Serving(s.servers[r].pc)
      ensures s.servers[u].consHead != s.servers[r].consHead
    {
      TakersDiffer(c, s, u, r);
    }
    forall x, y | 0 <= x < y < |s.owner| ensures s.owner[x] != s.owner[y] {
      assert OwnerOK(c, s, x) && OwnerOK(c, s, y);
    }
    forall p, q | 0 <= p < q < |s.log| ensures s.log[p].ticket != s.log[q].ticket {
      assert EntryOK(c, s, p) && EntryOK(c, s, q);
    }
    forall x: nat | x < s.cTail
      ensures (exists p :: 0 <= p < |s.log| && s.log[p].ticket == x) ||
        (BeingServed(s, x) && s.servers[s.taker[x]].pc.Exec?)
    {
      if x in s.at {
        assert s.log[s.at[x]].ticket == x;
      } else {
        assert BeingServed(s, x) && ServerOK(c, s, s.taker[x]);
      }
    }
  }

  /** The value of the last PUT to key `k` in the log; 0 if there is none. */
  function LastPut(log: seq<Served>, k: int): int {
    if log == [] then 0
    else
      var e := log[|log| - 1];
      if e.t == PUT && e.k == k then e.v else LastPut(log[..|log| - 1], k)
  }

  lemma {:induction false} LookupIsLastPut(log: seq<Served>, k: int)
    ensures Lookup(Replay(log), k) == LastPut(log, k)
  {
    if log != [] {
      LookupIsLastPut(log[..|log| - 1], k);
    }
  }

  /** `d` answers request `i` of thread `t`: its key, and for a GET the value of the last PUT to that key among the
      requests served before it in the order of the log. */
  ghost predicate Answered(c: Config, s: State, d: Desc, t: nat, i: nat)
    requires ValidConfig(c) && t < c.threads && i < c.n
  {
    && d[K] == c.reqs[t][i].k
    && exists p :: 0 <= p < |s.log|
        && s.log[p].ticket < |s.owner| && s.owner[s.log[p].ticket] == Owner(t, i)
        && (c.reqs[t][i].t == GET ==> d[V] == LastPut(s.log[..p], c.reqs[t][i].k))
  }

  /** Results are right even when servers finish out of order: what a client has acknowledged in res[i] is
      the answer to reqs[i], and a client that has finished has all its answers. */
  lemma ResultsAnswer(c: Config, s: State, t: nat, i: nat)
    requires Fits(c) && Reachable(c, s) && t < c.threads
    ensures Inv(c, s) && (s.clients[t].pc.Finished? ==> s.clients[t].lastCompleted == c.n)
    ensures i < s.clients[t].lastCompleted ==>
      i < c.n == |s.clients[t].res| && Answered(c, s, s.clients[t].res[i], t, i)
    ensures forall k: int :: Lookup(s.kv, k) == LastPut(s.log, k)
  {
    ReachableInv(c, s);
    forall k: int
      ensures Lookup(s.kv, k) == LastPut(s.log, k)
    {
      LookupIsLastPut(s.log, k);
    }
    assert ClientOK(c, s, t) && ResultsOK(c, s, t);
    var cl := s.clients[t];
    if i < cl.lastCompleted {
      assert Answers(c, s, cl.res[i], t, i, cl.tickets[i]);
      var p := s.at[cl.tickets[i]];
      assert EntryOK(c, s, p);
      LookupIsLastPut(s.log[..p], c.reqs[t][i].k);
      assert s.owner[s.log[p].ticket] == Owner(t, i);
    }
  }

  /** ring_submit's test for a full ring compares counters that are never reduced, so it does not bound
      the occupancy: whenever it holds, the loaded producer head is already stale and the
      compare-and-swap it avoids would have failed anyway. */
  lemma FullTestIsStale(c: Config, s: State, t: nat)
    requires Fits(c) && Reachable(c, s) && t < c.threads
    ensures Inv(c, s)
    ensures Shape(c, s)
    ensures s.clients[t].pc.LoadTail? ==>
      var again := ClientStep(c, s, t).clients[t].pc.LoadHead?;
      && (again <==> s.clients[t].prodHead + 1 == s.cTail)
      && (again ==> s.pHead != s.clients[t].prodHead)
  {
    ReachableInv(c, s);
    InvShape(c, s);
    assert ClientOK(c, s, t);
    hide Inv;
  }

  // --- Exactly when does the ring not overflow? ---

  /** No interleaving ever has more live tickets than slots. */
  ghost predicate NeverOverflows(c: Config) {
    forall s :: Reachable(c, s) ==> s.pHead - s.cTail <= RING_SIZE
  }

  /** Only thread `t` has moved. */
  ghost predicate OnlyMoved(s: State, s': State, t: nat) {
    && |s'.clients| == |s.clients| && s'.servers == s.servers && s'.cHead == s.cHead && s'.cTail == s.cTail
    && forall r :: 0 <= r < |s.clients| && r != t ==> s'.clients[r] == s.clients[r]
  }

  lemma PollIn(c: Config, s: State, t: nat)
    requires Shape(c, s) && t < c.threads
    ensures PollSlot(c, t, s.clients[t]) < |s.board|
  {
    assert ClientShape(c, s.clients[t]);
    PollInBoard(c, t, s.clients[t]);
  }

  predicate WritesRing(pc: ClientPc) {
    pc.Cas? || pc.Copy? || pc.Bump? || pc.Reset?
  }

  lemma RingWriteMoves(c: Config, s: State, t: nat)
    requires Shape(c, s) && t < c.threads && WritesRing(s.clients[t].pc)
    ensures var s' := ClientStep(c, s, t);
      && OnlyMoved(s, s', t) && |s'.buffer| == |s.buffer| && |s'.board| == |s.board|
      && ClientShape(c, s'.clients[t])
  {
    hide StoreWord, Item, PollSlot, AllKinds, ServerShape;
    PollIn(c, s, t);
    assert ClientShape(c, s.clients[t]);
  }

  lemma LocalMoves(c: Config, s: State, t: nat)
    requires Shape(c, s) && t < c.threads && !WritesRing(s.clients[t].pc)
    ensures var s' := ClientStep(c, s, t);
      s' == SetClient(s, t, s'.clients[t]) && ClientShape(c, s'.clients[t])
  {
    hide StoreWord, Item, PollSlot, AllKinds, ServerShape;
    PollIn(c, s, t);
    assert ClientShape(c, s.clients[t]);
  }

  lemma ClientMoves(c: Config, s: State, t: nat)
    requires Shape(c, s) && t < c.threads
    ensures var s' := ClientStep(c, s, t);
      && OnlyMoved(s, s', t) && |s'.buffer| == |s.buffer| && |s'.board| == |s.board|
      && ClientShape(c, s'.clients[t])
  {
    hide ClientStep, ServerShape, AllKinds;
    if WritesRing(s.clients[t].pc) {
      RingWriteMoves(c, s, t);
    } else {
      LocalMoves(c, s, t);
    }
  }

  lemma ClientKeepsShape(c: Config, s: State, t: nat)
    requires Shape(c, s) && t < c.threads
    ensures Shape(c, ClientStep(c, s, t)) && OnlyMoved(s, ClientStep(c, s, t), t)
  {
    hide ClientStep;
    ClientMoves(c, s, t);
    var s' := ClientStep(c, s, t);
    forall r | 0 <= r < c.threads ensures ClientShape(c, s'.clients[r]) {
      assert ClientShape(c, s.clients[r]);
    }
    forall u | 0 <= u < c.servers ensures ServerShape(s', s'.servers[u]) {
      assert ServerShape(s, s.servers[u]);
    }
  }

  /** `k` steps of thread `t` alone. */
  ghost function Alone(c: Config, s: State, t: nat, k: nat): (s': State)
    requires Shape(c, s) && t < c.threads
    ensures Shape(c, s') && OnlyMoved(s, s', t)
    ensures Reaches(c, s, seq(k, _ => ClientThread(t)), s')
    decreases k
  {
    if k == 0 then s
    else
      ClientKeepsShape(c, s, t);
      var schedule := seq(k, _ => ClientThread(t));
      assert schedule[1..] == seq(k - 1, _ => ClientThread(t));
      Alone(c, ClientStep(c, s, t), t, k - 1)
  }

  /** Thread `t` may submit its request `j`, and nobody else is in the middle of a submission. */
  ghost predicate MaySubmit(c: Config, s: State, t: nat, j: nat) {
    && Shape(c, s) && t < c.threads && s.cTail == 0 && s.pTail == s.pHead
    && s.clients[t].pc.Submit? && s.clients[t].lastSubmitted == j && s.clients[t].lastCompleted == 0
  }

  lemma UpToCas(c: Config, s: State, t: nat, j: nat)
    requires MaySubmit(c, s, t, j) && j < Outstanding(c)
    ensures var s' := Alone(c, s, t, 3);
      && s'.pHead == s.pHead && s'.pTail == s.pTail
      && s'.clients[t] == s.clients[t].(pc := Cas, bd := Item(c, t, j), prodHead := s.pHead)
  {
    var s1 := ClientStep(c, s, t);
    ClientKeepsShape(c, s, t);
    var s2 := ClientStep(c, s1, t);
    ClientKeepsShape(c, s1, t);
    var s3 := ClientStep(c, s2, t);
    ClientKeepsShape(c, s2, t);
    assert Alone(c, s2, t, 1) == Alone(c, s3, t, 0) == s3;
    assert Alone(c, s1, t, 2) == Alone(c, s2, t, 1);
  }

  lemma TakesTicket(c: Config, s: State, t: nat)
    requires Shape(c, s) && t < c.threads && s.clients[t].pc.Cas? && s.clients[t].prodHead == s.pHead
    ensures var s' := Alone(c, s, t, 1);
      && s'.pHead == s.pHead + 1 && s'.pTail == s.pTail
      && s'.clients[t] == s.clients[t].(pc := Copy(0), tickets := s.clients[t].tickets + [s.pHead])
  {
    ClientKeepsShape(c, s, t);
    assert Alone(c, s, t, 1) == Alone(c, ClientStep(c, s, t), t, 0) == ClientStep(c, s, t);
  }

  /** The five words of the copy. */
  lemma {:induction false} UpToWait(c: Config, s: State, t: nat, w: nat)
    requires Shape(c, s) && t < c.threads && w < WORDS && s.clients[t].pc == Copy(w)
    ensures var s' := Alone(c, s, t, WORDS - w);
      s'.pHead == s.pHead && s'.pTail == s.pTail && s'.clients[t] == s.clients[t].(pc := WaitTail)
    decreases WORDS - w
  {
    var s1 := ClientStep(c, s, t);
    ClientKeepsShape(c, s, t);
    assert Alone(c, s, t, WORDS - w) == Alone(c, s1, t, WORDS - w - 1);
    if w + 1 < WORDS {
      UpToWait(c, s1, t, w + 1);
    }
  }

  lemma UpToSubmit(c: Config, s: State, t: nat)
    requires Shape(c, s) && t < c.threads && s.clients[t].pc.WaitTail? && s.pTail == s.clients[t].prodHead
    ensures var s' := Alone(c, s, t, 2);
      && s'.pHead == s.pHead && s'.pTail == s.pTail + 1
      && s'.clients[t] == s.clients[t].(pc := Submit, lastSubmitted := s.clients[t].lastSubmitted + 1)
  {
    var s1 := ClientStep(c, s, t);
    ClientKeepsShape(c, s, t);
    var s2 := ClientStep(c, s1, t);
    ClientKeepsShape(c, s1, t);
    assert Alone(c, s1, t, 1) == Alone(c, s2, t, 0) == s2;
  }

  lemma {:induction false} ReachesConcat(c: Config, s: State, xs: seq<Actor>, t: State, ys: seq<Actor>, u: State)
    requires Reaches(c, s, xs, t) && Reaches(c, t, ys, u)
    ensures Reaches(c, s, xs + ys, u)
    decreases |xs|
  {
    if xs == [] {
      assert xs + ys == ys;
    } else {
      ReachesConcat(c, Step(c, s, xs[0]), xs[1..], t, ys, u);
      assert (xs + ys)[1..] == xs[1..] + ys;
    }
  }

  /** One whole submission without interference: one more published ticket. */
  lemma SubmitOne(c: Config, s: State, t: nat, j: nat) returns (schedule: seq<Actor>, s': State)
    requires MaySubmit(c, s, t, j) && j < Outstanding(c)
    ensures Reaches(c, s, schedule, s') && OnlyMoved(s, s', t)
    ensures MaySubmit(c, s', t, j + 1) && s'.pHead == s.pHead + 1
  {
    hide Shape, Reaches, Item, ClientStep, Alone;
    UpToCas(c, s, t, j);
    var s1 := Alone(c, s, t, 3);
    TakesTicket(c, s1, t);
    var s2 := Alone(c, s1, t, 1);
    UpToWait(c, s2, t, 0);
    var s3 := Alone(c, s2, t, 5);
    UpToSubmit(c, s3, t);
    s' := Alone(c, s3, t, 2);
    var a := ClientThread(t);
    ReachesConcat(c, s, seq(3, _ => a), s1, seq(1, _ => a), s2);
    ReachesConcat(c, s, seq(3, _ => a) + seq(1, _ => a), s2, seq(5, _ => a), s3);
    ReachesConcat(c, s, seq(3, _ => a) + seq(1, _ => a) + seq(5, _ => a), s3, seq(2, _ => a), s');
    schedule := seq(3, _ => a) + seq(1, _ => a) + seq(5, _ => a) + seq(2, _ => a);
  }

  /** Thread `t` fills its windows. */
  lemma {:induction false} FillThread(c: Config, s: State, t: nat, j: nat) returns (schedule: seq<Actor>, s': State)
    requires MaySubmit(c, s, t, 0) && j <= Outstanding(c)
    ensures Reaches(c, s, schedule, s') && OnlyMoved(s, s', t)
    ensures MaySubmit(c, s', t, j) && s'.pHead == s.pHead + j
    decreases j
  {
    if j == 0 {
      schedule, s' := [], s;
    } else {
      hide MaySubmit;
      var xs, s1 := FillThread(c, s, t, j - 1);
      var ys, s2 := SubmitOne(c, s1, t, j - 1);
      ReachesConcat(c, s, xs, s1, ys, s2);
      schedule, s' := xs + ys, s2;
    }
  }

  /** Threads below `k` have filled their windows, the others have not moved, nor has any server. */
  ghost predicate Filled(c: Config, s: State, k: nat) {
    && Shape(c, s) && k <= c.threads && s.cTail == 0 && s.pTail == s.pHead == k * Outstanding(c)
    && forall r :: k <= r < c.threads ==>
         s.clients[r].pc.Top? && s.clients[r].lastSubmitted == 0 && s.clients[r].lastCompleted == 0
  }

  lemma StartThread(c: Config, s: State, t: nat) returns (s': State)
    requires Filled(c, s, t) && t < c.threads && c.n > 0
    ensures Reaches(c, s, [ClientThread(t)], s') && MaySubmit(c, s', t, 0)
    ensures OnlyMoved(s, s', t) && s'.pHead == s.pHead
  {
    s' := ClientStep(c, s, t);
    ClientKeepsShape(c, s, t);
    assert Reaches(c, s', [], s');
  }

  lemma FillNext(c: Config, s: State, t: nat) returns (schedule: seq<Actor>, s': State)
    requires Filled(c, s, t) && t < c.threads && c.n > 0
    ensures Reaches(c, s, schedule, s') && Filled(c, s', t + 1)
  {
    hide ClientShape, ServerShape, AllKinds, Reaches, ClientStep;
    var s1 := StartThread(c, s, t);
    var ys, s2 := FillThread(c, s1, t, Outstanding(c));
    ReachesConcat(c, s, [ClientThread(t)], s1, ys, s2);
    schedule, s' := [ClientThread(t)] + ys, s2;
    assert (t + 1) * Outstanding(c) == t * Outstanding(c) + Outstanding(c);
  }

  lemma {:induction false} FillAll(c: Config, k: nat) returns (schedule: seq<Actor>, s: State)
    requires ValidConfig(c) && k <= c.threads && c.n > 0
    ensures Reaches(c, Init(c), schedule, s) && Filled(c, s, k)
    decreases k
  {
    if k == 0 {
      schedule, s := [], Init(c);
    } else {
      var xs, s0 := FillAll(c, k - 1);
      var ys, s1 := FillNext(c, s0, k - 1);
      ReachesConcat(c, Init(c), xs, s0, ys, s1);
      schedule, s := xs + ys, s1;
    }
  }

  /** Since submission never waits for room, the ring is safe exactly when all the windows that can be in
      use at once fit into it. */
  lemma NeverOverflowsIff(c: Config)
    requires ValidConfig(c)
    ensures NeverOverflows(c) <==> c.threads * Outstanding(c) <= RING_SIZE
  {
    if Fits(c) {
      forall s | Reachable(c, s) ensures s.pHead - s.cTail <= RING_SIZE {
        ReachableInv(c, s);
        Occupancy(c, s);
      }
    } else {
      var schedule, s := FillAll(c, c.threads);
      assert Reachable(c, s);
    }
  }
}
