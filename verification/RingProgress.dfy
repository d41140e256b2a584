/** Nothing ever gets stuck: from every reachable state of clients, ring and servers some schedule lets every client
    finish, with all its results. */
module RingProgress {
  import opened Sequences
  import opened RingModel
  import opened RingSafety
  import opened RingSteps
  import opened RingTheorems

  // --- What only grows ---

  ghost predicate Further(s: State, s': State) {
    && s.pHead <= s'.pHead && s.pTail <= s'.pTail && s.cHead <= s'.cHead && s.cTail <= s'.cTail
    && s.done <= s'.done && |s'.clients| == |s.clients|
    && forall t :: 0 <= t < |s.clients| ==>
         && s.clients[t].lastCompleted <= s'.clients[t].lastCompleted
         && (s.clients[t].pc.Finished? ==> s'.clients[t].pc.Finished?)
  }

  lemma {:induction false} OwnFurther(c: Config, s: State, t: nat)
    requires Shape(c, s) && t < c.threads
    ensures var s' := ClientStep(c, s, t);
      && s.pHead <= s'.pHead && s.pTail <= s'.pTail && s'.done == s.done
      && |s'.clients| == |s.clients| && s.clients[t].lastCompleted <= s'.clients[t].lastCompleted
      && (s.clients[t].pc.Finished? ==> s'.clients[t].pc.Finished?)
  {
    hide StoreWord, Item, AllKinds, ServerShape, PollSlot;
    PollIn(c, s, t);
  }

  lemma {:induction false} ClientFurther(c: Config, s: State, t: nat)
    requires Shape(c, s) && t < c.threads
    ensures Further(s, ClientStep(c, s, t))
  {
    hide ClientStep, Shape;
    OwnFurther(c, s, t);
    ClientMoves(c, s, t);
  }

  lemma {:induction false} ServerFurther(c: Config, s: State, u: nat)
    requires Shape(c, s) && u < c.servers
    ensures Further(s, ServerStep(c, s, u))
  {
    hide StoreWord, Item, AllKinds, ClientShape, Lookup;
    assert ServerShape(s, s.servers[u]);
  }

  lemma {:induction false} ReachesFurther(c: Config, s: State, schedule: seq<Actor>, s': State)
    requires Reaches(c, s, schedule, s')
    ensures Further(s, s')
    decreases |schedule|
  {
    hide ClientStep, ServerStep, Shape;
    if schedule != [] {
      var a := schedule[0];
      match a
      case ClientThread(t) =>
        ClientFurther(c, s, t);
        ReachesFurther(c, Step(c, s, a), schedule[1..], s');
      case ServerThread(u) =>
        ServerFurther(c, s, u);
        ReachesFurther(c, Step(c, s, a), schedule[1..], s');
    }
  }

  // --- How much is left to do ---

  /** Requests not yet acknowledged, and clients not yet finished. */
  function ClientsLeft(c: Config, cls: seq<Client>): int {
    if cls == [] then 0
    else
      var cl := cls[|cls| - 1];
      ClientsLeft(c, cls[..|cls| - 1]) + c.n - cl.lastCompleted + (if cl.pc.Finished? then 0 else 1)
  }

  function WorkLeft(c: Config, s: State): int {
    5 * (c.threads * c.n) - s.pHead - s.pTail - s.cHead - s.cTail - |s.done| + ClientsLeft(c, s.clients)
  }

  lemma {:induction false} ClientsLeftPositive(c: Config, cls: seq<Client>)
    requires forall t :: 0 <= t < |cls| ==> cls[t].lastCompleted <= c.n
    ensures ClientsLeft(c, cls) >= 0
  {
    if cls != [] {
      ClientsLeftPositive(c, cls[..|cls| - 1]);
    }
  }

  /** A different number below threads * n for each ticket. */
  function RequestNumber(c: Config, o: Owner): nat {
    o.thread * c.n + o.index
  }

  lemma {:induction false} RequestNumbers(c: Config, o: Owner, q: Owner)
    requires o.thread < c.threads && o.index < c.n && q.index < c.n
    ensures RequestNumber(c, o) < c.threads * c.n
    ensures RequestNumber(c, o) == RequestNumber(c, q) ==> o == q
  {
    MulMono(o.thread + 1, c.threads, c.n);
    assert (o.thread + 1) * c.n == o.thread * c.n + c.n;
    if o.thread < q.thread {
      MulMono(o.thread + 1, q.thread, c.n);
    } else if q.thread < o.thread {
      MulMono(q.thread + 1, o.thread, c.n);
      assert (q.thread + 1) * c.n == q.thread * c.n + c.n;
    }
  }

  lemma {:induction false} AtMostAllTickets(c: Config, s: State)
    requires Inv(c, s)
    ensures s.pHead <= c.threads * c.n
  {
    hide ClientOK, ResultsOK, ServerOK, BufferOK, NothingLost, LogOK, BoardOK;
    var xs := seq(s.pHead, x requires 0 <= x < s.pHead => RequestNumber(c, s.owner[x]));
    forall x | 0 <= x < s.pHead
      ensures xs[x] < c.threads * c.n
    {
      assert OwnerOK(c, s, x);
      RequestNumbers(c, s.owner[x], s.owner[x]);
    }
    forall x, y | 0 <= x < y < s.pHead
      ensures xs[x] != xs[y]
    {
      assert OwnerOK(c, s, x) && OwnerOK(c, s, y);
      RequestNumbers(c, s.owner[x], s.owner[y]);
    }
    Pigeonhole(xs, c.threads * c.n);
  }

  lemma {:induction false} BelowCount(xs: set<nat>, n: nat)
    requires forall x :: x in xs ==> x < n
    ensures |xs| <= n
    decreases n
  {
    if n > 0 {
      BelowCount(xs - {n - 1}, n - 1);
      assert xs <= (xs - {n - 1}) + {n - 1};
      SubsetSize(xs, (xs - {n - 1}) + {n - 1});
    } else {
      assert xs == {};
    }
  }

  lemma {:induction false} WorkLeftPositive(c: Config, s: State)
    requires Inv(c, s)
    ensures WorkLeft(c, s) >= 0
  {
    AtMostAllTickets(c, s);
    forall t | 0 <= t < c.threads
      ensures s.clients[t].lastCompleted <= c.n
    {
      assert ClientOK(c, s, t);
    }
    ClientsLeftPositive(c, s.clients);
    BelowCount(s.done, s.cTail);
  }

  lemma {:induction false} ClientsLeftFalls(c: Config, cls: seq<Client>, cls': seq<Client>, t: nat)
    requires |cls'| == |cls| && forall r :: 0 <= r < |cls| ==>
      cls[r].lastCompleted <= cls'[r].lastCompleted && (cls[r].pc.Finished? ==> cls'[r].pc.Finished?)
    ensures ClientsLeft(c, cls') <= ClientsLeft(c, cls)
    ensures t < |cls|
      && (cls[t].lastCompleted < cls'[t].lastCompleted || (cls'[t].pc.Finished? && !cls[t].pc.Finished?))
      ==> ClientsLeft(c, cls') < ClientsLeft(c, cls)
  {
    if cls != [] {
      ClientsLeftFalls(c, cls[..|cls| - 1], cls'[..|cls| - 1], t);
    }
  }

  /** Something has been brought forward. */
  ghost predicate Progress(s: State, s': State) {
    && |s'.clients| == |s.clients|
    && (s.pHead < s'.pHead || s.pTail < s'.pTail || s.cHead < s'.cHead || s.cTail < s'.cTail || s.done < s'.done
        || exists t :: 0 <= t < |s.clients| && ClientProgress(s.clients[t], s'.clients[t]))
  }

  predicate ClientProgress(cl: Client, cl': Client) {
    cl.lastCompleted < cl'.lastCompleted || (cl'.pc.Finished? && !cl.pc.Finished?)
  }

  lemma {:induction false} ProgressPays(c: Config, s: State, s': State)
    requires Further(s, s') && Progress(s, s')
    ensures WorkLeft(c, s') < WorkLeft(c, s)
  {
    SubsetSize(s.done, s'.done);
    if s.done < s'.done {
      var x :| x in s'.done && x !in s.done;
      SubsetSize(s.done + {x}, s'.done);
    }
    var t: nat := 0;
    if r :| 0 <= r < |s.clients| && ClientProgress(s.clients[r], s'.clients[r]) {
      t := r;
    }
    ClientsLeftFalls(c, s.clients, s'.clients, t);
  }

  // --- Threads that run alone ---

  /** Every step of the schedule is one of `a`. */
  predicate Only(xs: seq<Actor>, a: Actor) {
    forall i :: 0 <= i < |xs| ==> xs[i] == a
  }

  lemma {:induction false} OneMore(c: Config, s: State, a: Actor, xs: seq<Actor>, s': State)
    requires Inv(c, s) && Fits(c) && ValidActor(c, a)
    requires Shape(c, s) && Reaches(c, Step(c, s, a), xs, s')
    ensures Reaches(c, s, [a] + xs, s') && (Only(xs, a) ==> Only([a] + xs, a))
  {
    assert ([a] + xs)[1..] == xs;
  }

  lemma NoSteps(c: Config, s: State)
    ensures Reaches(c, s, [], s)
  {
  }

  function PublishSteps(pc: ClientPc): int {
    match pc
    case Copy(w) => 2 + WORDS - w
    case WaitTail => 2
    case _ => 1
  }

  /** The owner of the next ticket to be published publishes it. */
  lemma {:induction false} Publish(c: Config, s: State, t: nat) returns (xs: seq<Actor>, s': State)
    requires Inv(c, s) && Fits(c) && t < c.threads && Publishing(s.clients[t].pc) && s.clients[t].prodHead == s.pTail
    ensures Reaches(c, s, xs, s') && Inv(c, s') && s'.pTail > s.pTail
    decreases PublishSteps(s.clients[t].pc)
  {
    var a := ClientThread(t);
    StepInv(c, s, a);
    assert ClientShape(c, s.clients[t]);
    hide Inv, ClientShape, ServerShape, AllKinds, Reaches;
    var s1 := Step(c, s, a);
    if s.clients[t].pc.Bump? {
      xs, s' := [], s1;
      NoSteps(c, s1);
    } else {
      xs, s' := Publish(c, s1, t);
    }
    OneMore(c, s, a, xs, s');
    xs := [a] + xs;
  }

  function ReleaseSteps(pc: ServerPc): int {
    match pc
    case GetCopy(w) => 2 + WORDS - w
    case GetWait => 2
    case _ => 1
  }

  /** The taker of the next ticket to be released copies the descriptor and releases it. */
  lemma {:induction false} Release(c: Config, s: State, u: nat) returns (xs: seq<Actor>, s': State)
    requires Inv(c, s) && Fits(c) && u < c.servers && Taking(s.servers[u].pc) && s.servers[u].consHead == s.cTail
    ensures Reaches(c, s, xs, s') && Inv(c, s') && Only(xs, ServerThread(u)) && s'.cTail == s.cTail + 1
    ensures s'.servers[u].pc.Exec? && s'.servers[u].consHead == s.cTail
    decreases ReleaseSteps(s.servers[u].pc)
  {
    var a := ServerThread(u);
    StepInv(c, s, a);
    assert ServerShape(s, s.servers[u]);
    hide Inv, ClientShape, ServerShape, AllKinds, Reaches;
    var s1 := Step(c, s, a);
    if s.servers[u].pc.GetBump? {
      xs, s' := [], s1;
      NoSteps(c, s1);
    } else {
      xs, s' := Release(c, s1, u);
    }
    OneMore(c, s, a, xs, s');
    xs := [a] + xs;
  }

  function ServeSteps(pc: ServerPc): int {
    match pc
    case Exec => 4
    case WriteK => 3
    case WriteV => 2
    case _ => 1
  }

  lemma HoldsRequest(c: Config, s: State, u: nat)
    requires Inv(c, s) && u < c.servers && Serving(s.servers[u].pc)
    ensures s.servers[u].buf[REQ_TYPE] == PUT || s.servers[u].buf[REQ_TYPE] == GET
    ensures s.servers[u].consHead !in s.done
  {
    assert ServerOK(c, s, u);
    var o := s.owner[s.servers[u].consHead];
    assert AllKinds(c.reqs[o.thread]);
  }

  /** The server works the request off and sets its ready flag. */
  lemma {:induction false} Serve(c: Config, s: State, u: nat) returns (xs: seq<Actor>, s': State)
    requires Inv(c, s) && Fits(c) && u < c.servers && Serving(s.servers[u].pc)
    ensures Reaches(c, s, xs, s') && Inv(c, s') && Only(xs, ServerThread(u))
    ensures s'.done == s.done + {s.servers[u].consHead} && s.servers[u].consHead !in s.done
    decreases ServeSteps(s.servers[u].pc)
  {
    var a := ServerThread(u);
    StepInv(c, s, a);
    HoldsRequest(c, s, u);
    assert ServerShape(s, s.servers[u]);
    hide Inv, ClientShape, ServerShape, AllKinds, Reaches, Lookup, SlotAt;
    var s1 := Step(c, s, a);
    if s.servers[u].pc.SetReady? {
      xs, s' := [], s1;
      NoSteps(c, s1);
    } else {
      xs, s' := Serve(c, s1, u);
    }
    OneMore(c, s, a, xs, s');
    xs := [a] + xs;
  }

  predicate Getting(pc: ServerPc) {
    pc.GetHead? || pc.GetTail? || pc.GetCas?
  }

  /** A consumer head that is not the present one costs another round. */
  function GetSteps(s: State, sv: Server): int {
    var stale := if sv.consHead == s.cHead then 0 else 3;
    match sv.pc
    case GetHead => 3
    case GetTail => 2 + stale
    case _ => 1 + stale
  }

  /** While a published ticket is free a server that runs alone takes the first one. */
  lemma {:induction false} Take(c: Config, s: State, u: nat) returns (xs: seq<Actor>, s': State)
    requires Inv(c, s) && Fits(c) && u < c.servers && Getting(s.servers[u].pc) && s.cHead < s.pTail
    ensures Reaches(c, s, xs, s') && Inv(c, s') && Only(xs, ServerThread(u))
    ensures s'.cHead == s.cHead + 1 && s'.cTail == s.cTail
    ensures s'.servers[u].pc == GetCopy(0) && s'.servers[u].consHead == s.cHead
    decreases GetSteps(s, s.servers[u])
  {
    var a := ServerThread(u);
    StepInv(c, s, a);
    hide Inv, ClientShape, ServerShape, AllKinds, Reaches;
    var s1 := Step(c, s, a);
    if s.servers[u].pc.GetCas? && s.cHead == s.servers[u].consHead {
      xs, s' := [], s1;
      NoSteps(c, s1);
    } else {
      xs, s' := Take(c, s1, u);
    }
    OneMore(c, s, a, xs, s');
    xs := [a] + xs;
  }

  /** No published ticket is missed: when everything taken has been released and something is published, a server that
      is looking for work and runs alone gets to the next ticket, with the descriptor submitted under it. */
  lemma {:induction false} TakesNext(c: Config, s: State, u: nat) returns (xs: seq<Actor>, s': State)
    requires Fits(c) && Reachable(c, s) && u < c.servers
    requires s.cTail == s.cHead < s.pTail && |s.servers| == c.servers && Getting(s.servers[u].pc)
    ensures Reaches(c, s, xs, s') && Only(xs, ServerThread(u)) && Inv(c, s')
    ensures s'.servers[u].pc.Exec? && s'.servers[u].consHead == s.cHead && HoldsItem(c, s', u)
  {
    ReachableInv(c, s);
    var ys, s1 := Take(c, s, u);
    var zs, s2 := Release(c, s1, u);
    assert ServerOK(c, s2, u);
    hide Inv;
    ReachesConcat(c, s, ys, s1, zs, s2);
    xs, s' := ys + zs, s2;
  }

  // --- A client in a ring that has been worked off ---

  /** All tickets have been published, taken, released and done. */
  ghost predicate Drained(s: State) {
    && s.cTail == s.cHead == s.pTail == s.pHead
    && forall x: nat :: x < s.cTail ==> x in s.done
  }

  /** The oldest request has been submitted and not been acknowledged. */
  predicate Waiting(cl: Client) {
    cl.lastCompleted < cl.lastSubmitted
  }

  /** Steps until the client takes a ticket, acknowledges a request or finishes, when the ring is drained. */
  function ClientSteps(c: Config, s: State, cl: Client): int {
    var stale := if cl.prodHead == s.pHead then 0 else 3;
    match cl.pc
    case Cas => 1 + stale
    case LoadTail => 2 + stale
    case LoadHead => 3
    case Ack => 1
    case CopyRes(w) => 1 + WORDS - w
    case Reset => 7
    case Check => if Waiting(cl) then 8 else 11
    case Submit =>
      if cl.lastSubmitted - cl.lastCompleted < c.win && cl.lastSubmitted < c.n then 4
      else if Waiting(cl) then 9 else 12
    case _ => 10
  }

  /** What the client polls: the flag of its oldest request. */
  lemma {:induction false} Polls(c: Config, s: State, t: nat)
    requires Inv(c, s) && Drained(s) && t < c.threads
    ensures var cl := s.clients[t];
      && !Publishing(cl.pc) && cl.lastSubmitted - cl.lastCompleted <= c.win
      && cl.lastCompleted <= cl.lastSubmitted <= c.n
      && PollSlot(c, t, cl) < |s.board|
      && (cl.pc.Check? ==> (s.board[PollSlot(c, t, cl)][READY] == 1 <==> Waiting(cl)))
  {
    var cl := s.clients[t];
    assert ClientOK(c, s, t);
    PollInBoard(c, t, cl);
    assert WindowOK(c, s, t, cl.lastCompleted);
    if Waiting(cl) {
      assert cl.tickets[cl.lastCompleted] < |s.owner|;
    }
  }

  lemma {:induction false} DrainedStep(c: Config, s: State, t: nat)
    requires Inv(c, s) && Shape(c, s) && Drained(s) && t < c.threads && !s.clients[t].pc.Finished?
    ensures var s1 := ClientStep(c, s, t);
      Progress(s, s1) || (Drained(s1) && |s1.clients| == |s.clients| && !s1.clients[t].pc.Finished?
                          && 0 <= ClientSteps(c, s1, s1.clients[t]) < ClientSteps(c, s, s.clients[t]))
  {
    Polls(c, s, t);
    assert ClientShape(c, s.clients[t]);
    hide Inv, ClientShape, ServerShape, AllKinds, StoreWord, Item, PollSlot;
    var s1 := ClientStep(c, s, t);
    if s.clients[t].pc.Ack? || (s.clients[t].pc.Top? && s1.clients[t].pc.Finished?) {
      assert ClientProgress(s.clients[t], s1.clients[t]);
    }
  }

  lemma {:induction false} ClientAlone(c: Config, s: State, t: nat) returns (xs: seq<Actor>, s': State)
    requires Inv(c, s) && Fits(c) && Drained(s) && t < c.threads && t < |s.clients| && !s.clients[t].pc.Finished?
    ensures Reaches(c, s, xs, s') && Inv(c, s') && Progress(s, s')
    decreases ClientSteps(c, s, s.clients[t])
  {
    var a := ClientThread(t);
    StepInv(c, s, a);
    hide Inv, Shape, ClientShape, ServerShape, AllKinds, Reaches, ClientStep, ClientSteps, Progress, Drained, Further;
    DrainedStep(c, s, t);
    ClientFurther(c, s, t);
    var s1 := Step(c, s, a);
    if Progress(s, s1) {
      xs, s' := [], s1;
      NoSteps(c, s1);
    } else {
      xs, s' := ClientAlone(c, s1, t);
      ReachesFurther(c, s1, xs, s');
      ProgressAfter(s, s1, s');
    }
    OneMore(c, s, a, xs, s');
    xs := [a] + xs;
  }

  lemma {:induction false} ProgressAfter(s: State, s1: State, s': State)
    requires Further(s, s1) && Progress(s1, s') && Further(s1, s')
    ensures Progress(s, s')
  {
    if t :| 0 <= t < |s1.clients| && ClientProgress(s1.clients[t], s'.clients[t]) {
      assert ClientProgress(s.clients[t], s'.clients[t]);
    }
  }

  // --- Everybody finishes ---

  ghost predicate AllFinished(c: Config, s: State) {
    |s.clients| == c.threads && forall t :: 0 <= t < c.threads ==> s.clients[t].pc.Finished?
  }

  /** Who is idle in a ring in which nothing is being taken or served. */
  lemma {:induction false} IdleServer(c: Config, s: State, u: nat)
    requires Inv(c, s) && u < c.servers && s.cTail == s.cHead && forall x: nat :: x < s.cTail ==> x in s.done
    ensures Getting(s.servers[u].pc)
  {
    assert ServerOK(c, s, u);
  }

  /** Somebody can always bring something forward: whoever is in the way of the oldest ticket. */
  lemma {:induction false} Advance(c: Config, s: State) returns (xs: seq<Actor>, s': State)
    requires Inv(c, s) && Fits(c) && c.servers > 0 && !AllFinished(c, s)
    ensures Reaches(c, s, xs, s') && Inv(c, s') && Progress(s, s')
  {
    hide Shape, ClientOK, ServerOK, ResultsOK, BufferOK, LogOK, BoardOK, OwnersOK, Reaches;
    if s.pTail < s.pHead {
      assert BeingPublished(s, s.pTail);
      PublisherExists(c, s, s.pTail);
      xs, s' := Publish(c, s, s.owner[s.pTail].thread);
    } else if s.cTail < s.cHead {
      assert BeingTaken(s, s.cTail);
      xs, s' := Release(c, s, s.taker[s.cTail]);
    } else if x: nat :| x < s.cTail && x !in s.done {
      assert BeingServed(s, x);
      xs, s' := Serve(c, s, s.taker[x]);
    } else if s.cHead < s.pTail {
      IdleServer(c, s, 0);
      xs, s' := Take(c, s, 0);
    } else {
      var t :| 0 <= t < c.threads && !s.clients[t].pc.Finished?;
      xs, s' := ClientAlone(c, s, t);
      return;
    }
    ReachesFurther(c, s, xs, s');
  }

  lemma PublisherExists(c: Config, s: State, x: nat)
    requires Inv(c, s) && x < |s.owner|
    ensures s.owner[x].thread < c.threads
  {
    assert OwnerOK(c, s, x);
  }

  /** From any state with the invariant the clients can be brought to their ends. */
  lemma {:induction false} RunToEnd(c: Config, s: State) returns (xs: seq<Actor>, s': State)
    requires Inv(c, s) && Fits(c) && c.servers > 0
    ensures Reaches(c, s, xs, s') && Inv(c, s') && AllFinished(c, s')
    decreases WorkLeft(c, s)
  {
    WorkLeftPositive(c, s);
    hide Inv, AllFinished, Reaches, WorkLeft, Progress, Further;
    if AllFinished(c, s) {
      xs, s' := [], s;
      NoSteps(c, s);
    } else {
      var ys, s1 := Advance(c, s);
      ReachesFurther(c, s, ys, s1);
      ProgressPays(c, s, s1);
      WorkLeftPositive(c, s1);
      var zs, s2 := RunToEnd(c, s1);
      ReachesConcat(c, s, ys, s1, zs, s2);
      xs, s' := ys + zs, s2;
    }
  }

  /** Request `i` of client `t` is answered in its place. */
  ghost predicate HasAnswer(c: Config, s: State, t: nat, i: nat) {
    && ValidConfig(c) && t < c.threads && i < c.n && t < |s.clients| && i < |s.clients[t].res|
    && Answered(c, s, s.clients[t].res[i], t, i)
  }

  /** From every reachable state, the first one included, some schedule ends with every client finished and every
      request answered. */
  lemma {:induction false} CanFinish(c: Config, s: State) returns (xs: seq<Actor>, s': State)
    requires Fits(c) && Reachable(c, s) && c.servers > 0
    ensures Reaches(c, s, xs, s') && Reachable(c, s') && Inv(c, s') && AllFinished(c, s')
    ensures forall t, i :: 0 <= t < c.threads && 0 <= i < c.n ==> HasAnswer(c, s', t, i)
  {
    ReachableInv(c, s);
    xs, s' := RunToEnd(c, s);
    hide Inv, Reaches, Answered;
    var first :| Reaches(c, Init(c), first, s);
    ReachesConcat(c, Init(c), first, s, xs, s');
    assert Reachable(c, s');
    forall t, i | 0 <= t < c.threads && 0 <= i < c.n
      ensures HasAnswer(c, s', t, i)
    {
      ResultsAnswer(c, s', t, i);
    }
  }
}
