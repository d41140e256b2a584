/** The invariant of the ring, the windows and the status board, and what follows from it. */
module RingSafety {
  import opened Sequences
  import opened RingModel

  predicate Submitting(pc: ClientPc) {
    pc.LoadHead? || pc.LoadTail? || pc.Cas? || Publishing(pc)
  }

  /** Owns a ticket that is not published yet. */
  predicate Publishing(pc: ClientPc) {
    pc.Copy? || pc.WaitTail? || pc.Bump?
  }

  /** Owns a ticket that is not yet released to the producers. */
  predicate Taking(pc: ServerPc) {
    pc.GetCopy? || pc.GetWait? || pc.GetBump?
  }

  predicate Serving(pc: ServerPc) {
    pc.Exec? || pc.WriteK? || pc.WriteV? || pc.SetReady?
  }

  /** Requests of a client that have a ticket. */
  function Started(cl: Client): nat {
    cl.lastSubmitted + if Publishing(cl.pc) then 1 else 0
  }

  predicate SamePrefix(a: Desc, b: Desc, w: nat)
    requires w <= WORDS
  {
    forall i :: 0 <= i < w ==> a[i] == b[i]
  }

  /** How many words of its item a publishing client has copied. */
  function Copied(pc: ClientPc): (w: nat)
    ensures pc.Copy? || w == WORDS
  {
    if pc.Copy? then pc.w else WORDS
  }

  function Fetched(pc: ServerPc): nat {
    if pc.GetCopy? then pc.w else WORDS
  }

  ghost predicate Counters(s: State) {
    && s.cTail <= s.cHead <= s.pTail <= s.pHead
    && |s.owner| == s.pHead && |s.taker| == s.cHead
  }

  /** The request a ticket stands for exists, and its client knows the ticket. */
  ghost predicate OwnerOK(c: Config, s: State, x: nat)
    requires x < |s.owner|
  {
    var o := s.owner[x];
    && o.thread < c.threads && o.thread < |s.clients| && o.index < c.n
    && o.index < |s.clients[o.thread].tickets|
    && s.clients[o.thread].tickets[o.index] == x
  }

  ghost predicate OwnersOK(c: Config, s: State) {
    forall x :: 0 <= x < |s.owner| ==> OwnerOK(c, s, x)
  }

  /** The item of a ticket. */
  function TicketItem(c: Config, s: State, x: nat): Desc
    requires ValidConfig(c) && x < |s.owner| && s.owner[x].thread < c.threads && s.owner[x].index < c.n
  {
    Item(c, s.owner[x].thread, s.owner[x].index)
  }

  ghost predicate ClientOK(c: Config, s: State, t: nat)
    requires ValidConfig(c) && t < c.threads && t < |s.clients| && |s.buffer| == RING_SIZE
  {
    var cl := s.clients[t];
    && ClientShape(c, cl)
    && cl.lastCompleted <= cl.lastSubmitted <= c.n
    && Started(cl) <= cl.lastCompleted + c.win
    && cl.nxtComp == cl.lastCompleted % c.win
    && |cl.tickets| == Started(cl)
    && (forall i :: 0 <= i < |cl.tickets| ==> cl.tickets[i] < |s.owner| && s.owner[cl.tickets[i]] == Owner(t, i))
    && (Submitting(cl.pc) ==>
          && cl.lastSubmitted < c.n && cl.lastSubmitted < cl.lastCompleted + c.win
          && cl.bd == Item(c, t, cl.lastSubmitted))
    && (cl.pc.LoadTail? || cl.pc.Cas? ==> cl.prodHead <= s.pHead)
    && (Publishing(cl.pc) ==>
          && cl.tickets[cl.lastSubmitted] == cl.prodHead
          && s.pTail <= cl.prodHead < s.pHead
          && SamePrefix(s.buffer[cl.prodHead % RING_SIZE], cl.bd, Copied(cl.pc)))
    && (cl.pc.Bump? ==> s.pTail == cl.prodHead)
    && (cl.pc.Reset? || cl.pc.CopyRes? || cl.pc.Ack? ==>
          cl.lastCompleted < |cl.tickets| && cl.tickets[cl.lastCompleted] in s.done)
    && (cl.pc.Finished? ==> cl.lastCompleted == c.n)
    && (forall i :: 0 <= i < cl.lastCompleted ==> cl.tickets[i] in s.done)
  }

  ghost predicate ServerOK(c: Config, s: State, u: nat)
    requires ValidConfig(c) && u < |s.servers|
  {
    var sv := s.servers[u];
    && ServerShape(s, sv)
    && (sv.pc.GetTail? ==> sv.consHead <= s.cHead)
    && (sv.pc.GetCas? ==> sv.consHead < sv.prodTail <= s.pTail)
    && (Taking(sv.pc) || Serving(sv.pc) ==>
          && sv.consHead < s.cHead && sv.consHead < |s.taker| && s.taker[sv.consHead] == u
          && sv.consHead < |s.owner| && OwnerOK(c, s, sv.consHead))
    && (Taking(sv.pc) ==> s.cTail <= sv.consHead && SamePrefix(sv.buf, TicketItem(c, s, sv.consHead), Fetched(sv.pc)))
    && (sv.pc.GetBump? ==> s.cTail == sv.consHead)
    && (Serving(sv.pc) ==>
          && sv.consHead < s.cTail && sv.consHead !in s.done
          && sv.buf == TicketItem(c, s, sv.consHead)
          && (sv.pc.Exec? <==> sv.consHead !in s.at))
    && (sv.pc.WriteK? || sv.pc.WriteV? ==>
          (sv.buf[REQ_TYPE] == GET ==> s.at[sv.consHead] < |s.log| && sv.ret == s.log[s.at[sv.consHead]].answer))
    && (sv.pc.WriteV? ==> sv.buf[REQ_TYPE] == GET)
    && (sv.pc.WriteV? || sv.pc.SetReady? ==> s.board[SlotAt(sv.buf[RES_OFF])][K] == sv.buf[K])
    && (sv.pc.SetReady? && sv.buf[REQ_TYPE] == GET ==>
          s.at[sv.consHead] < |s.log| && s.board[SlotAt(sv.buf[RES_OFF])][V] == s.log[s.at[sv.consHead]].answer)
  }

  /** Published tickets that are still in the ring carry their items. */
  ghost predicate BufferOK(c: Config, s: State)
    requires ValidConfig(c) && |s.buffer| == RING_SIZE
  {
    forall x :: s.cTail <= x < s.pTail ==>
      x < |s.owner| && OwnerOK(c, s, x) && s.buffer[x % RING_SIZE] == TicketItem(c, s, x)
  }

  /** The owner of ticket `x` is busy publishing it. */
  predicate BeingPublished(s: State, x: nat) {
    && x < |s.owner| && s.owner[x].thread < |s.clients|
    && Publishing(s.clients[s.owner[x].thread].pc) && s.clients[s.owner[x].thread].prodHead == x
  }

  /** The taker of ticket `x` is still reading its ring slot. */
  predicate BeingTaken(s: State, x: nat) {
    && x < |s.taker| && s.taker[x] < |s.servers|
    && Taking(s.servers[s.taker[x]].pc) && s.servers[s.taker[x]].consHead == x
  }

  /** The taker of ticket `x` is working on the request. */
  predicate BeingServed(s: State, x: nat) {
    && x < |s.taker| && s.taker[x] < |s.servers|
    && Serving(s.servers[s.taker[x]].pc) && s.servers[s.taker[x]].consHead == x
  }

  /** Nothing is lost: a ticket that is not published is being published, one that is taken but not
      released is being copied out, one that is released but not done is being served. */
  ghost predicate NothingLost(s: State) {
    && (forall x: nat :: s.pTail <= x < s.pHead ==> BeingPublished(s, x))
    && (forall x: nat :: s.cTail <= x < s.cHead ==> BeingTaken(s, x))
    && (forall x: nat :: x < s.cTail && x !in s.done ==> BeingServed(s, x))
  }

  /** The served requests: each ticket at most once, and every answer is what the store held then. */
  ghost predicate LogOK(c: Config, s: State)
    requires ValidConfig(c)
  {
    && (forall p :: 0 <= p < |s.log| ==> EntryOK(c, s, p))
    && (forall x :: x in s.at ==> s.at[x] < |s.log| && s.log[s.at[x]].ticket == x)
    && s.kv == Replay(s.log)
    && (forall x :: x in s.done ==> x < s.cTail && x in s.at)
  }

  ghost predicate EntryOK(c: Config, s: State, p: nat)
    requires ValidConfig(c) && p < |s.log|
  {
    var e := s.log[p];
    && e.ticket < s.cTail && e.ticket in s.at && s.at[e.ticket] == p
    && e.ticket < |s.owner| && s.owner[e.ticket].thread < c.threads && s.owner[e.ticket].index < c.n
    && Request(e.t, e.k, e.v) == c.reqs[s.owner[e.ticket].thread][s.owner[e.ticket].index]
    && (e.t == GET ==> e.answer == Lookup(Replay(s.log[..p]), e.k))
  }

  /** A descriptor holds the answer to the request behind ticket `x`. */
  ghost predicate Answers(c: Config, s: State, d: Desc, t: nat, i: nat, x: nat)
    requires ValidConfig(c) && t < c.threads && i < c.n
  {
    && d[K] == c.reqs[t][i].k
    && x in s.at && s.at[x] < |s.log|
    && (c.reqs[t][i].t == GET ==> d[V] == s.log[s.at[x]].answer)
  }

  lemma SlotInBoard(c: Config, t: nat, i: nat)
    requires c.win > 0 && t < c.threads
    ensures SlotOf(c, t, i) < c.threads * c.win
  {
    MulMono(t + 1, c.threads, c.win);
    assert (t + 1) * c.win == t * c.win + c.win;
  }

  function Window(c: Config, s: State, t: nat, i: nat): Desc
    requires c.win > 0 && t < c.threads && |s.board| == c.threads * c.win
  {
    SlotInBoard(c, t, i);
    s.board[SlotOf(c, t, i)]
  }

  /** Window `i` of thread `t`: ready exactly when its request is done and not yet acknowledged. */
  ghost predicate WindowOK(c: Config, s: State, t: nat, i: nat)
    requires ValidConfig(c) && t < c.threads && t < |s.clients| && |s.board| == c.threads * c.win
  {
    var cl := s.clients[t];
    var d := Window(c, s, t, i);
    if i < |cl.tickets| && cl.tickets[i] in s.done then
      && i < c.n && Answers(c, s, d, t, i, cl.tickets[i])
      && d[READY] == if i == cl.lastCompleted && (cl.pc.CopyRes? || cl.pc.Ack?) then 0 else 1
    else d[READY] == 0
  }

  ghost predicate BoardOK(c: Config, s: State)
    requires ValidConfig(c) && |s.clients| == c.threads && |s.board| == c.threads * c.win
  {
    forall t, i :: 0 <= t < c.threads && s.clients[t].lastCompleted <= i < s.clients[t].lastCompleted + c.win ==>
      WindowOK(c, s, t, i)
  }

  /** Results of acknowledged requests, and the words of the one being copied. */
  ghost predicate ResultsOK(c: Config, s: State, t: nat)
    requires ValidConfig(c) && t < c.threads && t < |s.clients| && |s.board| == c.threads * c.win
  {
    var cl := s.clients[t];
    && cl.lastCompleted <= |cl.tickets| && |cl.res| == c.n && cl.lastCompleted <= c.n
    && (forall i :: 0 <= i < cl.lastCompleted ==>
          Answers(c, s, cl.res[i], t, i, cl.tickets[i]) && cl.res[i][READY] == 0)
    && (cl.pc.CopyRes? || cl.pc.Ack? ==>
          cl.lastCompleted < c.n &&
          SamePrefix(cl.res[cl.lastCompleted], Window(c, s, t, cl.lastCompleted),
                     if cl.pc.CopyRes? && cl.pc.w < WORDS then cl.pc.w else WORDS))
  }

  ghost predicate Inv(c: Config, s: State) {
    && ValidConfig(c)
    && |s.buffer| == RING_SIZE && |s.board| == c.threads * c.win
    && |s.clients| == c.threads && |s.servers| == c.servers
    && Counters(s)
    && OwnersOK(c, s)
    && (forall t :: 0 <= t < c.threads ==> ClientOK(c, s, t) && ResultsOK(c, s, t))
    && (forall u :: 0 <= u < c.servers ==> ServerOK(c, s, u))
    && BufferOK(c, s)
    && NothingLost(s)
    && LogOK(c, s)
    && BoardOK(c, s)
  }

  lemma InvShape(c: Config, s: State)
    requires Inv(c, s)
    ensures Shape(c, s)
  {
    forall t | 0 <= t < c.threads ensures ClientShape(c, s.clients[t]) {
      assert ClientOK(c, s, t);
    }
    forall u | 0 <= u < c.servers ensures ServerShape(s, s.servers[u]) {
      assert ServerOK(c, s, u);
    }
  }

  // --- Frames: what one thread's facts need from the rest of the state ---

  /** History and counters only grow. */
  ghost predicate Grows(s: State, s': State) {
    && s.pHead <= s'.pHead && s.pTail <= s'.pTail && s.cHead <= s'.cHead && s.cTail <= s'.cTail
    && s.owner <= s'.owner && s.taker <= s'.taker && s.log <= s'.log && s.done <= s'.done
    && (forall x :: x in s.at ==> x in s'.at && s'.at[x] == s.at[x])
  }

  lemma OwnerFrame(c: Config, s: State, s': State, x: nat)
    requires Grows(s, s') && x < |s.owner| && OwnerOK(c, s, x)
    requires s.owner[x].thread < |s'.clients| &&
      s.clients[s.owner[x].thread].tickets <= s'.clients[s.owner[x].thread].tickets
    ensures OwnerOK(c, s', x)
  {
  }

  lemma ClientFrame(c: Config, s: State, s': State, t: nat)
    requires ValidConfig(c) && t < c.threads && t < |s.clients| && t < |s'.clients|
    requires |s.buffer| == RING_SIZE && |s'.buffer| == RING_SIZE
    requires Grows(s, s') && ClientOK(c, s, t) && s'.clients[t] == s.clients[t]
    requires Publishing(s.clients[t].pc) ==>
               s'.pTail <= s.clients[t].prodHead
               && s'.buffer[s.clients[t].prodHead % RING_SIZE] == s.buffer[s.clients[t].prodHead % RING_SIZE]
    ensures ClientOK(c, s', t)
  {
  }

  lemma ServerFrame(c: Config, s: State, s': State, u: nat)
    requires ValidConfig(c) && u < |s.servers| && u < |s'.servers| && |s'.board| == |s.board|
    requires Grows(s, s') && ServerOK(c, s, u) && s'.servers[u] == s.servers[u]
    requires Taking(s.servers[u].pc) || Serving(s.servers[u].pc) ==> OwnerOK(c, s', s.servers[u].consHead)
    requires Taking(s.servers[u].pc) ==> s'.cTail <= s.servers[u].consHead
    requires Serving(s.servers[u].pc) ==>
               s.servers[u].consHead !in s'.done && (s.servers[u].consHead in s'.at ==> s.servers[u].consHead in s.at)
    requires s.servers[u].pc.WriteV? || s.servers[u].pc.SetReady? ==>
               var x := SlotAt(s.servers[u].buf[RES_OFF]);
               s'.board[x][K] == s.board[x][K] && s'.board[x][V] == s.board[x][V]
    ensures ServerOK(c, s', u)
  {
  }

  lemma AnswersFrame(c: Config, s: State, s': State, d: Desc, t: nat, i: nat, x: nat)
    requires ValidConfig(c) && t < c.threads && i < c.n
    requires Grows(s, s') && Answers(c, s, d, t, i, x)
    ensures Answers(c, s', d, t, i, x)
  {
  }

  /** In the middle of acknowledging a request. */
  predicate Acking(pc: ClientPc) {
    pc.CopyRes? || pc.Ack?
  }

  lemma WindowFrame(c: Config, s: State, s': State, t: nat, i: nat)
    requires ValidConfig(c) && t < c.threads && t < |s.clients| && t < |s'.clients|
    requires |s.board| == c.threads * c.win && |s'.board| == c.threads * c.win
    requires Grows(s, s') && WindowOK(c, s, t, i)
    requires s'.clients[t].lastCompleted == s.clients[t].lastCompleted &&
      Acking(s'.clients[t].pc) == Acking(s.clients[t].pc)
    requires s.clients[t].tickets <= s'.clients[t].tickets
    requires i < |s'.clients[t].tickets| && s'.clients[t].tickets[i] in s'.done ==>
               i < |s.clients[t].tickets| && s.clients[t].tickets[i] in s.done
    requires Window(c, s', t, i) == Window(c, s, t, i)
    ensures WindowOK(c, s', t, i)
  {
    if i < |s.clients[t].tickets| && s.clients[t].tickets[i] in s.done {
      AnswersFrame(c, s, s', Window(c, s, t, i), t, i, s.clients[t].tickets[i]);
    }
  }

  lemma ResultsFrame(c: Config, s: State, s': State, t: nat)
    requires ValidConfig(c) && t < c.threads && t < |s.clients| && t < |s'.clients|
    requires |s.board| == c.threads * c.win && |s'.board| == c.threads * c.win
    requires Grows(s, s') && ResultsOK(c, s, t)
    requires s'.clients[t].lastCompleted == s.clients[t].lastCompleted && s'.clients[t].res == s.clients[t].res
    requires s.clients[t].tickets <= s'.clients[t].tickets
    requires Acking(s'.clients[t].pc) ==>
               s'.clients[t].pc == s.clients[t].pc
               && Window(c, s', t, s.clients[t].lastCompleted) == Window(c, s, t, s.clients[t].lastCompleted)
    ensures ResultsOK(c, s', t)
  {
    var cl := s.clients[t];
    forall i | 0 <= i < cl.lastCompleted
      ensures Answers(c, s', cl.res[i], t, i, cl.tickets[i])
    {
      AnswersFrame(c, s, s', cl.res[i], t, i, cl.tickets[i]);
    }
  }

  lemma LogFrame(c: Config, s: State, s': State)
    requires ValidConfig(c) && Grows(s, s') && LogOK(c, s)
    requires s'.log == s.log && s'.at == s.at && s'.kv == s.kv
    requires forall x :: x in s'.done ==> x in s.done || (x < s'.cTail && x in s.at)
    ensures LogOK(c, s')
  {
    forall p | 0 <= p < |s'.log| ensures EntryOK(c, s', p) {
      assert EntryOK(c, s, p);
    }
  }

  /** A client that keeps its ticket, if it has one, loses nothing. */
  lemma NothingLostClient(s: State, s': State, t: nat)
    requires NothingLost(s) && t < |s.clients| && |s'.clients| == |s.clients|
    requires s'.clients == s.clients[t := s'.clients[t]] && s'.servers == s.servers
    requires Publishing(s.clients[t].pc) ==>
               Publishing(s'.clients[t].pc) && s'.clients[t].prodHead == s.clients[t].prodHead
    requires s'.pHead == s.pHead && s'.pTail == s.pTail && s'.cHead == s.cHead && s'.cTail == s.cTail
    requires s'.owner == s.owner && s'.taker == s.taker && s'.done == s.done
    ensures NothingLost(s')
  {
    forall x: nat | s'.pTail <= x < s'.pHead ensures BeingPublished(s', x) {
      assert BeingPublished(s, x);
    }
    forall x: nat | s'.cTail <= x < s'.cHead ensures BeingTaken(s', x) {
      assert BeingTaken(s, x);
    }
    forall x: nat | x < s'.cTail && x !in s'.done ensures BeingServed(s', x) {
      assert BeingServed(s, x);
    }
  }

  // --- Steps that change nothing but the program counter and registers of one thread ---

  /** A client step that touches no shared state. */
  ghost predicate LocalClient(s: State, s': State, t: nat) {
    && t < |s.clients| && t < |s'.clients| && s' == SetClient(s, t, s'.clients[t])
    && var cl, cl' := s.clients[t], s'.clients[t];
      && cl'.tickets == cl.tickets && cl'.lastSubmitted == cl.lastSubmitted
      && cl'.lastCompleted == cl.lastCompleted && cl'.res == cl.res
      && Publishing(cl'.pc) == Publishing(cl.pc) && (Publishing(cl.pc) ==> cl'.prodHead == cl.prodHead)
      && Acking(cl'.pc) == Acking(cl.pc) && (Acking(cl.pc) ==> cl'.pc == cl.pc)
  }

  lemma LocalClientInv(c: Config, s: State, s': State, t: nat)
    requires Inv(c, s) && t < c.threads && LocalClient(s, s', t) && |s'.clients| == c.threads
    requires ClientOK(c, s', t)
    ensures Inv(c, s')
  {
    hide ClientOK, ServerOK, ResultsOK, WindowOK, LogOK, EntryOK, OwnerOK, NothingLost;
    NothingLostClient(s, s', t);
    forall x | 0 <= x < |s.owner| ensures OwnerOK(c, s', x) {
      OwnerThread(c, s, x);
      OwnerFrame(c, s, s', x);
    }
    forall r | 0 <= r < c.threads ensures ClientOK(c, s', r) && ResultsOK(c, s', r) {
      if r != t {
        PublishingBounds(c, s, r);
        ClientFrame(c, s, s', r);
      }
      ResultsFrame(c, s, s', r);
    }
    forall u | 0 <= u < c.servers ensures ServerOK(c, s', u) {
      ServerBounds(c, s, u);
      ServerFrame(c, s, s', u);
    }
    forall r, i | 0 <= r < c.threads && s'.clients[r].lastCompleted <= i < s'.clients[r].lastCompleted + c.win
      ensures WindowOK(c, s', r, i)
    {
      WindowFrame(c, s, s', r, i);
    }
    LogFrame(c, s, s');
  }

  lemma OwnerThread(c: Config, s: State, x: nat)
    requires x < |s.owner| && OwnerOK(c, s, x)
    ensures s.owner[x].thread < c.threads && s.owner[x].thread < |s.clients|
  {
  }

  lemma PublishingBounds(c: Config, s: State, t: nat)
    requires ValidConfig(c) && t < c.threads && t < |s.clients| && |s.buffer| == RING_SIZE && ClientOK(c, s, t)
    ensures Publishing(s.clients[t].pc) ==>
              && s.clients[t].lastSubmitted < |s.clients[t].tickets|
              && s.clients[t].tickets[s.clients[t].lastSubmitted] == s.clients[t].prodHead
              && s.pTail <= s.clients[t].prodHead < s.pHead
  {
  }

  lemma ServerBounds(c: Config, s: State, u: nat)
    requires ValidConfig(c) && u < |s.servers| && ServerOK(c, s, u)
    ensures var sv := s.servers[u];
      && ServerShape(s, sv)
      && (Taking(sv.pc) || Serving(sv.pc) ==> sv.consHead < |s.owner| && OwnerOK(c, s, sv.consHead))
      && (Taking(sv.pc) ==> s.cTail <= sv.consHead < s.cHead)
      && (Serving(sv.pc) ==> sv.consHead < s.cTail && sv.consHead !in s.done && (sv.pc.Exec? <==> sv.consHead !in s.at))
  {
  }

  // --- Arithmetic of slots ---

  lemma SameResidue(a: nat, b: nat, m: nat)
    requires m > 0 && a % m == b % m && a <= b < a + m
    ensures a == b
  {
    assert a == a / m * m + a % m && b == b / m * m + b % m;
    if a / m < b / m {
      MulMono(a / m + 1, b / m, m);
    } else if b / m < a / m {
      MulMono(b / m + 1, a / m, m);
    }
  }

  lemma SlotsDiffer(c: Config, t: nat, i: nat, r: nat, j: nat)
    requires c.win > 0 && SlotOf(c, t, i) == SlotOf(c, r, j)
    ensures t == r && i % c.win == j % c.win
  {
    if t < r {
      MulMono(t + 1, r, c.win);
    } else if r < t {
      MulMono(r + 1, t, c.win);
    }
  }

  /** Requests in the windows of their threads never share a slot of the board. */
  lemma WindowsDiffer(c: Config, s: State, t: nat, i: nat, r: nat, j: nat)
    requires c.win > 0 && t < |s.clients| && r < |s.clients|
    requires s.clients[t].lastCompleted <= i < s.clients[t].lastCompleted + c.win
    requires s.clients[r].lastCompleted <= j < s.clients[r].lastCompleted + c.win
    requires SlotOf(c, t, i) == SlotOf(c, r, j)
    ensures t == r && i == j
  {
    SlotsDiffer(c, t, i, r, j);
    if i <= j {
      SameResidue(i, j, c.win);
    } else {
      SameResidue(j, i, c.win);
    }
  }

  lemma OffsetDecodes(c: Config, t: nat, i: nat)
    requires c.win > 0
    ensures SlotAt(OffsetOf(c, t, i)) == SlotOf(c, t, i)
  {
    assert OffsetOf(c, t, i) - RING_BYTES == SlotOf(c, t, i) * DESC_BYTES;
  }

  // --- Flow control ---

  /** A ticket that is not done belongs to a request in the window of its thread. */
  lemma OutstandingInWindow(c: Config, s: State, x: nat)
    requires Inv(c, s) && x < s.pHead && x !in s.done
    ensures OwnerOK(c, s, x)
    ensures var o := s.owner[x];
      s.clients[o.thread].lastCompleted <= o.index < s.clients[o.thread].lastCompleted + c.win
  {
    assert OwnerOK(c, s, x);
    assert ClientOK(c, s, s.owner[x].thread);
  }

  /** Requests that one thread can have outstanding at once. */
  function Outstanding(c: Config): nat {
    if c.n < c.win then c.n else c.win
  }

  /** A number below threads * Outstanding for each outstanding request. */
  function TicketSlot(c: Config, s: State, x: nat): nat
    requires Outstanding(c) > 0 && x < |s.owner|
  {
    s.owner[x].thread * Outstanding(c) + s.owner[x].index % Outstanding(c)
  }

  lemma LiveTicketSlots(c: Config, s: State, x: nat, y: nat)
    requires Inv(c, s) && s.cTail <= x < s.pHead && s.cTail <= y < s.pHead
    ensures Outstanding(c) > 0
    ensures TicketSlot(c, s, x) < c.threads * Outstanding(c)
    ensures TicketSlot(c, s, x) == TicketSlot(c, s, y) ==> x == y
  {
    NotDoneYet(c, s, x);
    NotDoneYet(c, s, y);
    OutstandingInWindow(c, s, x);
    OutstandingInWindow(c, s, y);
    var o, q, m := s.owner[x], s.owner[y], Outstanding(c);
    var d := c.(win := m);
    SlotInBoard(d, o.thread, o.index);
    assert SlotOf(d, o.thread, o.index) == TicketSlot(c, s, x) && SlotOf(d, q.thread, q.index) == TicketSlot(c, s, y);
    if TicketSlot(c, s, x) == TicketSlot(c, s, y) {
      SlotsDiffer(d, o.thread, o.index, q.thread, q.index);
      if o.index <= q.index {
        SameResidue(o.index, q.index, m);
      } else {
        SameResidue(q.index, o.index, m);
      }
    }
  }

  /** The board slots of the first `k` tickets of the ring. */
  function LiveSlots(c: Config, s: State, k: nat): (r: seq<nat>)
    requires Outstanding(c) > 0 && s.cTail + k <= |s.owner|
    ensures |r| == k && forall i :: 0 <= i < k ==> r[i] == TicketSlot(c, s, s.cTail + i)
  {
    if k == 0 then [] else LiveSlots(c, s, k - 1) + [TicketSlot(c, s, s.cTail + k - 1)]
  }

  /** Window flow control: the ring never holds more tickets than there are windows in use. */
  lemma Occupancy(c: Config, s: State)
    requires Inv(c, s)
    ensures s.pHead - s.cTail <= c.threads * Outstanding(c)
  {
    if s.cTail < s.pHead {
      LiveTicketSlots(c, s, s.cTail, s.cTail);
      var slots := LiveSlots(c, s, s.pHead - s.cTail);
      forall k | 0 <= k < |slots| ensures slots[k] < c.threads * Outstanding(c) {
        LiveTicketSlots(c, s, s.cTail + k, s.cTail + k);
      }
      forall j, k | 0 <= j < k < |slots| ensures slots[j] != slots[k] {
        LiveTicketSlots(c, s, s.cTail + j, s.cTail + k);
      }
      Pigeonhole(slots, c.threads * Outstanding(c));
    }
  }

  lemma ServedReleased(c: Config, s: State, x: nat)
    requires ValidConfig(c) && LogOK(c, s) && x in s.at
    ensures x < s.cTail
  {
    assert EntryOK(c, s, s.at[x]);
  }

  lemma NotDoneYet(c: Config, s: State, x: nat)
    requires Inv(c, s) && x >= s.cTail
    ensures x !in s.done && x !in s.at
  {
    if x in s.at {
      ServedReleased(c, s, x);
    }
  }

  /** The windows in use fit into the ring: what the client's command line has to respect. */
  predicate Fits(c: Config) {
    c.threads * Outstanding(c) <= RING_SIZE
  }

  /** Two live tickets never use the same ring slot. */
  lemma RingSlotsDiffer(c: Config, s: State, x: nat, y: nat)
    requires Inv(c, s) && Fits(c) && s.cTail <= x < s.pHead && s.cTail <= y < s.pHead
    requires x % RING_SIZE == y % RING_SIZE
    ensures x == y
  {
    Occupancy(c, s);
    if x <= y {
      SameResidue(x, y, RING_SIZE);
    } else {
      SameResidue(y, x, RING_SIZE);
    }
  }
}
