/** Every step of every thread keeps the invariant, so it holds in every run. */
module RingSteps {
  import opened RingModel
  import opened RingSafety

  // --- Clients ---

  lemma ReadyMeansDone(c: Config, s: State, t: nat)
    requires Inv(c, s) && t < c.threads && !Acking(s.clients[t].pc)
    ensures PollSlot(c, t, s.clients[t]) == SlotOf(c, t, s.clients[t].lastCompleted) < |s.board|
    ensures s.board[PollSlot(c, t, s.clients[t])][READY] == 1 ==>
              s.clients[t].lastCompleted < |s.clients[t].tickets| &&
                s.clients[t].tickets[s.clients[t].lastCompleted] in s.done
  {
    assert ClientOK(c, s, t);
    SlotInBoard(c, t, s.clients[t].lastCompleted);
    assert WindowOK(c, s, t, s.clients[t].lastCompleted);
  }

  /** Steps of a client between the shared accesses, and its loads. */
  lemma ClientLocalStep(c: Config, s: State, t: nat)
    requires Inv(c, s) && Shape(c, s) && t < c.threads
    requires var pc := s.clients[t].pc;
      pc.Top? || pc.Submit? || pc.LoadHead? || pc.LoadTail? || pc.WaitTail? || pc.Finished?
      || (pc.Cas? && s.pHead != s.clients[t].prodHead)
    ensures Inv(c, ClientStep(c, s, t))
  {
    hide ServerOK, ResultsOK, LogOK, BoardOK, OwnersOK, BufferOK, NothingLost, WindowOK, PollSlot;
    var s' := ClientStep(c, s, t);
    assert ClientOK(c, s, t);
    assert ClientOK(c, s', t);
    assert s' == SetClient(s, t, s'.clients[t]);
    LocalClientInv(c, s, s', t);
  }

  /** Polling the next window. */
  lemma CheckStep(c: Config, s: State, t: nat)
    requires Inv(c, s) && Shape(c, s) && t < c.threads && s.clients[t].pc.Check?
    ensures Inv(c, ClientStep(c, s, t))
  {
    hide ServerOK, ResultsOK, LogOK, BoardOK, OwnersOK, BufferOK, NothingLost, WindowOK, SlotOf;
    var s' := ClientStep(c, s, t);
    ReadyMeansDone(c, s, t);
    assert ClientOK(c, s, t);
    assert ClientOK(c, s', t);
    assert s' == SetClient(s, t, s'.clients[t]);
    LocalClientInv(c, s, s', t);
  }

  predicate InWindow(c: Config, s: State, t: nat, i: nat)
    requires t < |s.clients|
  {
    s.clients[t].lastCompleted <= i < s.clients[t].lastCompleted + c.win
  }

  /** A client step that also changes shared words; the other threads keep their facts. */
  lemma ClientShared(c: Config, s: State, s': State, t: nat)
    requires Inv(c, s) && Grows(s, s') && t < c.threads
    requires |s'.clients| == c.threads && s'.clients == s.clients[t := s'.clients[t]]
    requires |s'.buffer| == RING_SIZE && |s'.board| == |s.board| && s'.servers == s.servers
    requires s'.cHead == s.cHead && s'.cTail == s.cTail && s'.taker == s.taker
    requires s'.log == s.log && s'.at == s.at && s'.kv == s.kv && s'.done == s.done
    requires Counters(s') && s.clients[t].tickets <= s'.clients[t].tickets
    requires forall x :: |s.owner| <= x < |s'.owner| ==> OwnerOK(c, s', x)
    requires ClientOK(c, s', t) && ResultsOK(c, s', t)
    requires forall r :: 0 <= r < c.threads && r != t && Publishing(s.clients[r].pc) ==>
               s'.pTail <= s.clients[r].prodHead
               && s'.buffer[s.clients[r].prodHead % RING_SIZE] == s.buffer[s.clients[r].prodHead % RING_SIZE]
    requires forall x :: 0 <= x < |s.board| ==> s'.board[x][K] == s.board[x][K] && s'.board[x][V] == s.board[x][V]
    requires forall r, i :: 0 <= r < c.threads && r != t && InWindow(c, s, r, i) ==>
      Window(c, s', r, i) == Window(c, s, r, i)
    requires forall i :: s'.clients[t].lastCompleted <= i < s'.clients[t].lastCompleted + c.win ==>
      WindowOK(c, s', t, i)
    requires BufferOK(c, s') && NothingLost(s')
    ensures Inv(c, s')
  {
    hide ClientOK, ServerOK, ResultsOK, WindowOK, LogOK, EntryOK, OwnerOK, BufferOK, NothingLost;
    forall x | 0 <= x < |s'.owner| ensures OwnerOK(c, s', x) {
      if x < |s.owner| {
        OwnerThread(c, s, x);
        OwnerFrame(c, s, s', x);
      }
    }
    forall r | 0 <= r < c.threads ensures ClientOK(c, s', r) && ResultsOK(c, s', r) {
      if r != t {
        ClientFrame(c, s, s', r);
        ResultsFrame(c, s, s', r);
      }
    }
    forall u | 0 <= u < c.servers ensures ServerOK(c, s', u) {
      ServerBounds(c, s, u);
      ServerFrame(c, s, s', u);
    }
    forall r, i | 0 <= r < c.threads && s'.clients[r].lastCompleted <= i < s'.clients[r].lastCompleted + c.win
      ensures WindowOK(c, s', r, i)
    {
      if r != t {
        WindowFrame(c, s, s', r, i);
      }
    }
    LogFrame(c, s, s');
  }

  lemma CasStep(c: Config, s: State, t: nat)
    requires Inv(c, s) && Shape(c, s) && t < c.threads && s.clients[t].pc.Cas? && s.pHead == s.clients[t].prodHead
    ensures Inv(c, ClientStep(c, s, t))
  {
    hide ServerOK, LogOK, EntryOK;
    var s' := ClientStep(c, s, t);
    var cl, cl' := s.clients[t], s'.clients[t];
    assert ClientOK(c, s, t);
    assert ClientOK(c, s', t);
    ResultsFrame(c, s, s', t);
    NotDoneYet(c, s, s.pHead);
    forall i | cl'.lastCompleted <= i < cl'.lastCompleted + c.win ensures WindowOK(c, s', t, i) {
      assert WindowOK(c, s, t, i);
      WindowFrame(c, s, s', t, i);
    }
    forall r | 0 <= r < c.threads && r != t && Publishing(s.clients[r].pc) ensures s'.pTail <= s.clients[r].prodHead {
      PublishingBounds(c, s, r);
    }
    assert BufferOK(c, s') by {
      forall x | s'.cTail <= x < s'.pTail ensures OwnerOK(c, s', x) {
        assert OwnerOK(c, s, x);
      }
    }
    forall x: nat | s'.pTail <= x < s'.pHead ensures BeingPublished(s', x) {
      if x < s.pHead {
        assert BeingPublished(s, x);
      }
    }
    forall x: nat | s'.cTail <= x < s'.cHead ensures BeingTaken(s', x) {
      assert BeingTaken(s, x);
    }
    forall x: nat | x < s'.cTail && x !in s'.done ensures BeingServed(s', x) {
      assert BeingServed(s, x);
    }
    ClientShared(c, s, s', t);
  }

  lemma ProducersDiffer(c: Config, s: State, t: nat, r: nat)
    requires Inv(c, s) && t < c.threads && r < c.threads && t != r
    requires Publishing(s.clients[t].pc) && Publishing(s.clients[r].pc)
    ensures s.clients[t].prodHead != s.clients[r].prodHead
  {
    assert ClientOK(c, s, t) && ClientOK(c, s, r);
  }

  /** The copy of one word touches neither a published item nor another producer's slot. */
  lemma CopyStep(c: Config, s: State, t: nat)
    requires Inv(c, s) && Shape(c, s) && Fits(c) && t < c.threads && s.clients[t].pc.Copy?
    ensures Inv(c, ClientStep(c, s, t))
  {
    hide ServerOK, NothingLost, LogOK, EntryOK, ResultsOK, WindowOK;
    var s' := ClientStep(c, s, t);
    var cl, cl' := s.clients[t], s'.clients[t];
    assert ClientOK(c, s, t);
    assert ClientOK(c, s', t);
    ResultsFrame(c, s, s', t);
    forall i | cl'.lastCompleted <= i < cl'.lastCompleted + c.win ensures WindowOK(c, s', t, i) {
      assert WindowOK(c, s, t, i);
      WindowFrame(c, s, s', t, i);
    }
    forall r | 0 <= r < c.threads && r != t && Publishing(s.clients[r].pc)
      ensures s'.pTail <= s.clients[r].prodHead
      ensures s'.buffer[s.clients[r].prodHead % RING_SIZE] == s.buffer[s.clients[r].prodHead % RING_SIZE]
    {
      PublishingBounds(c, s, r);
      ProducersDiffer(c, s, t, r);
      if s.clients[r].prodHead % RING_SIZE == cl.prodHead % RING_SIZE {
        RingSlotsDiffer(c, s, s.clients[r].prodHead, cl.prodHead);
      }
    }
    assert BufferOK(c, s') by {
      forall x | s'.cTail <= x < s'.pTail
        ensures x < |s'.owner| && OwnerOK(c, s', x) && s'.buffer[x % RING_SIZE] == TicketItem(c, s', x)
      {
        assert OwnerOK(c, s, x);
        if x % RING_SIZE == cl.prodHead % RING_SIZE {
          RingSlotsDiffer(c, s, x, cl.prodHead);
        }
      }
    }
    NothingLostClient(s, s', t);
    ClientShared(c, s, s', t);
  }

  /** Advancing the producer tail publishes a completely written item. */
  lemma BumpStep(c: Config, s: State, t: nat)
    requires Inv(c, s) && Shape(c, s) && t < c.threads && s.clients[t].pc.Bump?
    ensures Inv(c, ClientStep(c, s, t))
  {
    hide ServerOK, LogOK, EntryOK, ResultsOK, WindowOK;
    var s' := ClientStep(c, s, t);
    var cl, cl' := s.clients[t], s'.clients[t];
    assert ClientOK(c, s, t);
    assert ClientOK(c, s', t);
    ResultsFrame(c, s, s', t);
    forall i | cl'.lastCompleted <= i < cl'.lastCompleted + c.win ensures WindowOK(c, s', t, i) {
      assert WindowOK(c, s, t, i);
      WindowFrame(c, s, s', t, i);
    }
    forall r | 0 <= r < c.threads && r != t && Publishing(s.clients[r].pc) ensures s'.pTail <= s.clients[r].prodHead {
      PublishingBounds(c, s, r);
      ProducersDiffer(c, s, t, r);
    }
    assert BufferOK(c, s') by {
      forall x | s'.cTail <= x < s'.pTail
        ensures x < |s'.owner| && OwnerOK(c, s', x) && s'.buffer[x % RING_SIZE] == TicketItem(c, s', x)
      {
        assert OwnerOK(c, s, x);
        if x == s.pTail {
          assert s.owner[x] == Owner(t, cl.lastSubmitted);
        }
      }
    }
    forall x: nat | s'.pTail <= x < s'.pHead ensures BeingPublished(s', x) {
      assert BeingPublished(s, x);
    }
    forall x: nat | s'.cTail <= x < s'.cHead ensures BeingTaken(s', x) {
      assert BeingTaken(s, x);
    }
    forall x: nat | x < s'.cTail && x !in s'.done ensures BeingServed(s', x) {
      assert BeingServed(s, x);
    }
    ClientShared(c, s, s', t);
  }

  lemma ResetWindow(c: Config, s: State, s': State, t: nat, i: nat)
    requires ValidConfig(c) && t < c.threads && t < |s.clients| && t < |s'.clients|
    requires |s.board| == c.threads * c.win && |s'.board| == c.threads * c.win
    requires WindowOK(c, s, t, i) && s.clients[t].pc.Reset? && s'.clients[t].pc.CopyRes?
    requires s'.log == s.log && s'.at == s.at && s'.done == s.done
    requires s'.clients[t].tickets == s.clients[t].tickets && s'.clients[t].lastCompleted == s.clients[t].lastCompleted
    requires Window(c, s', t, i) ==
      if i == s.clients[t].lastCompleted then Window(c, s, t, i)[READY := 0] else Window(c, s, t, i)
    ensures WindowOK(c, s', t, i)
  {
  }

  /** A write to the slot of one outstanding window changes no other window. */
  lemma BoardWrite(c: Config, s: State, board: seq<Desc>, t: nat, i: nat, d: Desc, r: nat, j: nat)
    requires c.win > 0 && |s.board| == c.threads * c.win && |s.clients| == c.threads && t < c.threads && r < c.threads
    requires InWindow(c, s, t, i) && InWindow(c, s, r, j)
    requires SlotOf(c, t, i) < |s.board| && board == s.board[SlotOf(c, t, i) := d]
    ensures SlotOf(c, r, j) < |s.board|
    ensures board[SlotOf(c, r, j)] == if r == t && j == i then d else s.board[SlotOf(c, r, j)]
  {
    SlotInBoard(c, r, j);
    if SlotOf(c, r, j) == SlotOf(c, t, i) {
      WindowsDiffer(c, s, r, j, t, i);
    }
  }

  /** Clearing the ready flag of the window that is being acknowledged. */
  lemma ResetStep(c: Config, s: State, t: nat)
    requires Inv(c, s) && Shape(c, s) && t < c.threads && s.clients[t].pc.Reset?
    ensures Inv(c, ClientStep(c, s, t))
  {
    hide ServerOK, NothingLost, LogOK, EntryOK, BufferOK, OwnerOK, WindowOK, SlotOf, PollSlot;
    var s' := ClientStep(c, s, t);
    var cl, cl' := s.clients[t], s'.clients[t];
    var lc := cl.lastCompleted;
    ReadyMeansDone(c, s, t);
    assert ClientOK(c, s, t) && ResultsOK(c, s, t);
    var d := s.board[SlotOf(c, t, lc)][READY := 0];
    assert s'.board == s.board[SlotOf(c, t, lc) := d];
    assert ClientOK(c, s', t);
    assert ResultsOK(c, s', t);
    forall i | cl'.lastCompleted <= i < cl'.lastCompleted + c.win ensures WindowOK(c, s', t, i) {
      BoardWrite(c, s, s'.board, t, lc, d, t, i);
      ResetWindow(c, s, s', t, i);
    }
    forall r, i | 0 <= r < c.threads && r != t && InWindow(c, s, r, i)
      ensures Window(c, s', r, i) == Window(c, s, r, i)
    {
      BoardWrite(c, s, s'.board, t, lc, d, r, i);
    }
    forall r | 0 <= r < c.threads && r != t && Publishing(s.clients[r].pc) ensures s'.pTail <= s.clients[r].prodHead {
      PublishingBounds(c, s, r);
    }
    assert BufferOK(c, s') by { BufferFrame(c, s, s'); }
    NothingLostClient(s, s', t);
    ClientShared(c, s, s', t);
  }

  lemma BufferFrame(c: Config, s: State, s': State)
    requires ValidConfig(c) && |s.buffer| == RING_SIZE && BufferOK(c, s) && Counters(s)
    requires s'.buffer == s.buffer && s'.owner == s.owner && s'.pTail == s.pTail && s'.cTail >= s.cTail
    requires |s'.clients| == |s.clients| && forall r :: 0 <= r < |s.clients| ==>
      s'.clients[r].tickets == s.clients[r].tickets
    ensures BufferOK(c, s')
  {
    forall x | s'.cTail <= x < s'.pTail ensures OwnerOK(c, s', x) {
      assert OwnerOK(c, s, x);
    }
  }

  /** One word of the answer is copied into res. */
  lemma CopyResStep(c: Config, s: State, t: nat)
    requires Inv(c, s) && Shape(c, s) && t < c.threads && s.clients[t].pc.CopyRes?
    ensures Inv(c, ClientStep(c, s, t))
  {
    hide ServerOK, NothingLost, LogOK, EntryOK, BufferOK, OwnerOK;
    var s' := ClientStep(c, s, t);
    var cl, cl' := s.clients[t], s'.clients[t];
    var lc := cl.lastCompleted;
    assert ClientOK(c, s, t) && ResultsOK(c, s, t);
    SlotInBoard(c, t, lc);
    assert ClientOK(c, s', t);
    forall i | 0 <= i < lc ensures Answers(c, s', cl'.res[i], t, i, cl'.tickets[i]) {
      AnswersFrame(c, s, s', cl.res[i], t, i, cl.tickets[i]);
    }
    assert ResultsOK(c, s', t);
    forall i | cl'.lastCompleted <= i < cl'.lastCompleted + c.win ensures WindowOK(c, s', t, i) {
      assert WindowOK(c, s, t, i);
      WindowFrame(c, s, s', t, i);
    }
    forall r | 0 <= r < c.threads && r != t && Publishing(s.clients[r].pc) ensures s'.pTail <= s.clients[r].prodHead {
      PublishingBounds(c, s, r);
    }
    assert BufferOK(c, s') by { BufferFrame(c, s, s'); }
    NothingLostClient(s, s', t);
    ClientShared(c, s, s', t);
  }

  /** The acknowledgement moves the window by one; the freed slot is empty. */
  lemma AckStep(c: Config, s: State, t: nat)
    requires Inv(c, s) && Shape(c, s) && t < c.threads && s.clients[t].pc.Ack?
    ensures Inv(c, ClientStep(c, s, t))
  {
    hide ServerOK, NothingLost, LogOK, EntryOK, BufferOK, OwnerOK;
    var s' := ClientStep(c, s, t);
    var cl, cl' := s.clients[t], s'.clients[t];
    var lc := cl.lastCompleted;
    assert ClientOK(c, s, t) && ResultsOK(c, s, t) && WindowOK(c, s, t, lc);
    NextInWindow(lc, c.win);
    assert ClientOK(c, s', t);
    SlotInBoard(c, t, lc);
    assert cl.res[lc] == Window(c, s, t, lc);
    forall i | 0 <= i < lc + 1 ensures Answers(c, s', cl'.res[i], t, i, cl'.tickets[i]) && cl'.res[i][READY] == 0 {
      AnswersFrame(c, s, s', cl.res[i], t, i, cl.tickets[i]);
    }
    forall i | lc + 1 <= i < lc + 1 + c.win ensures WindowOK(c, s', t, i) {
      if i == lc + c.win {
        SlotRepeats(c, t, lc);
      } else {
        assert WindowOK(c, s, t, i);
      }
    }
    forall r | 0 <= r < c.threads && r != t && Publishing(s.clients[r].pc) ensures s'.pTail <= s.clients[r].prodHead {
      PublishingBounds(c, s, r);
    }
    assert BufferOK(c, s') by { BufferFrame(c, s, s'); }
    NothingLostClient(s, s', t);
    ClientShared(c, s, s', t);
  }

  lemma NextInWindow(i: nat, w: nat)
    requires w > 0
    ensures (i % w + 1) % w == (i + 1) % w
  {
    assert i + 1 == i / w * w + (i % w + 1);
    ModPlus(i / w, i % w + 1, w);
  }

  lemma {:induction false} ModPlus(k: nat, r: nat, w: nat)
    requires w > 0
    ensures (k * w + r) % w == r % w
  {
    if k > 0 {
      ModPlus(k - 1, r, w);
      assert k * w + r == (k - 1) * w + r + w;
      AddModulus((k - 1) * w + r, w);
    }
  }

  lemma AddModulus(a: nat, w: nat)
    requires w > 0
    ensures (a + w) % w == a % w
  {
    var q := a / w;
    assert a + w == (q + 1) * w + a % w;
    assert (a + w) / w == q + 1 by {
      if (a + w) / w < q + 1 {
        MulMono((a + w) / w + 1, q + 1, w);
      } else if (a + w) / w > q + 1 {
        MulMono(q + 2, (a + w) / w, w);
      }
    }
  }

  lemma SlotRepeats(c: Config, t: nat, i: nat)
    requires c.win > 0
    ensures SlotOf(c, t, i + c.win) == SlotOf(c, t, i)
  {
    AddModulus(i, c.win);
  }

  /** Every step of a client keeps the invariant. */
  lemma ClientInv(c: Config, s: State, t: nat)
    requires Inv(c, s) && Shape(c, s) && Fits(c) && t < c.threads
    ensures Inv(c, ClientStep(c, s, t))
  {
    hide Inv;
    match s.clients[t].pc
    case Cas =>
      if s.pHead == s.clients[t].prodHead { CasStep(c, s, t); } else { ClientLocalStep(c, s, t); }
    case Copy(_) => CopyStep(c, s, t);
    case Bump => BumpStep(c, s, t);
    case Reset => ResetStep(c, s, t);
    case CopyRes(_) => CopyResStep(c, s, t);
    case Ack => AckStep(c, s, t);
    case Check => CheckStep(c, s, t);
    case _ => ClientLocalStep(c, s, t);
  }

  // --- Servers ---

  /** A server step; the clients, the producers' counters and the ring buffer are untouched. */
  lemma ServerShared(c: Config, s: State, s': State, u: nat)
    requires Inv(c, s) && Grows(s, s') && u < c.servers
    requires |s'.servers| == c.servers && s'.servers == s.servers[u := s'.servers[u]]
    requires s'.clients == s.clients && s'.pHead == s.pHead && s'.pTail == s.pTail
    requires s'.buffer == s.buffer && s'.owner == s.owner && |s'.board| == |s.board|
    requires Counters(s') && LogOK(c, s') && NothingLost(s')
    requires ServerOK(c, s', u)
    requires forall r :: 0 <= r < c.servers && r != u ==>
               && (Taking(s.servers[r].pc) ==> s'.cTail <= s.servers[r].consHead)
               && (Serving(s.servers[r].pc) ==>
                     s.servers[r].consHead !in s'.done &&
                       (s.servers[r].consHead in s'.at ==> s.servers[r].consHead in s.at))
               && (s.servers[r].pc.WriteV? || s.servers[r].pc.SetReady? ==>
                     var x := SlotAt(s.servers[r].buf[RES_OFF]);
                     0 <= x < |s.board| && s'.board[x][K] == s.board[x][K] && s'.board[x][V] == s.board[x][V])
    requires forall t, i :: 0 <= t < c.threads && InWindow(c, s, t, i) ==> WindowOK(c, s', t, i)
    requires forall t :: 0 <= t < c.threads && Acking(s.clients[t].pc) ==>
               Window(c, s', t, s.clients[t].lastCompleted) == Window(c, s, t, s.clients[t].lastCompleted)
    ensures Inv(c, s')
  {
    hide ClientOK, ServerOK, ResultsOK, WindowOK, LogOK, EntryOK, OwnerOK, BufferOK, NothingLost;
    forall x | 0 <= x < |s'.owner| ensures OwnerOK(c, s', x) {
      OwnerThread(c, s, x);
      OwnerFrame(c, s, s', x);
    }
    forall t | 0 <= t < c.threads ensures ClientOK(c, s', t) && ResultsOK(c, s', t) {
      PublishingBounds(c, s, t);
      ClientFrame(c, s, s', t);
      ResultsFrame(c, s, s', t);
    }
    forall r | 0 <= r < c.servers ensures ServerOK(c, s', r) {
      if r != u {
        ServerBounds(c, s, r);
        ServerFrame(c, s, s', r);
      }
    }
    BufferFrame(c, s, s');
    forall t, i | 0 <= t < c.threads && s'.clients[t].lastCompleted <= i < s'.clients[t].lastCompleted + c.win
      ensures WindowOK(c, s', t, i)
    {
      assert InWindow(c, s, t, i);
    }
  }

  /** The board, the log and the flags stay; what is left to show is about the server itself. */
  lemma ServerQuiet(c: Config, s: State, s': State, u: nat)
    requires Inv(c, s) && Grows(s, s') && u < c.servers
    requires |s'.servers| == c.servers && s'.servers == s.servers[u := s'.servers[u]]
    requires s'.clients == s.clients && s'.pHead == s.pHead && s'.pTail == s.pTail
    requires s'.buffer == s.buffer && s'.owner == s.owner && s'.board == s.board
    requires s'.log == s.log && s'.at == s.at && s'.kv == s.kv && s'.done == s.done
    requires Counters(s') && NothingLost(s') && ServerOK(c, s', u)
    requires forall r :: 0 <= r < c.servers && r != u && Taking(s.servers[r].pc) ==> s'.cTail <= s.servers[r].consHead
    ensures Inv(c, s')
  {
    hide ClientOK, ServerOK, ResultsOK, WindowOK, LogOK, EntryOK, OwnerOK, BufferOK, NothingLost;
    LogFrame(c, s, s');
    forall t, i | 0 <= t < c.threads && InWindow(c, s, t, i) ensures WindowOK(c, s', t, i) {
      WindowFrame(c, s, s', t, i);
    }
    forall r | 0 <= r < c.servers
      ensures Serving(s.servers[r].pc) ==> s.servers[r].consHead !in s'.done
      ensures ServerShape(s, s.servers[r])
    {
      ServerBounds(c, s, r);
    }
    ServerShared(c, s, s', u);
  }

  lemma TakersDiffer(c: Config, s: State, u: nat, r: nat)
    requires Inv(c, s) && u < c.servers && r < c.servers && u != r
    requires Taking(s.servers[u].pc) || Serving(s.servers[u].pc)
    requires Taking(s.servers[r].pc) || Serving(s.servers[r].pc)
    ensures s.servers[u].consHead != s.servers[r].consHead
  {
    assert ServerOK(c, s, u) && ServerOK(c, s, r);
  }

  /** A server that keeps its ticket and its role loses nothing. */
  lemma NothingLostSame(s: State, s': State, u: nat)
    requires NothingLost(s) && u < |s.servers| && |s'.servers| == |s.servers|
    requires s'.servers == s.servers[u := s'.servers[u]] && s'.clients == s.clients
    requires Taking(s'.servers[u].pc) == Taking(s.servers[u].pc) &&
      Serving(s'.servers[u].pc) == Serving(s.servers[u].pc)
    requires Taking(s.servers[u].pc) || Serving(s.servers[u].pc) ==> s'.servers[u].consHead == s.servers[u].consHead
    requires s'.pHead == s.pHead && s'.pTail == s.pTail && s'.cHead == s.cHead && s'.cTail == s.cTail
    requires s'.owner == s.owner && s'.taker == s.taker && s'.done == s.done
    ensures NothingLost(s')
  {
    forall x: nat | s'.cTail <= x < s'.cHead ensures BeingTaken(s', x) {
      assert BeingTaken(s, x);
    }
    forall x: nat | x < s'.cTail && x !in s'.done ensures BeingServed(s', x) {
      assert BeingServed(s, x);
    }
    forall x: nat | s'.pTail <= x < s'.pHead ensures BeingPublished(s', x) {
      assert BeingPublished(s, x);
    }
  }

  /** ring_get between its writes to shared memory. */
  lemma GetLocalStep(c: Config, s: State, u: nat)
    requires Inv(c, s) && Shape(c, s) && u < c.servers
    requires var pc := s.servers[u].pc;
      pc.GetHead? || pc.GetTail? || pc.GetWait? || (pc.GetCas? && s.cHead != s.servers[u].consHead)
    ensures Inv(c, ServerStep(c, s, u))
  {
    hide ClientOK, ResultsOK, WindowOK, BoardOK, EntryOK, LogOK, BufferOK, OwnersOK, OwnerOK, NothingLost;
    var s' := ServerStep(c, s, u);
    assert ServerOK(c, s, u);
    if s.servers[u].pc.GetWait? {
      OwnerThread(c, s, s.servers[u].consHead);
      OwnerFrame(c, s, s', s.servers[u].consHead);
    }
    assert ServerOK(c, s', u);
    forall r | 0 <= r < c.servers && r != u && Taking(s.servers[r].pc) ensures s'.cTail <= s.servers[r].consHead {
      ServerBounds(c, s, r);
    }
    NothingLostSame(s, s', u);
    ServerQuiet(c, s, s', u);
  }

  /** The winner of the compare-and-swap takes a published ticket. */
  lemma GetCasStep(c: Config, s: State, u: nat)
    requires Inv(c, s) && Shape(c, s) && u < c.servers && s.servers[u].pc.GetCas? && s.cHead == s.servers[u].consHead
    ensures Inv(c, ServerStep(c, s, u))
  {
    hide ClientOK, ResultsOK, WindowOK, BoardOK, EntryOK, LogOK, BufferOK;
    var s' := ServerStep(c, s, u);
    assert ServerOK(c, s, u);
    assert OwnerOK(c, s, s.cHead);
    OwnerFrame(c, s, s', s.cHead);
    assert ServerOK(c, s', u);
    forall r | 0 <= r < c.servers && r != u && Taking(s.servers[r].pc) ensures s'.cTail <= s.servers[r].consHead {
      ServerBounds(c, s, r);
    }
    forall x: nat | s'.pTail <= x < s'.pHead ensures BeingPublished(s', x) {
      assert BeingPublished(s, x);
    }
    forall x: nat | s'.cTail <= x < s'.cHead ensures BeingTaken(s', x) {
      if x < s.cHead {
        assert BeingTaken(s, x);
      }
    }
    forall x: nat | x < s'.cTail && x !in s'.done ensures BeingServed(s', x) {
      assert BeingServed(s, x);
    }
    ServerQuiet(c, s, s', u);
  }

  /** Every word that a consumer copies is the item's. */
  lemma GetCopyStep(c: Config, s: State, u: nat)
    requires Inv(c, s) && Shape(c, s) && u < c.servers && s.servers[u].pc.GetCopy?
    ensures Inv(c, ServerStep(c, s, u))
  {
    hide ClientOK, ResultsOK, WindowOK, BoardOK, EntryOK, LogOK, OwnersOK, NothingLost;
    var s' := ServerStep(c, s, u);
    assert ServerOK(c, s, u);
    OwnerFrame(c, s, s', s.servers[u].consHead);
    assert s.buffer[s.servers[u].consHead % RING_SIZE] == TicketItem(c, s, s.servers[u].consHead);
    assert ServerOK(c, s', u);
    forall r | 0 <= r < c.servers && r != u && Taking(s.servers[r].pc) ensures s'.cTail <= s.servers[r].consHead {
      ServerBounds(c, s, r);
    }
    NothingLostSame(s, s', u);
    ServerQuiet(c, s, s', u);
  }

  /** Advancing the consumer tail releases a completely read slot. */
  lemma GetBumpStep(c: Config, s: State, u: nat)
    requires Inv(c, s) && Shape(c, s) && u < c.servers && s.servers[u].pc.GetBump?
    ensures Inv(c, ServerStep(c, s, u))
  {
    hide ClientOK, ResultsOK, WindowOK, BoardOK, EntryOK, LogOK, BufferOK, OwnersOK;
    var s' := ServerStep(c, s, u);
    assert ServerOK(c, s, u);
    OwnerFrame(c, s, s', s.servers[u].consHead);
    NotDoneYet(c, s, s.servers[u].consHead);
    assert ServerOK(c, s', u);
    forall r | 0 <= r < c.servers && r != u && Taking(s.servers[r].pc) ensures s'.cTail <= s.servers[r].consHead {
      ServerBounds(c, s, r);
      TakersDiffer(c, s, u, r);
    }
    forall x: nat | s'.pTail <= x < s'.pHead ensures BeingPublished(s', x) {
      assert BeingPublished(s, x);
    }
    forall x: nat | s'.cTail <= x < s'.cHead ensures BeingTaken(s', x) {
      assert BeingTaken(s, x);
    }
    forall x: nat | x < s'.cTail && x !in s'.done ensures BeingServed(s', x) {
      if x < s.cTail {
        assert BeingServed(s, x);
      }
    }
    ServerQuiet(c, s, s', u);
  }

  /** A new entry of the log: the store and its replay move together. */
  lemma LogAppend(c: Config, s: State, s': State, e: Served)
    requires ValidConfig(c) && Grows(s, s') && LogOK(c, s) && s'.log == s.log + [e]
    requires e.ticket !in s.at && s'.at == s.at[e.ticket := |s.log|] && s'.done == s.done && s'.cTail == s.cTail
    requires e.ticket < s.cTail && e.ticket < |s.owner| && s.owner[e.ticket].thread < c.threads &&
      s.owner[e.ticket].index < c.n
    requires Request(e.t, e.k, e.v) == c.reqs[s.owner[e.ticket].thread][s.owner[e.ticket].index]
    requires e.t == GET ==> e.answer == Lookup(s.kv, e.k)
    requires s'.kv == if e.t == PUT then s.kv[e.k := e.v] else s.kv
    ensures LogOK(c, s')
  {
    assert s'.log[..|s.log|] == s.log;
    forall p | 0 <= p < |s'.log| ensures EntryOK(c, s', p) {
      if p < |s.log| {
        assert EntryOK(c, s, p);
        assert s'.log[..p] == s.log[..p];
      }
    }
  }

  lemma WindowHolds(c: Config, s: State, t: nat, i: nat)
    requires Inv(c, s) && t < c.threads && InWindow(c, s, t, i)
    ensures WindowOK(c, s, t, i)
  {
  }

  /** put or get on the store, with the answer entered into the log. */
  lemma ExecStep(c: Config, s: State, u: nat)
    requires Inv(c, s) && Shape(c, s) && u < c.servers && s.servers[u].pc.Exec?
    ensures Inv(c, ServerStep(c, s, u))
  {
    hide ClientOK, ResultsOK, WindowOK, BoardOK, EntryOK, LogOK, BufferOK, OwnersOK, NothingLost, SlotOf;
    var s' := ServerStep(c, s, u);
    var sv := s.servers[u];
    assert ServerOK(c, s, u);
    var o := s.owner[sv.consHead];
    assert AllKinds(c.reqs[o.thread]);
    assert s'.log[|s.log|].ticket == sv.consHead;
    LogAppend(c, s, s', s'.log[|s.log|]);
    OwnerFrame(c, s, s', sv.consHead);
    OffsetDecodes(c, o.thread, o.index);
    SlotInBoard(c, o.thread, o.index);
    assert ServerOK(c, s', u);
    forall t, i | 0 <= t < c.threads && InWindow(c, s, t, i) ensures WindowOK(c, s', t, i) {
      WindowHolds(c, s, t, i);
      WindowFrame(c, s, s', t, i);
    }
    forall r | 0 <= r < c.servers && r != u
      ensures Taking(s.servers[r].pc) ==> s'.cTail <= s.servers[r].consHead
      ensures Serving(s.servers[r].pc) ==>
                s.servers[r].consHead !in s'.done && (s.servers[r].consHead in s'.at ==> s.servers[r].consHead in s.at)
      ensures ServerShape(s, s.servers[r])
    {
      ServerBounds(c, s, r);
      if Serving(s.servers[r].pc) {
        TakersDiffer(c, s, u, r);
      }
    }
    NothingLostSame(s, s', u);
    ServerShared(c, s, s', u);
  }

  /** Where a serving server writes: the window of the request behind its ticket. */
  lemma ServingWindow(c: Config, s: State, u: nat)
    requires Inv(c, s) && u < c.servers && Serving(s.servers[u].pc)
    ensures var sv := s.servers[u];
      && sv.consHead < |s.owner| && sv.consHead < s.cTail && sv.consHead !in s.done
      && var o := s.owner[sv.consHead];
        && o.thread < c.threads && o.index < c.n && InWindow(c, s, o.thread, o.index)
        && o.index < |s.clients[o.thread].tickets| && s.clients[o.thread].tickets[o.index] == sv.consHead
        && sv.buf == Item(c, o.thread, o.index)
        && SlotAt(sv.buf[RES_OFF]) == SlotOf(c, o.thread, o.index) < |s.board|
  {
    assert ServerOK(c, s, u);
    var x := s.servers[u].consHead;
    OutstandingInWindow(c, s, x);
    OffsetDecodes(c, s.owner[x].thread, s.owner[x].index);
    SlotInBoard(c, s.owner[x].thread, s.owner[x].index);
  }

  /** A write to the window of a ticket disturbs no other server and no client that is acknowledging. */
  lemma BoardStepOthers(c: Config, s: State, s': State, u: nat, d: Desc)
    requires Inv(c, s) && u < c.servers && Serving(s.servers[u].pc)
    requires 0 <= SlotAt(s.servers[u].buf[RES_OFF]) < |s.board|
    requires s'.board == s.board[SlotAt(s.servers[u].buf[RES_OFF]) := d] && |s'.clients| == |s.clients|
    requires s'.cTail == s.cTail && s'.at == s.at && s.done <= s'.done <= s.done + {s.servers[u].consHead}
    ensures forall r :: 0 <= r < c.servers && r != u ==>
               && (Taking(s.servers[r].pc) ==> s'.cTail <= s.servers[r].consHead)
               && (Serving(s.servers[r].pc) ==> s.servers[r].consHead !in s'.done)
               && (Serving(s.servers[r].pc) ==>
                     var x := SlotAt(s.servers[r].buf[RES_OFF]);
                     0 <= x < |s.board| && s'.board[x] == s.board[x])
    ensures forall t :: 0 <= t < c.threads && Acking(s.clients[t].pc) ==>
               Window(c, s', t, s.clients[t].lastCompleted) == Window(c, s, t, s.clients[t].lastCompleted)
  {
    hide Inv, SlotOf;
    InvSizes(c, s);
    ServingWindow(c, s, u);
    var o := s.owner[s.servers[u].consHead];
    forall r | 0 <= r < c.servers && r != u
      ensures Taking(s.servers[r].pc) ==> s'.cTail <= s.servers[r].consHead
      ensures Serving(s.servers[r].pc) ==> s.servers[r].consHead !in s'.done
      ensures Serving(s.servers[r].pc) ==>
                var x := SlotAt(s.servers[r].buf[RES_OFF]); 0 <= x < |s.board| && s'.board[x] == s.board[x]
    {
      ServerHolds(c, s, r);
      ServerBounds(c, s, r);
      if Serving(s.servers[r].pc) {
        ServingWindow(c, s, r);
        TakersDiffer(c, s, u, r);
        var q := s.owner[s.servers[r].consHead];
        BoardWrite(c, s, s'.board, o.thread, o.index, d, q.thread, q.index);
      }
    }
    forall t | 0 <= t < c.threads && Acking(s.clients[t].pc)
      ensures Window(c, s', t, s.clients[t].lastCompleted) == Window(c, s, t, s.clients[t].lastCompleted)
    {
      AckedIsDone(c, s, t);
      BoardWrite(c, s, s'.board, o.thread, o.index, d, t, s.clients[t].lastCompleted);
    }
  }

  lemma InvSizes(c: Config, s: State)
    requires Inv(c, s)
    ensures ValidConfig(c) && |s.clients| == c.threads && |s.servers| == c.servers
    ensures |s.board| == c.threads * c.win && |s.buffer| == RING_SIZE
  {
  }

  lemma ServerHolds(c: Config, s: State, u: nat)
    requires Inv(c, s) && u < c.servers
    ensures ServerOK(c, s, u)
  {
  }

  lemma AckedIsDone(c: Config, s: State, t: nat)
    requires Inv(c, s) && t < c.threads && Acking(s.clients[t].pc)
    ensures var cl := s.clients[t];
      && cl.lastCompleted < |cl.tickets| && cl.tickets[cl.lastCompleted] in s.done &&
         InWindow(c, s, t, cl.lastCompleted)
  {
    assert ClientOK(c, s, t);
  }

  /** The written window itself. */
  lemma WrittenWindow(c: Config, s: State, s': State, u: nat, t: nat, i: nat)
    requires Inv(c, s) && u < c.servers && Serving(s.servers[u].pc) && !s.servers[u].pc.Exec?
    requires s.servers[u].consHead < |s.owner| && s.owner[s.servers[u].consHead] == Owner(t, i) &&
      s'.clients == s.clients && |s'.board| == |s.board|
    requires s'.log == s.log && s'.at == s.at && t < c.threads
    requires if s'.done == s.done then Window(c, s', t, i)[READY] == Window(c, s, t, i)[READY]
             else s'.done == s.done + {s.servers[u].consHead} && s.servers[u].pc.SetReady?
                  && Window(c, s', t, i) == Window(c, s, t, i)[READY := 1]
    ensures WindowOK(c, s', t, i)
  {
    ServingWindow(c, s, u);
    assert WindowOK(c, s, t, i) && ServerOK(c, s, u) && ClientOK(c, s, t);
    if s'.done != s.done {
      assert Answers(c, s', Window(c, s', t, i), t, i, s.servers[u].consHead);
    }
  }

  /** The answer goes into the window of its own request; the others are left alone. */
  lemma BoardStepWindows(c: Config, s: State, u: nat)
    requires Inv(c, s) && Shape(c, s) && u < c.servers && Serving(s.servers[u].pc) && !s.servers[u].pc.Exec?
    ensures forall t, i :: 0 <= t < c.threads && InWindow(c, s, t, i) ==> WindowOK(c, ServerStep(c, s, u), t, i)
  {
    hide ClientOK, ResultsOK, WindowOK, BoardOK, EntryOK, LogOK, BufferOK, OwnersOK, OwnerOK, SlotOf, SlotAt;
    hide NothingLost;
    var s' := ServerStep(c, s, u);
    var sv := s.servers[u];
    ServingWindow(c, s, u);
    assert ServerOK(c, s, u);
    var o := s.owner[sv.consHead];
    var slot := SlotOf(c, o.thread, o.index);
    var d := s'.board[slot];
    assert s'.board == s.board[slot := d];
    forall t, i | 0 <= t < c.threads && InWindow(c, s, t, i) ensures WindowOK(c, s', t, i) {
      BoardWrite(c, s, s'.board, o.thread, o.index, d, t, i);
      if t == o.thread && i == o.index {
        WrittenWindow(c, s, s', u, t, i);
      } else {
        WindowHolds(c, s, t, i);
        OtherTicket(c, s, sv.consHead, t, i);
        WindowFrame(c, s, s', t, i);
      }
    }
  }

  /** The result words and the ready flag of a request reach its own window. */
  lemma BoardStep(c: Config, s: State, u: nat)
    requires Inv(c, s) && Shape(c, s) && u < c.servers && Serving(s.servers[u].pc) && !s.servers[u].pc.Exec?
    ensures Inv(c, ServerStep(c, s, u))
  {
    hide ClientOK, ResultsOK, WindowOK, BoardOK, EntryOK, LogOK, BufferOK, OwnersOK, OwnerOK, SlotOf, SlotAt;
    hide NothingLost;
    var s' := ServerStep(c, s, u);
    var sv := s.servers[u];
    ServingWindow(c, s, u);
    assert ServerOK(c, s, u);
    var o := s.owner[sv.consHead];
    var slot := SlotOf(c, o.thread, o.index);
    var d := s'.board[slot];
    assert s'.board == s.board[slot := d];
    OwnerFrame(c, s, s', sv.consHead);
    assert ServerOK(c, s', u);
    BoardStepWindows(c, s, u);
    BoardStepOthers(c, s, s', u, d);
    LogFrameDone(c, s, s', sv.consHead);
    if sv.pc.SetReady? {
      NothingLostDone(s, s', u);
    } else {
      NothingLostSame(s, s', u);
    }
    ServerShared(c, s, s', u);
  }

  lemma NothingLostDone(s: State, s': State, u: nat)
    requires NothingLost(s) && u < |s.servers| && |s'.servers| == |s.servers|
    requires s'.servers == s.servers[u := s'.servers[u]] && s'.clients == s.clients
    requires Serving(s.servers[u].pc) && !Taking(s'.servers[u].pc)
    requires s'.pHead == s.pHead && s'.pTail == s.pTail && s'.cHead == s.cHead && s'.cTail == s.cTail
    requires s'.owner == s.owner && s'.taker == s.taker && s'.done == s.done + {s.servers[u].consHead}
    ensures NothingLost(s')
  {
    forall x: nat | s'.cTail <= x < s'.cHead ensures BeingTaken(s', x) {
      assert BeingTaken(s, x);
    }
    forall x: nat | x < s'.cTail && x !in s'.done ensures BeingServed(s', x) {
      assert BeingServed(s, x);
    }
    forall x: nat | s'.pTail <= x < s'.pHead ensures BeingPublished(s', x) {
      assert BeingPublished(s, x);
    }
  }

  lemma OtherTicket(c: Config, s: State, x: nat, t: nat, i: nat)
    requires Inv(c, s) && x < |s.owner| && t < c.threads && s.owner[x] != Owner(t, i)
    ensures i < |s.clients[t].tickets| ==> s.clients[t].tickets[i] != x
  {
    assert ClientOK(c, s, t);
  }

  lemma LogFrameDone(c: Config, s: State, s': State, x: nat)
    requires ValidConfig(c) && Grows(s, s') && LogOK(c, s)
    requires s'.log == s.log && s'.at == s.at && s'.kv == s.kv && s'.done <= s.done + {x}
    requires x < s'.cTail && x in s.at
    ensures LogOK(c, s')
  {
    LogFrame(c, s, s');
  }

  lemma ServerInv(c: Config, s: State, u: nat)
    requires Inv(c, s) && Shape(c, s) && u < c.servers
    ensures Inv(c, ServerStep(c, s, u))
  {
    hide Inv;
    match s.servers[u].pc
    case GetCas =>
      if s.cHead == s.servers[u].consHead { GetCasStep(c, s, u); } else { GetLocalStep(c, s, u); }
    case GetCopy(_) => GetCopyStep(c, s, u);
    case GetBump => GetBumpStep(c, s, u);
    case Exec => ExecStep(c, s, u);
    case WriteK => BoardStep(c, s, u);
    case WriteV => BoardStep(c, s, u);
    case SetReady => BoardStep(c, s, u);
    case _ => GetLocalStep(c, s, u);
  }

  // --- Runs ---

  datatype Actor = ClientThread(t: nat) | ServerThread(u: nat)

  predicate ValidActor(c: Config, a: Actor) {
    match a
    case ClientThread(t) => t < c.threads
    case ServerThread(u) => u < c.servers
  }

  ghost function Step(c: Config, s: State, a: Actor): State
    requires Shape(c, s) && ValidActor(c, a)
  {
    match a
    case ClientThread(t) => ClientStep(c, s, t)
    case ServerThread(u) => ServerStep(c, s, u)
  }

  lemma StepInv(c: Config, s: State, a: Actor)
    requires Inv(c, s) && Fits(c) && ValidActor(c, a)
    ensures Shape(c, s) && Inv(c, Step(c, s, a))
  {
    hide Inv, Shape;
    InvShape(c, s);
    match a
    case ClientThread(t) => ClientInv(c, s, t);
    case ServerThread(u) => ServerInv(c, s, u);
  }

  lemma InitInv(c: Config)
    requires ValidConfig(c)
    ensures Inv(c, Init(c))
  {
    var s := Init(c);
    forall t | 0 <= t < c.threads ensures ClientOK(c, s, t) && ResultsOK(c, s, t) {
      assert s.clients[t].tickets == [];
    }
    forall t, i | 0 <= t < c.threads && s.clients[t].lastCompleted <= i < s.clients[t].lastCompleted + c.win
      ensures WindowOK(c, s, t, i)
    {
      SlotInBoard(c, t, i);
    }
  }

  /** `schedule[k]` is the thread that makes the k-th step; it leads from `s` to `s'`. */
  ghost predicate Reaches(c: Config, s: State, schedule: seq<Actor>, s': State)
    decreases |schedule|
  {
    if schedule == [] then s == s'
    else Shape(c, s) && ValidActor(c, schedule[0]) && Reaches(c, Step(c, s, schedule[0]), schedule[1..], s')
  }

  /** The invariant holds after every interleaving. */
  lemma {:induction false} ReachesInv(c: Config, s: State, schedule: seq<Actor>, s': State)
    requires Inv(c, s) && Fits(c) && Reaches(c, s, schedule, s')
    ensures Inv(c, s')
    decreases |schedule|
  {
    if schedule != [] {
      StepInv(c, s, schedule[0]);
      ReachesInv(c, Step(c, s, schedule[0]), schedule[1..], s');
    }
  }

  /** Every interleaving can be executed: no step ever leaves the arrays. */
  ghost function Run(c: Config, s: State, schedule: seq<Actor>): (s': State)
    requires Inv(c, s) && Fits(c) && forall k :: 0 <= k < |schedule| ==> ValidActor(c, schedule[k])
    ensures Inv(c, s') && Reaches(c, s, schedule, s')
    decreases |schedule|
  {
    if schedule == [] then s
    else
      StepInv(c, s, schedule[0]);
      Run(c, Step(c, s, schedule[0]), schedule[1..])
  }

  /** Reachable from the initial state. */
  ghost predicate Reachable(c: Config, s: State) {
    ValidConfig(c) && exists schedule :: Reaches(c, Init(c), schedule, s)
  }

  lemma ReachableInv(c: Config, s: State)
    requires Fits(c) && Reachable(c, s)
    ensures Inv(c, s)
  {
    var schedule :| Reaches(c, Init(c), schedule, s);
    InitInv(c);
    ReachesInv(c, Init(c), schedule, s);
  }
}
