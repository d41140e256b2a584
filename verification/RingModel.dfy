/** The shared ring, the windowed client threads and the key-value server threads as one state machine
    whose steps are single atomic loads, stores, compare-and-swaps and fetch-adds. Each thread's
    program is deterministic, so a run is given by a schedule: which thread moves next.
    Head and tail counters are natural numbers; a buffer descriptor is its five words. */
module RingModel {
  const RING_SIZE: nat := 1024
  const WORDS: nat := 5

  // struct buffer_descriptor
  const REQ_TYPE: nat := 0
  const K: nat := 1
  const V: nat := 2
  const RES_OFF: nat := 3
  const READY: nat := 4

  const PUT: int := 0
  const GET: int := 1

  const DESC_BYTES: nat := 20
  const RING_BYTES: nat := 256 + RING_SIZE * DESC_BYTES   // four padded counters, then the buffer

  type Desc = d: seq<int> | |d| == WORDS witness [0, 0, 0, 0, 0]
  const ZERO: Desc := [0, 0, 0, 0, 0]

  datatype Request = Request(t: int, k: int, v: int)

  /** `n` requests for each of `threads` clients with `win` windows each. */
  datatype Config = Config(threads: nat, win: nat, n: nat, servers: nat, reqs: seq<seq<Request>>)

  predicate ValidConfig(c: Config) {
    && c.threads > 0 && c.win > 0 && |c.reqs| == c.threads
    && forall t :: 0 <= t < c.threads ==> |c.reqs[t]| == c.n && AllKinds(c.reqs[t])
  }

  predicate AllKinds(rs: seq<Request>) {
    forall i :: 0 <= i < |rs| ==> rs[i].t == PUT || rs[i].t == GET
  }

  /** Where a client thread is: thread_function (Top), submit_reqs (Submit), ring_submit (LoadHead to Bump)
      and process_completions (Check to Ack). Copies go word by word. */
  datatype ClientPc =
    | Top | Submit
    | LoadHead | LoadTail | Cas | Copy(w: nat) | WaitTail | Bump
    | Check | Reset | CopyRes(w: nat) | Ack | Finished

  datatype Client = Client(
    pc: ClientPc,
    lastSubmitted: nat,
    lastCompleted: nat,
    nxtComp: nat,
    prodHead: nat,
    bd: Desc,
    res: seq<Desc>,
    tickets: seq<nat>)          // history: the ring ticket of each request so far

  /** Where a server thread is: ring_get (GetHead to GetBump), then thread_func. */
  datatype ServerPc =
    | GetHead | GetTail | GetCas | GetCopy(w: nat) | GetWait | GetBump
    | Exec | WriteK | WriteV | SetReady

  datatype Server = Server(pc: ServerPc, consHead: nat, prodTail: nat, buf: Desc, ret: int)

  /** History: a served request and what the store answered. */
  datatype Served = Served(ticket: nat, t: int, k: int, v: int, answer: int)

  datatype Owner = Owner(thread: nat, index: nat)

  datatype State = State(
    pHead: nat, pTail: nat, cHead: nat, cTail: nat,
    buffer: seq<Desc>,
    board: seq<Desc>,             // the request-status board
    clients: seq<Client>,
    servers: seq<Server>,
    kv: map<int, int>,
    owner: seq<Owner>,            // history: who published each ticket
    taker: seq<nat>,              // history: which server took each ticket
    log: seq<Served>,             // history: requests in the order the store served them
    at: map<nat, nat>,            // history: position of a ticket in the log
    done: set<nat>)               // history: tickets whose ready flag has been set

  function Init(c: Config): State {
    State(0, 0, 0, 0,
          seq(RING_SIZE, _ => ZERO),
          seq(c.threads * c.win, _ => ZERO),
          seq(c.threads, _ => Client(Top, 0, 0, 0, 0, ZERO, seq(c.n, _ => ZERO), [])),
          seq(c.servers, _ => Server(GetHead, 0, 0, ZERO, 0)),
          map[], [], [], [], map[], {})
  }

  /** The board slot of request `i` of thread `t`, and its byte offset in the shared memory. */
  function SlotOf(c: Config, t: nat, i: nat): nat
    requires c.win > 0
  {
    t * c.win + i % c.win
  }

  function OffsetOf(c: Config, t: nat, i: nat): nat
    requires c.win > 0
  {
    RING_BYTES + t * c.win * DESC_BYTES + (i % c.win) * DESC_BYTES
  }

  function SlotAt(offset: int): int {
    (offset - RING_BYTES) / DESC_BYTES
  }

  /** The descriptor that submit_reqs builds for request `i` of thread `t`. */
  function Item(c: Config, t: nat, i: nat): Desc
    requires ValidConfig(c) && t < c.threads && i < c.n
  {
    var r := c.reqs[t][i];
    [r.t, r.k, r.v, OffsetOf(c, t, i), 0]
  }

  function Lookup(kv: map<int, int>, k: int): int {
    if k in kv then kv[k] else 0
  }

  /** The store after the served requests, one after the other. */
  function Replay(log: seq<Served>): map<int, int> {
    if log == [] then map[]
    else
      var kv := Replay(log[..|log| - 1]);
      var e := log[|log| - 1];
      if e.t == PUT then kv[e.k := e.v] else kv
  }

  /** Sizes and indices that make every step well-defined. */
  ghost predicate Shape(c: Config, s: State) {
    && ValidConfig(c)
    && |s.buffer| == RING_SIZE && |s.board| == c.threads * c.win
    && |s.clients| == c.threads && |s.servers| == c.servers
    && (forall t :: 0 <= t < c.threads ==> ClientShape(c, s.clients[t]))
    && (forall u :: 0 <= u < c.servers ==> ServerShape(s, s.servers[u]))
  }

  ghost predicate ClientShape(c: Config, cl: Client) {
    && cl.nxtComp < c.win && |cl.res| == c.n
    && (cl.pc.Copy? ==> cl.pc.w < WORDS)
    && (cl.pc.CopyRes? ==> cl.pc.w < WORDS)
  }

  ghost predicate ServerShape(s: State, sv: Server) {
    && (sv.pc.GetCopy? ==> sv.pc.w < WORDS)
    && (sv.pc.WriteK? || sv.pc.WriteV? || sv.pc.SetReady? ==> 0 <= SlotAt(sv.buf[RES_OFF]) < |s.board|)
  }

  function SetClient(s: State, t: nat, cl: Client): State
    requires t < |s.clients|
  {
    s.(clients := s.clients[t := cl])
  }

  function SetServer(s: State, u: nat, sv: Server): State
    requires u < |s.servers|
  {
    s.(servers := s.servers[u := sv])
  }

  /** One word of res[i]. The index is in range in every reachable state (`Inv` in `RingSafety`). */
  function StoreWord(res: seq<Desc>, i: nat, w: nat, x: int): (r: seq<Desc>)
    requires w < WORDS
    ensures |r| == |res|
  {
    if i < |res| then res[i := res[i][w := x]] else res
  }

  /** The board slot that client `t` polls: comps[nxt_comp] of its own window. */
  function PollSlot(c: Config, t: nat, cl: Client): nat {
    t * c.win + cl.nxtComp
  }

  lemma {:induction false} MulMono(a: nat, b: nat, w: nat)
    requires a <= b
    ensures a * w <= b * w
  {
    if a < b {
      MulMono(a, b - 1, w);
      assert b * w == (b - 1) * w + w;
    }
  }

  lemma PollInBoard(c: Config, t: nat, cl: Client)
    requires t < c.threads && cl.nxtComp < c.win
    ensures PollSlot(c, t, cl) < c.threads * c.win
  {
    MulMono(t + 1, c.threads, c.win);
    assert (t + 1) * c.win == t * c.win + c.win;
  }

  /** One atomic step of client thread `t`. */
  ghost function ClientStep(c: Config, s: State, t: nat): State
    requires Shape(c, s) && t < c.threads
  {
    var cl := s.clients[t];
    PollInBoard(c, t, cl);
    match cl.pc
    case Top =>
      SetClient(s, t, cl.(pc := if cl.lastSubmitted < c.n then Submit
                                else if cl.lastCompleted < c.n then Check else Finished))
    case Submit =>
      if cl.lastSubmitted - cl.lastCompleted < c.win && cl.lastSubmitted < c.n then
        SetClient(s, t, cl.(pc := LoadHead, bd := Item(c, t, cl.lastSubmitted)))
      else SetClient(s, t, cl.(pc := Check))
    case LoadHead =>
      SetClient(s, t, cl.(pc := LoadTail, prodHead := s.pHead))
    case LoadTail =>
      SetClient(s, t, cl.(pc := if cl.prodHead + 1 == s.cTail then LoadHead else Cas))
    case Cas =>
      if s.pHead == cl.prodHead then
        SetClient(s, t, cl.(pc := Copy(0), tickets := cl.tickets + [s.pHead]))
          .(pHead := s.pHead + 1, owner := s.owner + [Owner(t, cl.lastSubmitted)])
      else SetClient(s, t, cl.(pc := LoadHead))
    case Copy(w) =>
      var x := cl.prodHead % RING_SIZE;
      SetClient(s, t, cl.(pc := if w + 1 < WORDS then Copy(w + 1) else WaitTail))
        .(buffer := s.buffer[x := s.buffer[x][w := cl.bd[w]]])
    case WaitTail =>
      if s.pTail == cl.prodHead then SetClient(s, t, cl.(pc := Bump)) else s
    case Bump =>
      SetClient(s, t, cl.(pc := Submit, lastSubmitted := cl.lastSubmitted + 1)).(pTail := s.pTail + 1)
    case Check =>
      SetClient(s, t, cl.(pc := if s.board[PollSlot(c, t, cl)][READY] == 1 then Reset else Top))
    case Reset =>
      var x := PollSlot(c, t, cl);
      SetClient(s, t, cl.(pc := CopyRes(0)))
        .(board := s.board[x := s.board[x][READY := 0]])
    case CopyRes(w) =>
      SetClient(s, t, cl.(pc := if w + 1 < WORDS then CopyRes(w + 1) else Ack,
                          res := StoreWord(cl.res, cl.lastCompleted, w, s.board[PollSlot(c, t, cl)][w])))
    case Ack =>
      SetClient(s, t, cl.(pc := Check, lastCompleted := cl.lastCompleted + 1, nxtComp := (cl.nxtComp + 1) % c.win))
    case Finished => s
  }

  /** One atomic step of server thread `u`; put and get are atomic on the store. */
  ghost function ServerStep(c: Config, s: State, u: nat): State
    requires Shape(c, s) && u < c.servers
  {
    var sv := s.servers[u];
    match sv.pc
    case GetHead =>
      SetServer(s, u, sv.(pc := GetTail, consHead := s.cHead))
    case GetTail =>
      SetServer(s, u, sv.(pc := if sv.consHead == s.pTail then GetHead else GetCas, prodTail := s.pTail))
    case GetCas =>
      if s.cHead == sv.consHead then
        SetServer(s, u, sv.(pc := GetCopy(0))).(cHead := s.cHead + 1, taker := s.taker + [u])
      else SetServer(s, u, sv.(pc := GetHead))
    case GetCopy(w) =>
      SetServer(s, u, sv.(pc := if w + 1 < WORDS then GetCopy(w + 1) else GetWait,
                          buf := sv.buf[w := s.buffer[sv.consHead % RING_SIZE][w]]))
    case GetWait =>
      if s.cTail == sv.consHead then SetServer(s, u, sv.(pc := GetBump)) else s
    case GetBump =>
      SetServer(s, u, sv.(pc := Exec)).(cTail := s.cTail + 1)
    case Exec =>
      var k, v := sv.buf[K], sv.buf[V];
      if sv.buf[REQ_TYPE] == PUT then
        SetServer(s, u, sv.(pc := WriteK))
          .(kv := s.kv[k := v], log := s.log + [Served(sv.consHead, PUT, k, v, v)], at := s.at[sv.consHead := |s.log|])
      else if sv.buf[REQ_TYPE] == GET then
        var a := Lookup(s.kv, k);
        SetServer(s, u, sv.(pc := WriteK, ret := a))
          .(log := s.log + [Served(sv.consHead, GET, k, v, a)], at := s.at[sv.consHead := |s.log|])
      else SetServer(s, u, sv.(pc := GetHead))
    case WriteK =>
      var x := SlotAt(sv.buf[RES_OFF]);
      SetServer(s, u, sv.(pc := if sv.buf[REQ_TYPE] == GET then WriteV else SetReady))
        .(board := s.board[x := s.board[x][K := sv.buf[K]]])
    case WriteV =>
      var x := SlotAt(sv.buf[RES_OFF]);
      SetServer(s, u, sv.(pc := SetReady)).(board := s.board[x := s.board[x][V := sv.ret]])
    case SetReady =>
      var x := SlotAt(sv.buf[RES_OFF]);
      SetServer(s, u, sv.(pc := GetHead))
        .(board := s.board[x := s.board[x][READY := 1]], done := s.done + {sv.consHead})
  }
}
