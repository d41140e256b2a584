/** umalloc.c: malloc and free over a flat memory of header-sized units. */
module Umalloc {
  import opened FreeList

  const WORD := 0x1_0000_0000                // values of an unsigned int
  const KERNBASE := 0x8000_0000              // no process grows to here
  const UNIT := 8                            // sizeof(Header)
  const LIMIT: nat := KERNBASE / UNIT
  const CHUNK := 4096                        // the least that morecore asks for

  /** One unit: the fields of a header, or whatever the program stores in a payload. */
  datatype Unit = Unit(ptr: nat, size: nat)

  /** How malloc ends. Overrun: sbrk was called with a number that is not positive, added no memory, and
      morecore goes on to store a header above the break. */
  datatype Outcome = Allocated(ap: nat) | OutOfMemory | Overrun

  /** How sbrk ends: with new memory at `p`, without (the process is full), or without because it was not
      asked for any, and then the break may have moved down. */
  datatype Core = Granted(p: nat) | Refused | Nothing

  /** `(nbytes + sizeof(Header) - 1) / sizeof(Header) + 1` in unsigned arithmetic. */
  function UnitsFor(nbytes: nat): (n: nat)
    ensures n >= 1
  {
    (nbytes + UNIT - 1) % WORD / UNIT + 1
  }

  /** The header and the payload fit unless the rounding wraps around. */
  lemma {:induction false} UnitsEnough(nbytes: nat)
    requires nbytes < WORD
    ensures (UnitsFor(nbytes) - 1) * UNIT >= nbytes <==> nbytes <= WORD - UNIT
    ensures UnitsFor(nbytes) <= WORD / UNIT
    ensures 0 < nbytes <= WORD - UNIT ==> (UnitsFor(nbytes) - 2) * UNIT < nbytes
    ensures UnitsFor(0) == 1
  {
    if nbytes > WORD - UNIT {
      assert (nbytes + UNIT - 1) % WORD == nbytes + UNIT - 1 - WORD;
    }
  }

  /** An unsigned value seen as the int that sys_sbrk takes. */
  function ToInt(x: nat): int {
    if x % WORD >= WORD / 2 then x % WORD - WORD else x % WORD
  }

  function Asked(n: nat): nat {
    if n < CHUNK then CHUNK else n
  }

  /** The kernel sees a request for memory exactly below 2^28 units. */
  lemma {:induction false} SbrkSeesPositive(n: nat)
    requires n <= WORD / UNIT
    ensures ToInt(Asked(n) * UNIT) > 0 <==> n < LIMIT
    ensures n < LIMIT ==> ToInt(Asked(n) * UNIT) == Asked(n) * UNIT
  {
    var x := Asked(n) * UNIT;
    if n == WORD / UNIT {
      assert x == WORD;
    } else {
      assert x < WORD && x % WORD == x;
    }
  }

  const LARGEST: nat := KERNBASE - 2 * UNIT     // bytes

  /** The requests for which malloc keeps its promise: neither does the size wrap around to a block that is too
      small, nor does the kernel see a negative number of bytes. */
  lemma {:induction false} RequestsServed(nbytes: nat)
    requires nbytes < WORD
    ensures UnitsFor(nbytes) < LIMIT && (UnitsFor(nbytes) - 1) * UNIT >= nbytes <==> nbytes <= LARGEST
  {
    UnitsEnough(nbytes);
    if nbytes <= WORD - UNIT {
      if nbytes < WORD - UNIT + 1 {
        assert (nbytes + UNIT - 1) % WORD == nbytes + UNIT - 1;
      }
    }
  }

  /** A request near 2^32 bytes is answered with a block that has no payload at all; one just past the bound
      reaches the kernel as a request to shrink the process. */
  lemma HugeRequests()
    ensures UnitsFor(WORD - 1) == 1
    ensures UnitsFor(LARGEST + 1) == LIMIT && ToInt(Asked(LIMIT) * UNIT) < 0
  {
  }

  // ---------------------------------------------------------------- blocks in use

  ghost predicate Used(live: set<Block>, u: nat) {
    exists b :: b in live && In(b, u)
  }

  /** Free blocks, blocks in use and the units obtained from the kernel: the blocks overlap nowhere and
      make up exactly those units. */
  ghost predicate Sound(fs: seq<Block>, live: set<Block>, owned: set<nat>, brk: nat) {
    && Ordered(fs) && 0 < fs[0].addr < brk
    && (forall i :: 0 <= i < |fs| ==> fs[i].End() <= brk)
    && (forall b :: b in live ==> Clear(fs, b) && b.End() <= brk)
    && (forall b, c :: b in live && c in live && b != c ==> Apart(b, c))
    && (forall u: nat :: u in owned <==> IsFree(fs, u) || Used(live, u))
  }

  lemma {:induction false} InsertClear(fs: seq<Block>, b: Block, c: Block)
    requires Ordered(fs) && Clear(fs, b) && Clear(fs, c) && Apart(b, c)
    ensures fs[0].addr < b.addr && Clear(Insert(fs, Gap(fs, b.addr), b), c)
  {
    hide Gap, Ordered, Insert, Joined;
    Positive(fs, b);
    Positive(fs, c);
    var g := Gap(fs, b.addr);
    var r := Insert(fs, g, b);
    var at, up := Below(fs, g, b), Above(fs, g, b);
    InsertOrdered(fs, b);
    InsertSplit(fs, g, b);
    JoinedIs(fs, b);
    ClearGap(fs, b);
    forall i | 0 <= i < |r|
      ensures Apart(r[i], c)
    {
      InsertAt(fs, g, b, i);
      if i < at {
        assert Apart(fs[i], c);
      } else if i > at {
        assert Apart(fs[i - at - 1 + up], c);
      } else {
        assert Apart(fs[g], c);
        if g + 1 < |fs| {
          assert Apart(fs[g + 1], c);
        }
      }
    }
  }

  lemma {:induction false} TakeClear(fs: seq<Block>, k: nat, n: nat, c: Block)
    requires Ordered(fs) && k < |fs| && 1 <= n <= fs[k].size && Clear(fs, c)
    ensures Clear(Take(fs, k, n), c) && Apart(Cut(fs, k, n), c)
  {
    hide Ordered;
    TakeOrdered(fs, k, n);
    var r := Take(fs, k, n);
    assert Apart(fs[k], c);
    forall i | 0 <= i < |r|
      ensures Apart(r[i], c)
    {
      assert Apart(fs[if fs[k].size == n && i >= k then i + 1 else i], c);
    }
  }

  /** A block given back: the units stay owned, the rest stays in use. */
  lemma {:induction false} FreeKeepsSound(fs: seq<Block>, live: set<Block>, owned: set<nat>, brk: nat, b: Block)
    requires Sound(fs, live, owned, brk) && b in live
    ensures Clear(fs, b) && Sound(Insert(fs, Gap(fs, b.addr), b), live - {b}, owned, brk)
  {
    hide Gap, Ordered, Insert, Joined, Clear, IsFree;
    Positive(fs, b);
    var g := Gap(fs, b.addr);
    var r := Insert(fs, g, b);
    InsertOrdered(fs, b);
    JoinedIs(fs, b);
    forall i | 0 <= i < |r|
      ensures r[i].End() <= brk
    {
      InsertAt(fs, g, b, i);
    }
    forall c | c in live - {b}
      ensures Clear(r, c)
    {
      InsertClear(fs, b, c);
    }
    forall u: nat
      ensures u in owned <==> IsFree(r, u) || Used(live - {b}, u)
    {
      InsertUnits(fs, b, u);
      if Used(live, u) && !In(b, u) {
        var c :| c in live && In(c, u);
        assert c in live - {b};
      }
    }
  }

  /** A block cut from a free one and handed out. */
  lemma {:induction false} TakeKeepsSound(fs: seq<Block>, live: set<Block>, owned: set<nat>, brk: nat, k: nat, n: nat)
    requires Sound(fs, live, owned, brk) && k < |fs| && 1 <= n <= fs[k].size
    ensures Cut(fs, k, n) !in live
    ensures Sound(Take(fs, k, n), live + {Cut(fs, k, n)}, owned, brk)
  {
    hide Ordered, Clear, IsFree;
    var r, b := Take(fs, k, n), Cut(fs, k, n);
    TakeOrdered(fs, k, n);
    forall c | c in live
      ensures Clear(r, c) && Apart(b, c) && c != b
    {
      TakeClear(fs, k, n, c);
    }
    forall u: nat
      ensures u in owned <==> IsFree(r, u) || Used(live + {b}, u)
    {
      TakeUnits(fs, k, n, u);
      if Used(live, u) {
        var c :| c in live && In(c, u);
        assert c in live + {b};
      }
      if In(b, u) {
        assert b in live + {b};
      }
    }
  }

  /** Units the kernel adds at the break, taken as a block in use. */
  lemma {:induction false} GrowKeepsSound(fs: seq<Block>, live: set<Block>, owned: set<nat>, brk: nat, n: nat)
    requires Sound(fs, live, owned, brk) && n >= 1
    ensures Block(brk, n) !in live
    ensures Sound(fs, live + {Block(brk, n)}, owned + Units(Block(brk, n)), brk + n)
  {
    hide IsFree;
    var b := Block(brk, n);
    forall u: nat
      ensures u in owned + Units(b) <==> IsFree(fs, u) || Used(live + {b}, u)
    {
      if Used(live, u) {
        var c :| c in live && In(c, u);
        assert c in live + {b};
      }
      if In(b, u) {
        assert b in live + {b};
      }
    }
  }

  // ---------------------------------------------------------------- the links in memory

  /** The headers of the free blocks hold their sizes and form one circle through them in order. */
  ghost predicate Linked(m: seq<Unit>, fs: seq<Block>) {
    forall i :: 0 <= i < |fs| ==>
      fs[i].addr < |m| && m[fs[i].addr] == Unit(fs[Next(fs, i)].addr, fs[i].size)
  }

  lemma LinkAt(m: seq<Unit>, fs: seq<Block>, i: nat)
    requires Linked(m, fs) && i < |fs|
    ensures fs[i].addr < |m| && m[fs[i].addr] == Unit(fs[Next(fs, i)].addr, fs[i].size)
  {
  }

  /** The stores with which free() puts block `bp` behind block `p`. */
  function Relinked(m: seq<Unit>, p: nat, bp: nat): seq<Unit>
    requires p < |m| && bp < |m| && m[p].ptr < |m|
  {
    var next := m[p].ptr;
    var b := if bp + m[bp].size == next then Unit(m[next].ptr, m[bp].size + m[next].size) else Unit(next, m[bp].size);
    var q := if p + m[p].size == bp then Unit(b.ptr, m[p].size + b.size) else Unit(bp, m[p].size);
    m[bp := b][p := q]
  }

  lemma {:induction false} InsertLinked(m: seq<Unit>, fs: seq<Block>, b: Block)
    requires Ordered(fs) && Clear(fs, b) && Linked(m, fs)
    requires b.addr < |m| && m[b.addr].size == b.size
    ensures var g := Gap(fs, b.addr);
      fs[g].addr < |m| && m[fs[g].addr].ptr < |m| && Linked(Relinked(m, fs[g].addr, b.addr), Insert(fs, g, b))
  {
    hide Gap, Ordered, Clear, Linked, Insert, Joined;
    Positive(fs, b);
    var g := Gap(fs, b.addr);
    LinkAt(m, fs, g);
    LinkAt(m, fs, Next(fs, g));
    var r, m' := Insert(fs, g, b), Relinked(m, fs[g].addr, b.addr);
    forall i | 0 <= i < |r|
      ensures r[i].addr < |m'| && m'[r[i].addr] == Unit(r[Next(r, i)].addr, r[i].size)
    {
      InsertLinkAt(m, fs, b, i);
    }
    assert Linked(m', r) by { LinkedIs(m', r); }
  }

  lemma LinkedIs(m: seq<Unit>, fs: seq<Block>)
    requires forall i :: 0 <= i < |fs| ==>
      fs[i].addr < |m| && m[fs[i].addr] == Unit(fs[Next(fs, i)].addr, fs[i].size)
    ensures Linked(m, fs)
  {
  }

  lemma {:induction false} InsertLinkAt(m: seq<Unit>, fs: seq<Block>, b: Block, i: nat)
    requires Ordered(fs) && Clear(fs, b) && Linked(m, fs)
    requires b.addr < |m| && m[b.addr].size == b.size
    requires i < |Insert(fs, Gap(fs, b.addr), b)|
    ensures var g := Gap(fs, b.addr);
      && fs[g].addr < |m| && m[fs[g].addr].ptr < |m|
      && var r, m' := Insert(fs, g, b), Relinked(m, fs[g].addr, b.addr);
         r[i].addr < |m'| && m'[r[i].addr] == Unit(r[Next(r, i)].addr, r[i].size)
  {
    hide Gap, Ordered, Clear, Linked, Insert, Joined;
    Positive(fs, b);
    var g := Gap(fs, b.addr);
    var r := Insert(fs, g, b);
    var at, up := Below(fs, g, b), Above(fs, g, b);
    LinkAt(m, fs, g);
    LinkAt(m, fs, Next(fs, g));
    InsertSplit(fs, g, b);
    JoinedIs(fs, b);
    ClearGap(fs, b);
    InsertAt(fs, g, b, i);
    InsertAt(fs, g, b, Next(r, i));
    Sizes(fs, 0);
    if g + 1 == |fs| && g > 0 {
      Before(fs, 0, g);
    }
    var j := if i < at then i else if i == at then g else i - at - 1 + up;
    LinkAt(m, fs, j);
    if j < g {
      Before(fs, j, g);
    } else if j > g {
      Before(fs, g, j);
      if g + 1 < j {
        Before(fs, g + 1, j);
      }
    }
    if i == at {
      if JoinsUp(fs, g, b) {
        assert m[m[fs[g].addr].ptr].size == fs[g + 1].size;
      }
    }
  }

  /** The stores with which malloc cuts `n` units out of block `p`, which follows block `prevp`. */
  function Relieved(m: seq<Unit>, prevp: nat, p: nat, n: nat): seq<Unit>
    requires prevp < |m| && p < |m| && n <= m[p].size && p + m[p].size <= |m| && n >= 1
  {
    if m[p].size == n then m[prevp := m[prevp].(ptr := m[p].ptr)]
    else
      var rest := m[p].size - n;
      var cut := m[p := m[p].(size := rest)];
      cut[p + rest := cut[p + rest].(size := n)]
  }

  lemma {:induction false} TakeLinked(m: seq<Unit>, fs: seq<Block>, k: nat, n: nat)
    requires Ordered(fs) && Linked(m, fs) && 1 <= k < |fs| && 1 <= n <= fs[k].size && fs[k].End() <= |m|
    ensures fs[k - 1].addr < |m| && fs[k].addr < |m| && m[fs[k].addr].size == fs[k].size
    ensures var m' := Relieved(m, fs[k - 1].addr, fs[k].addr, n);
      Linked(m', Take(fs, k, n)) && Cut(fs, k, n).addr < |m| && m'[Cut(fs, k, n).addr].size == n
  {
    hide Ordered, Linked;
    LinkAt(m, fs, k);
    LinkAt(m, fs, k - 1);
    Before(fs, k - 1, k);
    var r, m' := Take(fs, k, n), Relieved(m, fs[k - 1].addr, fs[k].addr, n);
    forall i | 0 <= i < |r|
      ensures r[i].addr < |m'| && m'[r[i].addr] == Unit(r[Next(r, i)].addr, r[i].size)
    {
      var j := if fs[k].size == n && i >= k then i + 1 else i;
      LinkAt(m, fs, j);
      if j < k {
        Before(fs, j, k);
        if j < k - 1 {
          Before(fs, j, k - 1);
        }
      } else if j > k {
        Before(fs, k, j);
      }
    }
    LinkedIs(m', r);
  }

  lemma SoundOrder(fs: seq<Block>, live: set<Block>, owned: set<nat>, brk: nat)
    requires Sound(fs, live, owned, brk)
    ensures Ordered(fs) && 0 < fs[0].addr < brk
    ensures forall b :: b in live ==> Clear(fs, b) && b.End() <= brk
  {
  }

  /** Freeing `b` writes the headers of `b` and of block `g` only; neither lies in another block in use. */
  lemma {:induction false} StaysClear(fs: seq<Block>, live: set<Block>, owned: set<nat>, brk: nat, b: Block, c: Block,
                                      g: nat)
    requires Sound(fs, live, owned, brk) && b in live && c in live && c != b && g < |fs|
    ensures !In(c, b.addr) && !In(c, fs[g].addr) && c.End() <= brk && c.size >= 1
  {
    hide IsFree;
    assert Apart(b, c) && b.size >= 1;
    assert Apart(fs[g], c) && fs[0].addr < c.addr;
  }

  /** The block behind which `b` was put keeps its place and its address. */
  lemma {:induction false} RoverKept(fs: seq<Block>, b: Block)
    requires Ordered(fs) && Clear(fs, b)
    ensures var g := Gap(fs, b.addr); var r := Insert(fs, g, b);
      g < |r| && r[g].addr == fs[g].addr && r[0] == fs[0] && fs[g].addr >= fs[0].addr
  {
    hide Gap, Clear, Ordered, Insert, Joined;
    Positive(fs, b);
    var g := Gap(fs, b.addr);
    InsertOrdered(fs, b);
    InsertSplit(fs, g, b);
    InsertAt(fs, g, b, g);
    JoinedIs(fs, b);
    if g > 0 {
      Before(fs, 0, g);
    }
  }

  /** A store above the break breaks no link. */
  lemma {:induction false} NoHeader(m: seq<Unit>, fs: seq<Block>, live: set<Block>, owned: set<nat>, brk: nat, u: nat,
                                    v: Unit)
    requires Sound(fs, live, owned, brk) && Linked(m, fs) && brk <= u < |m|
    ensures Linked(m[u := v], fs)
    ensures forall b :: b in live ==> b.addr < u && b.End() <= u
  {
    hide IsFree;
    forall i | 0 <= i < |fs|
      ensures fs[i].addr < u
    {
      Sizes(fs, i);
    }
  }

  /** Cutting from block `k` writes headers of free blocks and inside block `k` only. */
  lemma {:induction false} CutStays(fs: seq<Block>, live: set<Block>, owned: set<nat>, brk: nat, k: nat, n: nat)
    requires Sound(fs, live, owned, brk) && 1 <= k < |fs| && 1 <= n <= fs[k].size
    ensures fs[k].End() <= brk && fs[k - 1].addr >= fs[0].addr > 0
    ensures forall c :: c in live ==>
      !In(c, fs[k - 1].addr) && !In(c, fs[k].addr) && !In(c, Cut(fs, k, n).addr) && c.End() <= brk && c.size >= 1
  {
    hide IsFree;
    if k > 1 {
      Before(fs, 0, k - 1);
    }
    forall c | c in live
      ensures !In(c, fs[k - 1].addr) && !In(c, fs[k].addr) && !In(c, Cut(fs, k, n).addr) && c.End() <= brk &&
        c.size >= 1
    {
      assert Clear(fs, c) && Apart(fs[k], c) && Apart(fs[k - 1], c);
    }
  }

  lemma {:induction false} SameAddress(fs: seq<Block>, i: nat, j: nat)
    requires Ordered(fs) && i < |fs| && j < |fs| && fs[i].addr == fs[j].addr
    ensures i == j
  {
    hide Ordered;
    if i < j {
      Before(fs, i, j);
    } else if j < i {
      Before(fs, j, i);
    }
  }

  /** None of the blocks passed so far is large enough. */
  ghost predicate NoneYet(fs: seq<Block>, rover: nat, here: nat, n: nat) {
    forall j :: 0 <= j < |fs| && Passed(rover, here, j) ==> fs[j].size < n
  }

  lemma NoneAtStart(fs: seq<Block>, rover: nat, n: nat)
    requires rover < |fs|
    ensures NoneYet(fs, rover, Next(fs, rover), n)
  {
  }

  lemma {:induction false} NoneInStep(fs: seq<Block>, rover: nat, k: nat, n: nat)
    requires rover < |fs| && k < |fs| && NoneYet(fs, rover, k, n) && fs[k].size < n
    ensures if k == rover then !Fits(fs, n) else NoneYet(fs, rover, Next(fs, k), n)
  {
    forall j | 0 <= j < |fs|
      ensures k == rover || Passed(rover, Next(fs, k), j) ==> fs[j].size < n
    {
      assert j == k || Passed(rover, k, j) || !(k == rover || Passed(rover, Next(fs, k), j));
    }
  }

  /** Position `t` lies on the way from `k` to `rover`. */
  predicate Ahead(k: nat, t: nat, rover: nat, n: nat)
    requires k < n && t < n && rover < n
  {
    Distance(k, t, n) + Distance(t, rover, n) == Distance(k, rover, n)
  }

  lemma AheadAtStart<T>(s: seq<T>, rover: nat, t: nat)
    requires rover < |s| && t < |s| && (t == rover || t == rover + 1)
    ensures Ahead(Next(s, rover), t, rover, |s|)
  {
  }

  lemma WalkStep<T>(s: seq<T>, k: nat, rover: nat)
    requires k < |s| && rover < |s| && k != rover
    ensures Distance(Next(s, k), rover, |s|) < Distance(k, rover, |s|)
    ensures forall t :: 0 <= t < |s| && t != k && Ahead(k, t, rover, |s|) ==> Ahead(Next(s, k), t, rover, |s|)
  {
  }

  lemma NotPast(k: nat, t: nat, rover: nat, n: nat)
    requires k < n && t < n && rover < n && Ahead(k, t, rover, n) && t != k
    ensures k != rover
  {
  }

  lemma RelinkedAt(m: seq<Unit>, p: nat, bp: nat)
    requires p < |m| && bp < |m| && m[p].ptr < |m|
    ensures |Relinked(m, p, bp)| == |m|
    ensures forall u :: 0 <= u < |m| && u != p && u != bp ==> Relinked(m, p, bp)[u] == m[u]
  {
  }

  // ---------------------------------------------------------------- the allocator

  /** Block `k` is the first one large enough on the walk that starts behind block `rover`. */
  ghost predicate FirstFit(fs: seq<Block>, rover: nat, k: nat, n: nat) {
    && rover < |fs| && k < |fs| && fs[k].size >= n
    && (forall j :: 0 <= j < |fs| && Passed(rover, k, j) ==> fs[j].size < n)
  }

  lemma {:induction false} IsFirstFit(fs: seq<Block>, rover: nat, k: nat, n: nat, t: nat)
    requires rover < |fs| && k < |fs| && fs[k].size >= n
    requires NoneYet(fs, rover, k, n) || forall j :: 0 <= j < |fs| && j != t ==> fs[j].size < n
    ensures FirstFit(fs, rover, k, n)
  {
  }

  /** The bytes asked for, taken as a negative number, are the whole process: growproc takes its new size 0 for a
      failure, but all pages are unmapped by then. */
  predicate Emptied(n: nat, brk: nat) {
    ToInt(Asked(n) * UNIT) < 0 && brk * UNIT + ToInt(Asked(n) * UNIT) == 0
  }

  /** The kernel has no memory for `n` units, or no address space. */
  predicate Denied(n: nat, brk: nat, memory: bool) {
    !memory || brk + Asked(n) >= LIMIT
  }

  /** What malloc needs to know about the number of units it looks for. */
  lemma {:induction false} SizeOf(nbytes: nat, brk: nat)
    requires nbytes < WORD
    ensures var n := UnitsFor(nbytes);
      && 1 <= n <= WORD / UNIT
      && (n < LIMIT ==> !Emptied(n, brk) && ((n - 1) * UNIT >= nbytes <==> nbytes <= LARGEST))
      && (nbytes <= LARGEST ==> n < LIMIT)
      && (LARGEST < nbytes <= WORD - UNIT ==> n >= LIMIT)
  {
    hide ToInt;
    UnitsEnough(nbytes);
    RequestsServed(nbytes);
    SbrkSeesPositive(UnitsFor(nbytes));
  }

  /** What malloc has done when it returns `ap`: if no free block was large enough the kernel's chunk was
      put into the list first; the block is cut from the first that fits behind the rover, is new among
      those in use, and the rover stands before it. */
  ghost predicate Served(fs: seq<Block>, at: nat, live: set<Block>, owned: set<nat>, brk: nat, n: nat,
                         fs': seq<Block>, at': nat, live': set<Block>, owned': set<nat>, brk': nat, ap: nat)
  {
    && ap >= 1 && n >= 1
    && var b := Block(ap - 1, n);
    && b !in live && live' == live + {b}
    && if Fits(fs, n) then
         owned' == owned && brk' == brk && CutFrom(fs, at, n, fs', at', b)
       else
         var chunk := Block(brk, Asked(n));
         && Ordered(fs) && fs[0].addr < brk
         && owned' == owned + Units(chunk) && brk' == chunk.End()
         && CutFrom(Insert(fs, Gap(fs, brk), chunk), Gap(fs, brk), n, fs', at', b)
  }

  ghost predicate CutFrom(start: seq<Block>, rover: nat, n: nat, fs': seq<Block>, at': nat, b: Block) {
    FirstFit(start, rover, at' + 1, n) && fs' == Take(start, at' + 1, n) && b == Cut(start, at' + 1, n)
  }

  /** After the chunk has joined the list exactly one block fits, and it is the rover's block or the next. */
  lemma {:induction false} ChunkFits(fs: seq<Block>, chunk: Block, n: nat) returns (t: nat)
    requires Ordered(fs) && Clear(fs, chunk) && !Fits(fs, n) && chunk.size >= n
    ensures var g := Gap(fs, chunk.addr); var r := Insert(fs, g, chunk);
      && t < |r| && g < |r| && (t == g || t == g + 1) && r[t].size >= n
      && forall j :: 0 <= j < |r| && j != t ==> r[j].size < n
  {
    hide Gap, Ordered, Clear, Insert, Joined;
    Positive(fs, chunk);
    var g := Gap(fs, chunk.addr);
    var r := Insert(fs, g, chunk);
    ClearGap(fs, chunk);
    InsertSplit(fs, g, chunk);
    JoinedIs(fs, chunk);
    t := Below(fs, g, chunk);
    forall j | 0 <= j < |r| && j != t
      ensures r[j].size < n
    {
      InsertAt(fs, g, chunk, j);
    }
  }

  lemma {:induction false} ServedFromList(fs: seq<Block>, at: nat, live: set<Block>, owned: set<nat>, brk: nat, n: nat,
                                          k: nat)
    requires n >= 1 && 1 <= k < |fs| && FirstFit(fs, at, k, n) && Cut(fs, k, n) !in live
    ensures Fits(fs, n)
    ensures Served(fs, at, live, owned, brk, n,
                   Take(fs, k, n), k - 1, live + {Cut(fs, k, n)}, owned, brk, Cut(fs, k, n).addr + 1)
  {
    assert Fits(fs, n);
    assert k - 1 + 1 == k;
  }

  /** The list once the kernel's chunk has joined it. */
  ghost predicate Grown(fs: seq<Block>, owned: set<nat>, brk: nat, n: nat,
                        fs': seq<Block>, at': nat, owned': set<nat>, brk': nat)
  {
    var chunk := Block(brk, Asked(n));
    && Ordered(fs) && fs[0].addr < brk && !Fits(fs, n)
    && at' == Gap(fs, brk) && fs' == Insert(fs, at', chunk)
    && owned' == owned + Units(chunk) && brk' == chunk.End()
  }

  lemma IsGrown(fs: seq<Block>, owned: set<nat>, brk: nat, n: nat, fs': seq<Block>, at': nat, owned': set<nat>,
                brk': nat)
    requires Ordered(fs) && fs[0].addr < brk && !Fits(fs, n)
    requires at' == Gap(fs, brk) && fs' == Insert(fs, at', Block(brk, Asked(n)))
    requires owned' == owned + Units(Block(brk, Asked(n))) && brk' == brk + Asked(n)
    ensures Grown(fs, owned, brk, n, fs', at', owned', brk')
  {
  }

  lemma {:induction false} ServedFromChunk(fs: seq<Block>, at: nat, live: set<Block>, owned: set<nat>, brk: nat, n: nat,
                                           r: seq<Block>, g: nat, owned': set<nat>, brk': nat, k: nat)
    requires Grown(fs, owned, brk, n, r, g, owned', brk')
    requires n >= 1 && 1 <= k < |r| && FirstFit(r, g, k, n) && Cut(r, k, n) !in live
    ensures Served(fs, at, live, owned, brk, n,
                   Take(r, k, n), k - 1, live + {Cut(r, k, n)}, owned', brk', Cut(r, k, n).addr + 1)
  {
    assert k - 1 + 1 == k;
  }

  class Allocator {
    const mem: array<Unit>
    const base: nat
    var freep: nat                  // 0 is the null pointer
    var brk: nat                    // the size of the process, in units
    ghost var fs: seq<Block>
    ghost var at: nat               // freep points to block fs[at]
    ghost var live: set<Block>      // handed out and not yet freed
    ghost var owned: set<nat>       // units obtained from sbrk

    ghost predicate Valid()
      reads this, mem
    {
      && mem.Length == LIMIT && brk < LIMIT
      && Sound(fs, live, owned, brk) && fs[0].addr == base && at < |fs|
      && (forall b :: b in live ==> mem[b.addr].size == b.size)
      && if freep == 0 then fs == [Block(base, 0)] && live == {} && owned == {}
         else freep == fs[at].addr && Linked(mem[..], fs)
    }

    /** What the walk over the list reads at block `i`. */
    lemma Node(i: nat)
      requires Valid() && freep != 0 && i < |fs|
      ensures mem.Length == LIMIT && Ordered(fs) && fs[0].addr < brk < LIMIT
      ensures at < |fs| && freep == fs[at].addr
      ensures fs[i].addr < mem.Length && mem[fs[i].addr] == Unit(fs[Next(fs, i)].addr, fs[i].size)
      ensures i == 0 ==> fs[i].size == 0
    {
      hide Clear, IsFree;
      LinkAt(mem[..], fs, i);
    }

    /** Block `b` of the old memory is as it was, header and payload. */
    twostate predicate Kept(b: Block)
      reads mem
    {
      forall u :: 0 <= u < mem.Length && In(b, u) ==> mem[u] == old(mem[u])
    }

    /** The search in free(): the free block behind which `bp` belongs. */
    method FindGap(bp: nat, ghost b: Block) returns (p: nat)
      requires Valid() && freep != 0 && Clear(fs, b) && b.addr == bp && bp < mem.Length
      ensures fs[0].addr < bp && p == fs[Gap(fs, bp)].addr && p < mem.Length && mem[p].ptr < mem.Length
    {
      hide Gap, Clear, Sound, Linked;
      SoundOrder(fs, live, owned, brk);
      Positive(fs, b);
      ghost var g := Gap(fs, bp);
      ghost var i: nat := at;
      p := freep;
      LinkAt(mem[..], fs, i);
      while !(bp > p && bp < mem[p].ptr)
        invariant i < |fs| && p == fs[i].addr && p < mem.Length
        invariant mem[p].ptr == fs[Next(fs, i)].addr
        decreases Distance(i, g, |fs|)
      {
        StopsAtGap(fs, b, i);
        if p >= mem[p].ptr && (bp > p || bp < mem[p].ptr) {
          break;
        }
        p := mem[p].ptr;
        i := Next(fs, i);
        LinkAt(mem[..], fs, i);
      }
      StopsAtGap(fs, b, i);
      LinkAt(mem[..], fs, Next(fs, i));
    }

    /** The stores of free() once the place is known. */
    method Relink(p: nat, bp: nat)
      requires p < mem.Length && bp < mem.Length && mem[p].ptr < mem.Length && p != bp
      modifies mem
      ensures mem[..] == Relinked(old(mem[..]), p, bp)
    {
      if bp + mem[bp].size == mem[p].ptr {
        mem[bp] := mem[bp].(size := mem[bp].size + mem[mem[p].ptr].size);
        mem[bp] := mem[bp].(ptr := mem[mem[p].ptr].ptr);
      } else {
        mem[bp] := mem[bp].(ptr := mem[p].ptr);
      }
      if p + mem[p].size == bp {
        mem[p] := mem[p].(size := mem[p].size + mem[bp].size);
        mem[p] := mem[p].(ptr := mem[bp].ptr);
      } else {
        mem[p] := mem[p].(ptr := bp);
      }
    }

    method Free(ap: nat)
      requires Valid() && 1 <= ap <= mem.Length && Block(ap - 1, mem[ap - 1].size) in live
      modifies this`freep, this`fs, this`at, this`live, mem
      ensures Valid() && freep != 0
      ensures var b := old(Block(ap - 1, mem[ap - 1].size));
        && Clear(old(fs), b) && at == Gap(old(fs), b.addr)
        && fs == Insert(old(fs), at, b) && live == old(live) - {b}
        && forall c :: c in live ==> Kept(c)
    {
      hide Gap, Clear, Sound, Linked, Insert, Relinked;
      var bp := ap - 1;
      ghost var b := Block(bp, mem[bp].size);
      ghost var m := mem[..];
      FreeKeepsSound(fs, live, owned, brk, b);
      SoundOrder(fs, live, owned, brk);
      Positive(fs, b);
      ghost var g := Gap(fs, bp);
      InsertLinked(m, fs, b);
      RoverKept(fs, b);
      forall c | c in live - {b}
        ensures !In(c, bp) && !In(c, fs[g].addr) && c.End() <= brk && c.size >= 1
      {
        StaysClear(fs, live, owned, brk, b, c, g);
      }
      var p := FindGap(bp, b);
      RelinkedAt(m, p, bp);
      Relink(p, bp);
      freep := p;
      fs := Insert(fs, g, b);
      at := g;
      live := live - {b};
    }

    /** sys_sbrk and growproc; `memory` tells whether the kernel finds pages. */
    method Sbrk(bytes: int, memory: bool) returns (c: Core)
      requires brk < LIMIT && bytes % UNIT == 0 && -WORD / 2 <= bytes < WORD / 2
      modifies this`brk
      ensures bytes < 0 && old(brk) * UNIT + bytes == 0 ==> c == Refused && brk == old(brk)
      ensures bytes <= 0 && (bytes == 0 || old(brk) * UNIT + bytes != 0) ==> c == Nothing && brk <= old(brk)
      ensures bytes > 0 && (!memory || old(brk) + bytes / UNIT >= LIMIT) ==> c == Refused && brk == old(brk)
      ensures bytes > 0 && memory && old(brk) + bytes / UNIT < LIMIT ==>
        c == Granted(old(brk)) && brk == old(brk) + bytes / UNIT
    {
      var sz := brk * UNIT;
      var newsz := (sz + bytes) % WORD;
      if bytes > 0 {
        if newsz >= KERNBASE || !memory {
          return Refused;
        }
        brk := newsz / UNIT;
        return Granted(sz / UNIT);
      }
      if newsz < sz {
        if newsz == 0 {
          return Refused;
        }
        brk := newsz / UNIT;
      }
      return Nothing;
    }

    method Morecore(nu: nat, memory: bool) returns (c: Core)
      requires Valid() && freep != 0 && 1 <= nu <= WORD / UNIT
      modifies this, mem
      ensures c.Nothing? <==> nu >= LIMIT && !Emptied(nu, old(brk))
      ensures c.Refused? <==> (nu < LIMIT && Denied(nu, old(brk), memory)) || Emptied(nu, old(brk))
      ensures c.Refused? && nu < LIMIT ==> Valid() && unchanged(this)
      ensures !c.Granted? ==> mem[..] == old(mem[..])
      ensures c.Granted? ==> brk == old(brk) + (if nu < 4096 then 4096 else nu)
      ensures c.Granted? ==>
        var chunk := Block(old(brk), Asked(nu));
        && Valid() && freep != 0 && Ordered(old(fs)) && Clear(old(fs), chunk)
        && at == Gap(old(fs), chunk.addr) && fs == Insert(old(fs), at, chunk)
        && live == old(live) && owned == old(owned) + Units(chunk) && brk == old(brk) + chunk.size
        && forall b :: b in live ==> Kept(b)
    {
      hide Gap, Clear, Sound, Linked, Insert, Ordered;
      SoundOrder(fs, live, owned, brk);
      SbrkSeesPositive(nu);
      c := Sbrk(ToInt(Asked(nu) * UNIT), memory);
      if c.Granted? {
        var hp := c.p;
        ghost var chunk := Block(hp, Asked(nu));
        GrowKeepsSound(fs, live, owned, hp, chunk.size);
        NoHeader(mem[..], fs, live, owned, hp, hp, Unit(mem[hp].ptr, Asked(nu)));
        ghost var m := mem[..];
        mem[hp] := mem[hp].(size := Asked(nu));
        assert mem[..] == m[hp := Unit(m[hp].ptr, Asked(nu))];
        live := live + {chunk};
        owned := owned + Units(chunk);
        assert Valid();
        Free(hp + 1);
      }
    }

    /** The stores and the bookkeeping of malloc once block `p` has been found large enough. */
    method Cutoff(prevp: nat, p: nat, nunits: nat, ghost k: nat) returns (hp: nat)
      requires Valid() && freep != 0 && 1 <= k < |fs| && p == fs[k].addr && prevp == fs[k - 1].addr
      requires 1 <= nunits <= fs[k].size
      requires prevp < mem.Length && p < mem.Length
      modifies this`freep, this`fs, this`at, this`live, mem
      ensures Valid() && freep != 0 && at == k - 1 && freep == prevp
      ensures fs == Take(old(fs), k, nunits) && hp == Cut(old(fs), k, nunits).addr
      ensures Cut(old(fs), k, nunits) !in old(live) && live == old(live) + {Cut(old(fs), k, nunits)}
      ensures forall b :: b in old(live) ==> Kept(b)
    {
      hide Clear, Sound, Linked, Ordered;
      SoundOrder(fs, live, owned, brk);
      ghost var m := mem[..];
      ghost var b := Cut(fs, k, nunits);
      CutStays(fs, live, owned, brk, k, nunits);
      TakeKeepsSound(fs, live, owned, brk, k, nunits);
      TakeLinked(m, fs, k, nunits);
      TakeOrdered(fs, k, nunits);
      hp := p;
      if mem[p].size == nunits {
        mem[prevp] := mem[prevp].(ptr := mem[p].ptr);
      } else {
        mem[p] := mem[p].(size := mem[p].size - nunits);
        hp := p + mem[p].size;
        mem[hp] := mem[hp].(size := nunits);
      }
      assert mem[..] == Relieved(m, prevp, p, nunits);
      freep := prevp;
      fs := Take(fs, k, nunits);
      at := k - 1;
      live := live + {b};
    }

    /** No free block is as large as the address space. */
    lemma FittingIsSmall(n: nat)
      requires Valid() && Fits(fs, n)
      ensures n < LIMIT
    {
      hide Ordered, Clear, IsFree;
    }

    /** malloc sets up the empty circle when it is called for the first time. */
    method Start()
      requires Valid()
      modifies this`freep, mem
      ensures Valid() && freep != 0 && at < |fs|
      ensures forall b :: b in live ==> Kept(b)
    {
      hide Gap, Clear, Sound, Linked, Ordered;
      SoundOrder(fs, live, owned, brk);
      if freep == 0 {
        mem[base] := Unit(base, 0);
        freep := base;
        LinkedIs(mem[..], fs);
      }
    }

    method Malloc(nbytes: nat, memory: bool) returns (r: Outcome)
      requires Valid() && nbytes < WORD
      modifies this, mem
      ensures var n := UnitsFor(nbytes);
        && (r.Overrun? <==> !Fits(old(fs), n) && n >= LIMIT && !Emptied(n, old(brk)))
        && (r.OutOfMemory? <==>
              !Fits(old(fs), n) && ((n < LIMIT && Denied(n, old(brk), memory)) || Emptied(n, old(brk))))
      ensures nbytes <= LARGEST ==> !r.Overrun?
      ensures LARGEST < nbytes <= WORD - UNIT ==> !r.Allocated?
      ensures r.Allocated? ==> ((UnitsFor(nbytes) - 1) * UNIT >= nbytes <==> nbytes <= LARGEST)
      ensures r.Allocated? ==> Valid() && freep != 0
      ensures r.OutOfMemory? && UnitsFor(nbytes) < LIMIT ==>
        Valid() && freep != 0 && fs == old(fs) && live == old(live) && owned == old(owned) && brk == old(brk)
      ensures r.Allocated? ==> Served(old(fs), old(at), old(live), old(owned), old(brk), UnitsFor(nbytes),
                                      fs, at, live, owned, brk, r.ap)
      ensures forall b :: b in old(live) ==> Kept(b)
    {
      hide Valid, Gap, Clear, Sound, Linked, Insert, Ordered, Take, Fits, Served, Grown, NoneYet, Ahead, Distance;
      hide FirstFit, UnitsFor, Denied, Emptied;
      var nunits := UnitsFor(nbytes);
      SizeOf(nbytes, brk);
      if Fits(fs, nunits) {
        FittingIsSmall(nunits);
      }
      Start();
      var prevp := freep;
      ghost var n, live0 := nunits, live;
      ghost var grown := false;
      ghost var q: nat := at;
      ghost var k: nat := Next(fs, at);
      ghost var t: nat := 0;
      Node(at);
      NoneAtStart(fs, at, n);
      var p := mem[prevp].ptr;
      while true
        invariant Valid() && freep != 0 && at < |fs|
        invariant q < |fs| && k == Next(fs, q) && prevp == fs[q].addr && p == fs[k].addr
        invariant !grown ==>
          fs == old(fs) && live == old(live) && owned == old(owned) && brk == old(brk) && at == old(at)
        invariant !grown ==> NoneYet(fs, at, k, n)
        invariant grown ==> Grown(old(fs), old(owned), old(brk), n, fs, at, owned, brk) && live == old(live)
        invariant grown ==> n < LIMIT && !Denied(n, old(brk), memory) && !Fits(old(fs), n)
        invariant grown ==> t < |fs| && fs[t].size >= n
        invariant grown ==> forall j :: 0 <= j < |fs| && j != t ==> fs[j].size < n
        invariant grown ==> Ahead(k, t, at, |fs|)
        invariant forall b :: b in old(live) ==> Kept(b)
        decreases if grown then 0 else 1, Distance(k, at, |fs|)
      {
        Node(k);
        Node(q);
        if mem[p].size >= nunits {
          ghost var from, rover := fs, at;
          assert FirstFit(fs, at, k, n) by { IsFirstFit(fs, at, k, n, t); }
          var hp := Cutoff(prevp, p, nunits, k);
          if grown {
            ServedFromChunk(old(fs), old(at), live0, old(owned), old(brk), n, from, rover, owned, brk, k);
          } else {
            ServedFromList(from, rover, live0, owned, brk, n, k);
          }
          return Allocated(hp + 1);
        }
        if grown {
          NotPast(k, t, at, |fs|);
        } else {
          NoneInStep(fs, at, k, n);
        }
        q := k;
        if p == freep {
          SameAddress(fs, k, at);
          ghost var chunk := Block(brk, Asked(n));
          var core := Morecore(nunits, memory);
          match core
          case Nothing => return Overrun;
          case Refused => return OutOfMemory;
          case Granted(_) =>
            t := ChunkFits(old(fs), chunk, n);
            grown := true;
            assert Grown(old(fs), old(owned), old(brk), n, fs, at, owned, brk) by {
              IsGrown(old(fs), old(owned), old(brk), n, fs, at, owned, brk);
            }
            p := freep;
            q := at;
            AheadAtStart(fs, at, t);
            Node(q);
        } else {
          WalkStep(fs, k, at);
        }
        prevp := p;
        p := mem[p].ptr;
        k := Next(fs, q);
      }
    }

    constructor (base: nat, brk: nat)
      requires 0 < base < brk < LIMIT
      ensures Valid() && fresh(mem) && freep == 0 && this.base == base && this.brk == brk
    {
      mem := new Unit[LIMIT](_ => Unit(0, 0));
      this.base := base;
      this.brk := brk;
      freep := 0;
      fs := [Block(base, 0)];
      at := 0;
      live := {};
      owned := {};
    }

    /** The program may store anything in the payload of a block it holds. */
    method Store(ghost b: Block, u: nat, v: Unit)
      requires Valid() && b in live && b.addr < u < b.End()
      modifies mem
      ensures Valid() && mem[..] == old(mem[..][u := v])
    {
      hide IsFree;
      forall i | 0 <= i < |fs|
        ensures fs[i].addr != u
      {
        assert Apart(fs[i], b);
        Sizes(fs, i);
      }
      forall c | c in live
        ensures c.addr != u
      {
        assert c == b || Apart(b, c);
        assert Clear(fs, c);
      }
      mem[u] := v;
    }
  }

  // ---------------------------------------------------------------- counting

  ghost function PickBlock(live: set<Block>): (b: Block)
    requires live != {}
    ensures b in live
  {
    var b :| b in live; b
  }

  ghost function TotalUsed(live: set<Block>): nat {
    if live == {} then 0
    else var b := PickBlock(live); b.size + TotalUsed(live - {b})
  }

  ghost function UsedUnits(live: set<Block>): set<nat> {
    if live == {} then {}
    else var b := PickBlock(live); Units(b) + UsedUnits(live - {b})
  }

  lemma {:induction false} UsedSplit(live: set<Block>, b: Block, u: nat)
    requires b in live
    requires forall c, d :: c in live && d in live && c != d ==> Apart(c, d)
    ensures Used(live, u) <==> Used(live - {b}, u) || In(b, u)
    ensures !(Used(live - {b}, u) && In(b, u))
  {
    if Used(live, u) {
      var c :| c in live && In(c, u);
      assert c == b || c in live - {b};
    }
    forall c | c in live - {b}
      ensures !(In(c, u) && In(b, u))
    {
      assert Apart(c, b);
    }
  }

  lemma {:induction false} UsedCount(live: set<Block>)
    requires forall b, c :: b in live && c in live && b != c ==> Apart(b, c)
    ensures |UsedUnits(live)| == TotalUsed(live)
    ensures forall u: nat :: u in UsedUnits(live) <==> Used(live, u)
  {
    hide Used, Apart;
    if live != {} {
      var b := PickBlock(live);
      UsedCount(live - {b});
      UnitsCount(b);
      forall u: nat
        ensures Used(live, u) <==> Used(live - {b}, u) || In(b, u)
        ensures !(Used(live - {b}, u) && In(b, u))
      {
        UsedSplit(live, b, u);
      }
      assert Units(b) !! UsedUnits(live - {b});
    } else {
      forall u: nat
        ensures !Used(live, u)
      {
        NothingUsed(u);
      }
    }
  }

  lemma NothingUsed(u: nat)
    ensures !Used({}, u)
  {
  }

  /** No unit is lost and none counted twice: free and used blocks, headers included, add up to what sbrk gave. */
  lemma {:induction false} Conservation(fs: seq<Block>, live: set<Block>, owned: set<nat>, brk: nat)
    requires Sound(fs, live, owned, brk)
    ensures |owned| == Total(fs) + TotalUsed(live)
  {
    hide Ordered, IsFree, Used, Clear;
    forall i, j | 0 <= i < j < |fs|
      ensures Apart(fs[i], fs[j])
    {
      Before(fs, i, j);
    }
    FreeCount(fs);
    UsedCount(live);
    forall u: nat
      ensures !(IsFree(fs, u) && Used(live, u))
    {
      FreeOrUsed(fs, live, owned, brk, u);
    }
    assert owned == FreeUnits(fs) + UsedUnits(live);
    assert FreeUnits(fs) !! UsedUnits(live);
  }

  lemma {:induction false} FreeOrUsed(fs: seq<Block>, live: set<Block>, owned: set<nat>, brk: nat, u: nat)
    requires Sound(fs, live, owned, brk)
    ensures !(IsFree(fs, u) && Used(live, u))
  {
    hide Ordered;
    if IsFree(fs, u) {
      var i :| 0 <= i < |fs| && In(fs[i], u);
      forall b | b in live
        ensures !In(b, u)
      {
        assert Clear(fs, b);
        assert Apart(fs[i], b);
      }
    }
  }
}
