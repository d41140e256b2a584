/** log.c over the buffer cache: the in-memory header, log_write, and commit and recovery as the loops
    that write disk blocks. */
module Log {
  import opened Wrappers
  import opened Params
  import opened Sequences
  import opened LogCrash
  import opened BufferCache
  import A = LogAdmission
  import H = LogHistory

  /** Contents of a block as the file system sees it: what was last passed to log_write, else the disk. */
  function Current(pend: map<int, Block>, blocks: Image, b: int): Block
    requires 0 <= b < |blocks|
  {
    if b in pend then pend[b] else blocks[b]
  }

  /** An unlocked buffer has the current contents of its block; a dirty one belongs to a pending block. */
  ghost predicate Agrees(x: Buf, blocks: Image, pend: map<int, Block>) {
    && (x.dev == ROOTDEV ==>
          && 0 <= x.blockno < |blocks| && x.valid
          && (!x.locked ==> x.data == Current(pend, blocks, x.blockno)))
    && (x.dirty ==> x.dev == ROOTDEV && x.blockno in pend)
  }

  ghost predicate Pinned(bufs: seq<Buf>, b: int) {
    exists i :: 0 <= i < |bufs| && Holds(bufs[i], ROOTDEV, b) && bufs[i].dirty
  }

  /** The cache agrees with the log and the disk, and every pending block is pinned in it. */
  ghost predicate Coherent(bufs: seq<Buf>, blocks: Image, pend: map<int, Block>) {
    && GoodBufs(bufs)
    && (forall i :: 0 <= i < NBUF ==> Agrees(bufs[i], blocks, pend))
    && (forall b :: b in pend ==> Pinned(bufs, b))
  }

  lemma PinnedUpdate(bufs: seq<Buf>, i: nat, x: Buf, b: int)
    requires i < |bufs| && Pinned(bufs, b)
    requires Holds(bufs[i], ROOTDEV, b) && bufs[i].dirty ==> Holds(x, ROOTDEV, b) && x.dirty
    ensures Pinned(bufs[i := x], b)
  {
    var j :| 0 <= j < |bufs| && Holds(bufs[j], ROOTDEV, b) && bufs[j].dirty;
    assert Holds(bufs[i := x][j], ROOTDEV, b) && bufs[i := x][j].dirty;
  }

  /** A change of one buffer that keeps its block keeps the cache well-formed. */
  lemma GoodUpdate(bufs: seq<Buf>, i: nat, x: Buf)
    requires GoodBufs(bufs) && i < NBUF && x.dev == bufs[i].dev && x.blockno == bufs[i].blockno
    requires (x.locked ==> x.refcnt > 0) && (x.dirty ==> x.valid && x.dev != 0)
    ensures GoodBufs(bufs[i := x])
  {
    var after := bufs[i := x];
    forall j, k | 0 <= j < k < NBUF && after[j].dev != 0
      ensures !Holds(after[k], after[j].dev, after[j].blockno)
    {
      assert !Holds(bufs[k], bufs[j].dev, bufs[j].blockno);
    }
  }

  /** The blocks of the log area and the listed home blocks. */
  predicate Involved(l: Layout, bs: seq<int>, b: int) {
    l.start <= b < l.start + l.size || b in bs
  }

  /** Nobody holds a buffer that commit or recovery needs. */
  ghost predicate Idle(bufs: seq<Buf>, l: Layout, bs: seq<int>) {
    forall i :: 0 <= i < |bufs| && bufs[i].dev == ROOTDEV && Involved(l, bs, bufs[i].blockno) ==> !bufs[i].locked
  }

  /** What a run of bread and brelse pairs leaves: unused buffers stay unused, locked ones are untouched. */
  ghost predicate Restored(before: seq<Buf>, after: seq<Buf>) {
    && |before| == |after|
    && forall i :: 0 <= i < |before| ==>
         (Unused(before[i]) ==> Unused(after[i])) && (after[i].locked ==> after[i] == before[i])
  }

  lemma RestoredIdle(before: seq<Buf>, after: seq<Buf>, l: Layout, bs: seq<int>)
    requires Restored(before, after) && Idle(before, l, bs)
    ensures Idle(after, l, bs)
  {
  }

  /** bread keeps coherence and hands out the current contents; a pinned block is always found cached. */
  lemma BreadCoherent(bufs: seq<Buf>, order: seq<nat>, blocks: Image, pend: map<int, Block>, b: int, i: nat)
    requires Coherent(bufs, blocks, pend) && Permutation(order) && 0 <= b < |blocks| && Free(bufs, ROOTDEV, b)
    requires Chosen(bufs, order, ROOTDEV, b, i)
    ensures var x := Loaded(bufs[i], blocks, ROOTDEV, b);
      && Coherent(bufs[i := x], blocks, pend)
      && Holds(x, ROOTDEV, b) && x.locked && x.valid && x.refcnt > 0
      && x.data == Current(pend, blocks, b) && (x.dirty <==> b in pend)
      && (Holds(bufs[i], ROOTDEV, b) ==> x == bufs[i].(refcnt := bufs[i].refcnt + 1, locked := true))
      && (!Holds(bufs[i], ROOTDEV, b) ==> x.refcnt == 1 && !x.dirty && Unused(bufs[i]))
  {
    TakenKeepsGood(bufs, i, ROOTDEV, b);
    var taken := bufs[i := Taken(bufs[i], ROOTDEV, b)];
    var x := Loaded(bufs[i], blocks, ROOTDEV, b);
    GoodUpdate(taken, i, x);
    assert taken[i := x] == bufs[i := x];
    assert Agrees(bufs[i], blocks, pend);
    if b in pend {
      assert Pinned(bufs, b);
      var j :| 0 <= j < NBUF && Holds(bufs[j], ROOTDEV, b) && bufs[j].dirty;
      OneBuffer(bufs, i, j, b);
    }
    forall c | c in pend ensures Pinned(bufs[i := x], c) {
      PinnedUpdate(bufs, i, x, c);
    }
  }

  lemma OneBuffer(bufs: seq<Buf>, i: nat, j: nat, b: int)
    requires GoodBufs(bufs) && i < NBUF && j < NBUF && Holds(bufs[j], ROOTDEV, b)
    requires Holds(bufs[i], ROOTDEV, b) || forall k :: 0 <= k < NBUF ==> !Holds(bufs[k], ROOTDEV, b)
    ensures i == j
  {
  }

  /** bwrite installs the buffer's data and unpins it. */
  lemma BwriteCoherent(bufs: seq<Buf>, blocks: Image, pend: map<int, Block>, i: nat)
    requires Coherent(bufs, blocks, pend) && i < NBUF && bufs[i].dev == ROOTDEV && bufs[i].locked
    ensures 0 <= bufs[i].blockno < |blocks|
    ensures var b := bufs[i].blockno;
      Coherent(bufs[i := bufs[i].(dirty := false)], blocks[b := bufs[i].data], pend - {b})
  {
    assert Agrees(bufs[i], blocks, pend);
    var b := bufs[i].blockno;
    var x := bufs[i].(dirty := false);
    GoodUpdate(bufs, i, x);
    var after := bufs[i := x];
    forall j | 0 <= j < NBUF ensures Agrees(after[j], blocks[b := bufs[i].data], pend - {b}) {
      assert Agrees(bufs[j], blocks, pend);
      assert j != i ==> !Holds(bufs[j], ROOTDEV, b);
    }
    forall c | c in pend - {b} ensures Pinned(bufs[i := x], c) {
      PinnedUpdate(bufs, i, x, c);
    }
  }

  /** Changing the data of a locked buffer is invisible. */
  lemma SetDataCoherent(bufs: seq<Buf>, blocks: Image, pend: map<int, Block>, i: nat, data: Block)
    requires Coherent(bufs, blocks, pend) && i < NBUF && bufs[i].locked
    ensures Coherent(bufs[i := bufs[i].(data := data)], blocks, pend)
  {
    var x := bufs[i].(data := data);
    assert Agrees(bufs[i], blocks, pend);
    GoodUpdate(bufs, i, x);
    forall c | c in pend ensures Pinned(bufs[i := x], c) {
      PinnedUpdate(bufs, i, x, c);
    }
  }

  /** A buffer may be released once its data is the current contents again. */
  lemma BrelseCoherent(bufs: seq<Buf>, blocks: Image, pend: map<int, Block>, i: nat)
    requires Coherent(bufs, blocks, pend) && i < NBUF && bufs[i].locked
    requires bufs[i].dev == ROOTDEV ==>
      0 <= bufs[i].blockno < |blocks| && bufs[i].data == Current(pend, blocks, bufs[i].blockno)
    ensures Coherent(bufs[i := Released(bufs[i])], blocks, pend)
  {
    var x := Released(bufs[i]);
    assert Agrees(bufs[i], blocks, pend);
    GoodUpdate(bufs, i, x);
    forall c | c in pend ensures Pinned(bufs[i := x], c) {
      PinnedUpdate(bufs, i, x, c);
    }
  }

  /** log_write pins the buffer and makes its data the current contents. */
  lemma LogWriteCoherent(bufs: seq<Buf>, blocks: Image, pend: map<int, Block>, i: nat)
    requires Coherent(bufs, blocks, pend) && i < NBUF && bufs[i].locked && bufs[i].dev == ROOTDEV
    ensures Coherent(bufs[i := bufs[i].(dirty := true)], blocks, pend[bufs[i].blockno := bufs[i].data])
  {
    var b := bufs[i].blockno;
    var x := bufs[i].(dirty := true);
    var pend' := pend[b := bufs[i].data];
    assert Agrees(bufs[i], blocks, pend);
    GoodUpdate(bufs, i, x);
    var after := bufs[i := x];
    forall j | 0 <= j < NBUF ensures Agrees(after[j], blocks, pend') {
      assert Agrees(bufs[j], blocks, pend);
      assert j != i ==> !Holds(bufs[j], ROOTDEV, b);
    }
    forall c | c in pend'.Keys ensures Pinned(bufs[i := x], c) {
      if c == b {
        assert Holds(bufs[i := x][i], ROOTDEV, c) && bufs[i := x][i].dirty;
      } else {
        PinnedUpdate(bufs, i, x, c);
      }
    }
  }

  /** Buffer `i` now has block `b`: found with one more reference, or recycled from an unused buffer. */
  ghost predicate ReadEffect(before: seq<Buf>, after: seq<Buf>, i: nat, b: int) {
    && |before| == |after| == NBUF && i < NBUF
    && after == before[i := after[i]]
    && Holds(after[i], ROOTDEV, b) && after[i].valid && after[i].locked && after[i].refcnt > 0
    && (Holds(before[i], ROOTDEV, b) ==> after[i] == before[i].(refcnt := before[i].refcnt + 1, locked := true))
    && (!Holds(before[i], ROOTDEV, b) ==> Unused(before[i]) && after[i].refcnt == 1 && !after[i].dirty)
  }

  /** Enough buffers to read a log block and block `c` at once: one that can be recycled when `c` is
      pinned, else two. */
  ghost predicate Spare(bufs: seq<Buf>, pend: map<int, Block>, c: int) {
    && (exists i :: 0 <= i < |bufs| && Unused(bufs[i]))
    && (c in pend || exists i, j :: 0 <= i < j < |bufs| && Unused(bufs[i]) && Unused(bufs[j]))
  }

  lemma SpareServes(s0: seq<Buf>, pend: map<int, Block>, b: int, c: int)
    requires Spare(s0, pend, c)
    ensures CanServe(s0, ROOTDEV, b)
  {
  }

  lemma SpareServesNext(s0: seq<Buf>, s1: seq<Buf>, blocks: Image, pend: map<int, Block>, i: nat, b: int, c: int)
    requires Spare(s0, pend, c) && Coherent(s1, blocks, pend) && ReadEffect(s0, s1, i, b)
    ensures CanServe(s1, ROOTDEV, c)
  {
    if c in pend {
      assert Pinned(s1, c);
    } else {
      var j, k :| 0 <= j < k < |s0| && Unused(s0[j]) && Unused(s0[k]);
      assert Unused(s1[j]) || Unused(s1[k]);
    }
  }

  /** Enough buffers to install the whole list. */
  ghost predicate SpareFor(bufs: seq<Buf>, pend: map<int, Block>, bs: seq<int>) {
    && (exists i :: 0 <= i < |bufs| && Unused(bufs[i]))
    && (AllPending(bs, pend)
        || exists i, j :: 0 <= i < j < |bufs| && Unused(bufs[i]) && Unused(bufs[j]))
  }

  lemma RestoredSelf(s: seq<Buf>)
    ensures Restored(s, s)
  {
  }

  lemma RestoredTrans(s0: seq<Buf>, s1: seq<Buf>, s2: seq<Buf>)
    requires Restored(s0, s1) && Restored(s1, s2)
    ensures Restored(s0, s2)
  {
  }

  lemma RestoredSpare(s0: seq<Buf>, s1: seq<Buf>, pend0: map<int, Block>, pend: map<int, Block>,
                      l: Layout, bs: seq<int>, tail: nat)
    requires Restored(s0, s1) && SpareFor(s0, pend0, bs) && tail < |bs| && GoodList(l, bs)
    requires pend == pend0 - Elems(bs[..tail])
    ensures Spare(s1, pend, bs[tail])
  {
  }

  /** Buffers `i` and `j` have been read; every other buffer is as before. */
  ghost predicate PairRead(s0: seq<Buf>, s2: seq<Buf>, i: nat, j: nat, b: int, c: int) {
    && |s0| == |s2| == NBUF && i < NBUF && j < NBUF && i != j
    && (forall k :: 0 <= k < NBUF && k != i && k != j ==> s2[k] == s0[k])
    && Holds(s2[i], ROOTDEV, b) && Holds(s2[j], ROOTDEV, c)
    && (forall k :: k == i || k == j ==>
          s2[k].locked && s2[k].refcnt > 0 && (Unused(s0[k]) ==> s2[k].refcnt == 1 && !s2[k].dirty))
  }

  lemma PairReadIntro(s0: seq<Buf>, s1: seq<Buf>, s2: seq<Buf>, i: nat, j: nat, b: int, c: int)
    requires b != c && ReadEffect(s0, s1, i, b) && ReadEffect(s1, s2, j, c)
    ensures PairRead(s0, s2, i, j, b, c)
  {
  }

  /** Both buffers of a pair have been released, clean if they were not used before. */
  lemma PairRestored(s0: seq<Buf>, s2: seq<Buf>, s3: seq<Buf>, i: nat, j: nat, b: int, c: int)
    requires PairRead(s0, s2, i, j, b, c) && |s3| == NBUF
    requires forall k :: 0 <= k < NBUF && k != i && k != j ==> s3[k] == s2[k]
    requires forall k :: k == i || k == j ==>
               !s3[k].locked && s3[k].refcnt == s2[k].refcnt - 1 && (s3[k].dirty ==> s2[k].dirty)
    ensures Restored(s0, s3)
  {
  }

  ghost predicate AllPending(bs: seq<int>, pend: map<int, Block>) {
    forall i :: 0 <= i < |bs| ==> bs[i] in pend
  }

  ghost predicate OnlyListed(bs: seq<int>, pend: map<int, Block>) {
    forall b :: b in pend ==> b in bs
  }

  function Elems(bs: seq<int>): set<int> {
    set b | b in bs
  }

  /** The data that write_log copies for the listed blocks. */
  ghost function Datas(bs: seq<int>, pend: map<int, Block>): (ws: seq<Block>)
    requires AllPending(bs, pend)
    ensures |ws| == |bs| && forall i :: 0 <= i < |bs| ==> ws[i] == pend[bs[i]]
  {
    seq(|bs|, i requires 0 <= i < |bs| => pend[bs[i]])
  }

  class Log {
    const lay: Layout
    const cache: Cache
    const disk: Disk
    var outstanding: int
    var committing: bool
    var n: nat                           // log.lh.n
    var block: array<int>                // log.lh.block
    ghost var pend: map<int, Block>      // last data passed to log_write and not yet installed
    ghost var ops: seq<Option<set<int>>> // blocks logged by the open operation of each process
    ghost var boot: Image                // the disk at power-on
    ghost var before: seq<Image>         // what its trace was then
    ghost var done: seq<H.Txn>             // the commits since

    ghost predicate Shape()
      reads this, block, cache, cache.buf, cache.next, cache.prev, disk
    {
      && block as object != cache.next && block as object != cache.prev
      && block.Length == LOGSIZE && n <= LOGSIZE
      && cache.Valid()
      && ValidLayout(lay) && |disk.blocks| == lay.disksize
    }

    /** All that was written since power-on is the recovery and the commits. */
    ghost predicate Historic()
      reads this`boot, this`before, this`done, disk
    {
      && GoodDisk(lay, boot) && H.GoodTxns(lay, done)
      && disk.trace == before + H.BootTrace(lay, boot, done)
      && disk.blocks == H.BootImage(lay, boot, done)
    }

    ghost function List(): seq<int>
      reads this, block
      requires n <= block.Length
    {
      block[..n]
    }

    /** Memory at boot: an empty header, and the geometry that initlog reads from the superblock. */
    constructor (lay: Layout, cache: Cache, disk: Disk)
      requires ValidLayout(lay) && |disk.blocks| == lay.disksize && cache.Valid()
      ensures Shape() && fresh(block) && this.lay == lay && this.cache == cache && this.disk == disk
      ensures n == 0 && outstanding == 0 && !committing && pend == map[] && ops == seq(NPROC, _ => None)
      ensures boot == disk.blocks && before == disk.trace && done == []
    {
      this.lay, this.cache, this.disk := lay, cache, disk;
      outstanding, committing, n := 0, false, 0;
      block := new int[LOGSIZE](_ => 0);
      pend := map[];
      ops := seq(NPROC, _ => None);
      boot, before, done := disk.blocks, disk.trace, [];
    }

    /** bread as the log uses it. */
    method Read(b: int) returns (i: nat)
      requires Shape() && Coherent(cache.buf[..], disk.blocks, pend)
      requires 0 <= b < |disk.blocks| && Free(cache.buf[..], ROOTDEV, b) && CanServe(cache.buf[..], ROOTDEV, b)
      modifies cache.buf, disk
      ensures Shape() && Coherent(cache.buf[..], disk.blocks, pend)
      ensures disk.blocks == old(disk.blocks) && disk.trace == old(disk.trace)
      ensures ReadEffect(old(cache.buf[..]), cache.buf[..], i, b)
      ensures cache.buf[i].data == Current(pend, disk.blocks, b) && (cache.buf[i].dirty <==> b in pend)
      ensures old(Valid()) ==> Valid() && View() == old(View())
    {
      ghost var bufs := cache.buf[..];
      var r := cache.Bread(disk, ROOTDEV, b);
      i := r.value;
      BreadCoherent(bufs, cache.order, disk.blocks, pend, b, i);
    }

    /** bwrite of a locked buffer. */
    method WriteOut(i: nat)
      requires Shape() && Coherent(cache.buf[..], disk.blocks, pend)
      requires i < NBUF && cache.buf[i].locked && cache.buf[i].dev == ROOTDEV
      modifies cache.buf, disk, this`pend
      ensures Shape() && pend == old(pend) - {cache.buf[i].blockno}
      ensures Coherent(cache.buf[..], disk.blocks, pend)
      ensures 0 <= cache.buf[i].blockno < |disk.blocks|
      ensures disk.blocks == old(disk.blocks)[cache.buf[i].blockno := cache.buf[i].data]
      ensures disk.trace == old(disk.trace) + [disk.blocks]
      ensures cache.buf[..] == old(cache.buf[..])[i := old(cache.buf[..])[i].(dirty := false)]
    {
      ghost var bufs, blocks := cache.buf[..], disk.blocks;
      BwriteCoherent(bufs, blocks, pend, i);
      assert Agrees(bufs[i], blocks, pend);
      cache.Bwrite(disk, i);
      pend := pend - {cache.buf[i].blockno};
    }

    /** brelse of a buffer that has the current contents. */
    method Release(i: nat)
      requires Shape() && Coherent(cache.buf[..], disk.blocks, pend)
      requires i < NBUF && cache.buf[i].locked && cache.buf[i].dev == ROOTDEV
      requires 0 <= cache.buf[i].blockno < |disk.blocks| &&
        cache.buf[i].data == Current(pend, disk.blocks, cache.buf[i].blockno)
      modifies cache`order, cache.buf, cache.next, cache.prev
      ensures Shape() && Coherent(cache.buf[..], disk.blocks, pend)
      ensures old(cache.buf[i]).refcnt > 0 && cache.buf[..] == old(cache.buf[..])[i := Released(old(cache.buf[i]))]
      ensures old(Valid()) ==> Valid() && View() == old(View())
    {
      ghost var bufs := cache.buf[..];
      BrelseCoherent(bufs, disk.blocks, pend, i);
      cache.Brelse(i);
    }

    /** The caller changes the data of a buffer it has locked. */
    method Fill(i: nat, data: Block)
      requires Shape() && Coherent(cache.buf[..], disk.blocks, pend)
      requires i < NBUF && cache.buf[i].locked
      modifies cache.buf
      ensures Shape() && Coherent(cache.buf[..], disk.blocks, pend)
      ensures cache.buf[..] == old(cache.buf[..])[i := old(cache.buf[i]).(data := data)]
      ensures old(Valid()) ==> Valid() && View() == old(View())
    {
      ghost var bufs := cache.buf[..];
      SetDataCoherent(bufs, disk.blocks, pend, i, data);
      cache.SetData(i, data);
    }

    /** The log block and its home block, both read and locked. */
    method ReadPair(b: int, c: int, ghost bs: seq<int>) returns (i: nat, j: nat)
      requires Shape() && Coherent(cache.buf[..], disk.blocks, pend)
      requires b != c && 0 <= b < |disk.blocks| && 0 <= c < |disk.blocks|
      requires Involved(lay, bs, b) && Involved(lay, bs, c) && Idle(cache.buf[..], lay, bs)
      requires b !in pend && Spare(cache.buf[..], pend, c)
      modifies cache.buf, disk
      ensures Shape() && Coherent(cache.buf[..], disk.blocks, pend)
      ensures disk.blocks == old(disk.blocks) && disk.trace == old(disk.trace)
      ensures PairRead(old(cache.buf[..]), cache.buf[..], i, j, b, c)
      ensures cache.buf[i].data == disk.blocks[b] && !cache.buf[i].dirty
      ensures cache.buf[j].data == Current(pend, disk.blocks, c)
    {
      ghost var s0 := cache.buf[..];
      SpareServes(s0, pend, b, c);
      i := Read(b);
      ghost var s1 := cache.buf[..];
      SpareServesNext(s0, s1, disk.blocks, pend, i, b, c);
      j := Read(c);
      PairReadIntro(s0, s1, cache.buf[..], i, j, b, c);
    }

    /** memmove(dst, src); bwrite(dst); brelse(src); brelse(dst). */
    method CopyAndRelease(dst: nat, src: nat)
      requires Shape() && Coherent(cache.buf[..], disk.blocks, pend)
      requires dst < NBUF && src < NBUF && dst != src
      requires cache.buf[dst].locked && cache.buf[src].locked
      requires cache.buf[dst].dev == ROOTDEV && cache.buf[src].dev == ROOTDEV
      requires 0 <= cache.buf[src].blockno < |disk.blocks| && cache.buf[src].blockno != cache.buf[dst].blockno
      requires cache.buf[src].data == Current(pend, disk.blocks, cache.buf[src].blockno)
      modifies this`pend, cache`order, cache.buf, cache.next, cache.prev, disk
      ensures Shape() && pend == old(pend) - {old(cache.buf[dst]).blockno}
      ensures Coherent(cache.buf[..], disk.blocks, pend)
      ensures 0 <= old(cache.buf[dst]).blockno < |disk.blocks|
      ensures disk.blocks == old(disk.blocks)[old(cache.buf[dst]).blockno := old(cache.buf[src]).data]
      ensures disk.trace == old(disk.trace) + [disk.blocks]
      ensures forall k :: 0 <= k < NBUF && k != dst && k != src ==> cache.buf[k] == old(cache.buf[k])
      ensures cache.buf[src] == old(cache.buf[src]).(locked := false, refcnt := cache.buf[src].refcnt)
      ensures old(cache.buf[src]).refcnt == cache.buf[src].refcnt + 1
      ensures old(cache.buf[dst]).refcnt == cache.buf[dst].refcnt + 1
      ensures !cache.buf[dst].locked && !cache.buf[dst].dirty
    {
      Fill(dst, cache.buf[src].data);
      WriteOut(dst);
      Release(src);
      Release(dst);
    }

    /** The loop body of write_log: cached block to log block. */
    method LogBlock(tail: nat)
      requires Shape() && GoodList(lay, List()) && tail < n && PendHome()
      requires Coherent(cache.buf[..], disk.blocks, pend) && block[tail] in pend
      requires Idle(cache.buf[..], lay, List()) && Spare(cache.buf[..], pend, block[tail])
      modifies this`pend, cache`order, cache.buf, cache.next, cache.prev, disk
      ensures Shape() && pend == old(pend)
      ensures Coherent(cache.buf[..], disk.blocks, pend)
      ensures disk.blocks == old(disk.blocks)[lay.start + tail + 1 := pend[block[tail]]]
      ensures disk.trace == old(disk.trace) + [disk.blocks]
      ensures Restored(old(cache.buf[..]), cache.buf[..])
    {
      ghost var b, c := lay.start + tail + 1, block[tail];
      ghost var s0 := cache.buf[..];
      var to, from := ReadPair(lay.start + tail + 1, block[tail], List());
      ghost var s2 := cache.buf[..];
      CopyAndRelease(to, from);
      PairRestored(s0, s2, cache.buf[..], to, from, b, c);
      assert pend == old(pend);
    }

    /** The loop body of install_trans: log block to home block. */
    method InstallBlock(tail: nat)
      requires Shape() && GoodList(lay, List()) && tail < n && PendHome()
      requires Coherent(cache.buf[..], disk.blocks, pend)
      requires Idle(cache.buf[..], lay, List()) && Spare(cache.buf[..], pend, block[tail])
      modifies this`pend, cache`order, cache.buf, cache.next, cache.prev, disk
      ensures Shape() && pend == old(pend) - {block[tail]}
      ensures Coherent(cache.buf[..], disk.blocks, pend)
      ensures disk.blocks == old(disk.blocks)[block[tail] := old(disk.blocks)[lay.start + tail + 1]]
      ensures disk.trace == old(disk.trace) + [disk.blocks]
      ensures Restored(old(cache.buf[..]), cache.buf[..])
    {
      hide RingList.Cyclic, Permutation, GoodBufs, Coherent;
      ghost var b, c := lay.start + tail + 1, block[tail];
      ghost var s0 := cache.buf[..];
      var lbuf, dbuf := ReadPair(lay.start + tail + 1, block[tail], List());
      ghost var s2 := cache.buf[..];
      CopyAndRelease(dbuf, lbuf);
      PairRestored(s0, s2, cache.buf[..], lbuf, dbuf, b, c);
    }

    ghost predicate PendHome()
      reads this
    {
      forall b :: b in pend ==> Home(lay, b)
    }

    /** write_log: the trace of disk images is exactly `PutLog` after one, two, ... writes. */
    method WriteLog()
      requires Shape() && GoodList(lay, List()) && PendHome()
      requires Coherent(cache.buf[..], disk.blocks, pend)
      requires AllPending(List(), pend)
      requires Idle(cache.buf[..], lay, List()) && exists i :: 0 <= i < NBUF && Unused(cache.buf[i])
      modifies this`pend, cache`order, cache.buf, cache.next, cache.prev, disk
      ensures Shape() && pend == old(pend) && Coherent(cache.buf[..], disk.blocks, pend)
      ensures disk.blocks == PutLog(lay, old(disk.blocks), Datas(List(), pend), n)
      ensures disk.trace == old(disk.trace) + PutTrace(lay, old(disk.blocks), Datas(List(), pend), n)
      ensures Restored(old(cache.buf[..]), cache.buf[..])
    {
      hide RingList.Cyclic, Permutation, GoodBufs, Coherent, Idle;
      ghost var ws := Datas(List(), pend);
      ghost var d := disk.blocks;
      ghost var s0 := cache.buf[..];
      var tail := 0;
      while tail < n
        invariant 0 <= tail <= n
        invariant Shape() && pend == old(pend) && Coherent(cache.buf[..], disk.blocks, pend)
        invariant disk.blocks == PutLog(lay, d, ws, tail)
        invariant disk.trace == old(disk.trace) + PutTrace(lay, d, ws, tail)
        invariant Restored(s0, cache.buf[..])
      {
        RestoredIdle(s0, cache.buf[..], lay, List());
        LogBlock(tail);
        tail := tail + 1;
      }
    }

    /** The words that write_head leaves in the header buffer: n, the list, and stale entries behind it. */
    method HeadWords(was: Block) returns (data: Block)
      requires n <= block.Length == LOGSIZE
      ensures data == HeadBlock(was, List())
    {
      data := was[0 := n];
      var k := 0;
      while k < n
        invariant 0 <= k <= n
        invariant data == [n] + block[..k] + was[k + 1..]
      {
        data := data[k + 1 := block[k]];
        k := k + 1;
      }
    }

    /** write_head: only the count and the first n entries of the header block change. */
    method WriteHead()
      requires Shape() && n <= LOGSIZE && PendHome()
      requires Coherent(cache.buf[..], disk.blocks, pend)
      requires Idle(cache.buf[..], lay, List()) && exists i :: 0 <= i < NBUF && Unused(cache.buf[i])
      modifies this`pend, cache`order, cache.buf, cache.next, cache.prev, disk
      ensures Shape() && pend == old(pend) && Coherent(cache.buf[..], disk.blocks, pend)
      ensures disk.blocks == PutHead(lay, old(disk.blocks), List())
      ensures disk.trace == old(disk.trace) + [disk.blocks]
      ensures Restored(old(cache.buf[..]), cache.buf[..])
    {
      hide RingList.Cyclic, Permutation, GoodBufs, Coherent, Idle;
      ghost var s0 := cache.buf[..];
      ghost var bs, d := List(), disk.blocks;
      IdleFree(cache.buf[..], lay, List(), lay.start);
      var i := Read(lay.start);
      ghost var s1 := cache.buf[..];
      var data := HeadWords(cache.buf[i].data);
      Fill(i, data);
      WriteOut(i);
      assert pend == old(pend);
      Release(i);
    }

    /** install_trans: blocks that are installed stop being pending. */
    method InstallTrans()
      requires Shape() && GoodList(lay, List()) && PendHome()
      requires Coherent(cache.buf[..], disk.blocks, pend)
      requires Idle(cache.buf[..], lay, List()) && SpareFor(cache.buf[..], pend, List())
      modifies this`pend, cache`order, cache.buf, cache.next, cache.prev, disk
      ensures Shape() && Coherent(cache.buf[..], disk.blocks, pend)
      ensures pend == old(pend) - Elems(List())
      ensures disk.blocks == Install(lay, old(disk.blocks), List(), n)
      ensures disk.trace == old(disk.trace) + InstallTrace(lay, old(disk.blocks), List(), n)
      ensures Restored(old(cache.buf[..]), cache.buf[..])
    {
      hide RingList.Cyclic, Permutation, GoodBufs, Coherent, Idle, Spare, SpareFor, Restored, GoodList;
      RestoredSelf(cache.buf[..]);
      ghost var s0, bs, d := cache.buf[..], List(), disk.blocks;
      var tail := 0;
      while tail < n
        invariant 0 <= tail <= n && List() == bs
        invariant Shape() && Coherent(cache.buf[..], disk.blocks, pend)
        invariant pend == old(pend) - Elems(bs[..tail]) && PendHome()
        invariant disk.blocks == Install(lay, d, bs, tail)
        invariant disk.trace == old(disk.trace) + InstallTrace(lay, d, bs, tail)
        invariant Restored(s0, cache.buf[..])
      {
        ghost var e, s1 := disk.blocks, cache.buf[..];
        RestoredIdle(s0, s1, lay, bs);
        RestoredSpare(s0, s1, old(pend), pend, lay, bs, tail);
        InstallBlock(tail);
        RestoredTrans(s0, s1, cache.buf[..]);
        assert bs[..tail + 1] == bs[..tail] + [bs[tail]];
        tail := tail + 1;
      }
      assert bs[..n] == bs;
    }

    /** The admission state: the header as a list, and who has an operation open. */
    ghost function View(): A.Admission
      reads this, block
      requires n <= block.Length
    {
      A.Admission(lay.size, List(), outstanding, committing, ops)
    }

    /** What holds between any two steps of any processes. */
    ghost predicate Valid()
      reads this, block, cache, cache.buf, cache.next, cache.prev, disk
    {
      && Shape()
      && Coherent(cache.buf[..], disk.blocks, pend)
      && PendHome()
      && GoodDisk(lay, disk.blocks) && Logged(lay, disk.blocks) == []
      && n <= lay.size - 1
      && AllPending(List(), pend) && OnlyListed(List(), pend)
      && A.Inv(View(), MAXOPBLOCKS)
    }

    /** What a commit now would put into the history: nothing if nothing is listed. */
    ghost function Next(): seq<H.Txn>
      requires Valid()
      reads this, block, cache, cache.buf, cache.next, cache.prev, disk
    {
      if n > 0 then [H.Txn(List(), Datas(List(), pend))] else []
    }

    /** commit, run while no operation is open. Every image left on the disk on the way is one of
        `CommitImage`, so `CrashAtomicity` applies to each; at the end the homes hold what was last logged. */
    method Commit()
      requires Valid() && Historic() && committing
      requires Idle(cache.buf[..], lay, List()) && exists i :: 0 <= i < NBUF && Unused(cache.buf[i])
      modifies this`n, this`pend, this`done, cache`order, cache.buf, cache.next, cache.prev, disk
      ensures Valid() && Historic() && n == 0 && pend == map[]
      ensures done == old(done) + old(Next())
      ensures View() == old(View()).(blocks := [])
      ensures old(n) == 0 ==> disk.blocks == old(disk.blocks) && disk.trace == old(disk.trace)
      ensures old(n) > 0 ==>
                CommitEffect(lay, old(disk.blocks), old(List()), old(pend), old(disk.trace), disk.blocks, disk.trace)
      ensures forall b :: Home(lay, b) ==> disk.blocks[b] == Current(old(pend), old(disk.blocks), b)
    {
      hide RingList.Cyclic, Permutation, GoodBufs, Coherent, Idle, GoodList, A.Inv, GoodDisk, Logged;
      hide AllPending, OnlyListed, CommitEffect, Current, H.BootTrace, H.BootImage, H.GoodTxns;
      EmptiedInv(View());
      ListGood(lay, View(), pend);
      NothingPending(lay, disk.blocks, pend, List());
      ghost var d, bs, pend0, t, v := disk.blocks, List(), pend, disk.trace, View();
      ghost var next := Next();
      if n > 0 {
        CommitTransaction();
        CommitEffectUse(lay, d, bs, pend0, t, disk.blocks, disk.trace);
        Settled(v);
        CommitRecorded(lay, boot, done, bs, pend0, before, t, disk.blocks, disk.trace);
        done := done + next;
      } else {
        NoList();
      }
    }

    /** The end of end_op: operations are admitted again. */
    method Reopen()
      requires Valid() && committing && n == 0
      modifies this`committing
      ensures Valid() && View() == old(View()).(committing := false)
    {
      hide RingList.Cyclic, Permutation, Coherent, GoodDisk, A.Inv, GoodBufs, AllPending, OnlyListed;
      NoList();
      A.CommittedInv(View(), MAXOPBLOCKS);
      committing := false;
    }

    /** What the last end_op does after its critical section: commit, then admission again. */
    method EndOpCommit()
      requires Valid() && Historic() && committing
      requires Idle(cache.buf[..], lay, List()) && exists i :: 0 <= i < NBUF && Unused(cache.buf[i])
      modifies this`n, this`pend, this`committing, this`done, cache`order, cache.buf, cache.next, cache.prev, disk
      ensures Valid() && pend == map[]
      ensures Some(View()) == A.Step(old(View()), A.Committed)
      ensures forall b :: Home(lay, b) ==> disk.blocks[b] == Current(old(pend), old(disk.blocks), b)
      ensures Historic() && done == old(done) + old(Next())
    {
      hide Shape, Coherent, GoodDisk, A.Inv, CommitEffect, AllPending, OnlyListed, PendHome, Idle, Historic, Next;
      Commit();
      Reopen();
    }

    /** Power fails after any write since power-on: the disk then stands for what it stood for at power-on, and for
        exactly those commits whose header write is among the writes. */
    lemma CrashAnywhere(c: nat)
      requires Historic() && |before| + c <= |disk.trace|
      ensures var e := H.ImageAt(boot, disk.trace[|before|..], c);
        && GoodDisk(lay, e)
        && forall b :: Home(lay, b) ==>
             Meaning(lay, e, b) == H.Or(H.Latest(done[..H.BootCommitted(lay, boot, done, c)], b), Meaning(lay, boot, b))
    {
      assert disk.trace[|before|..] == H.BootTrace(lay, boot, done);
      H.BootMeans(lay, boot, done, c);
    }

    /** With an empty header all that is left of `Valid` is the cache, the disk and the open operations. */
    lemma Settled(v: A.Admission)
      requires Shape() && n == 0 && pend == map[] && Coherent(cache.buf[..], disk.blocks, pend)
      requires GoodDisk(lay, disk.blocks) && Logged(lay, disk.blocks) == []
      requires A.Inv(v.(blocks := []), MAXOPBLOCKS)
      requires v.size == lay.size && v.outstanding == outstanding && v.committing == committing && v.ops == ops
      ensures Valid() && View() == v.(blocks := [])
    {
      NoList();
      assert View() == v.(blocks := []);
    }

    lemma NoList()
      requires n == 0
      ensures List() == []
    {
    }

    /** The common end of commit and recovery: install_trans, n = 0, write_head. */
    method InstallAndClear()
      requires Shape() && PendHome() && Coherent(cache.buf[..], disk.blocks, pend)
      requires GoodDisk(lay, disk.blocks) && Logged(lay, disk.blocks) == List()
      requires Idle(cache.buf[..], lay, List()) && SpareFor(cache.buf[..], pend, List())
      modifies this`n, this`pend, cache`order, cache.buf, cache.next, cache.prev, disk
      ensures Shape() && n == 0 && pend == old(pend) - Elems(old(List())) && Coherent(cache.buf[..], disk.blocks, pend)
      ensures disk.blocks == Recovered(lay, old(disk.blocks))
      ensures disk.trace == old(disk.trace) + RecoveryTrace(lay, old(disk.blocks), old(n) + 1)
    {
      hide RingList.Cyclic, Permutation, GoodBufs, Coherent, Idle, SpareFor, Restored, GoodDisk, GoodList;
      hide PutHead, Install, InstallTrace, Logged;
      ghost var d, bs, s0, t := disk.blocks, List(), cache.buf[..], disk.trace;
      SpareOne(s0, pend, bs);
      InstallTraceIs(lay, d, |bs|);
      InstallTrans();
      RestoredReady(s0, cache.buf[..], lay, bs);
      IdleNone(cache.buf[..], lay, bs);
      n := 0;
      assert List() == [];
      WriteHead();
    }

    /** The log and the header reach the disk: the point at which the transaction commits. */
    method LogTransaction()
      requires Shape() && GoodList(lay, List()) && PendHome()
      requires Coherent(cache.buf[..], disk.blocks, pend) && AllPending(List(), pend)
      requires Idle(cache.buf[..], lay, List()) && exists i :: 0 <= i < NBUF && Unused(cache.buf[i])
      modifies this`pend, cache`order, cache.buf, cache.next, cache.prev, disk
      ensures Shape() && pend == old(pend) && Coherent(cache.buf[..], disk.blocks, pend)
      ensures Idle(cache.buf[..], lay, List()) && exists i :: 0 <= i < NBUF && Unused(cache.buf[i])
      ensures disk.blocks == PutHead(lay, PutLog(lay, old(disk.blocks), Datas(List(), pend), n), List())
      ensures disk.trace == old(disk.trace) + PutTrace(lay, old(disk.blocks), Datas(List(), pend), n) + [disk.blocks]
    {
      hide RingList.Cyclic, Permutation, GoodBufs, Coherent, Idle, Restored, GoodList, PutLog, PutHead, PutTrace;
      ghost var s0 := cache.buf[..];
      WriteLog();
      RestoredReady(s0, cache.buf[..], lay, List());
      ghost var s1 := cache.buf[..];
      WriteHead();
      RestoredReady(s1, cache.buf[..], lay, List());
    }

    /** The phases of a commit that has something to write. */
    method CommitTransaction()
      requires Shape() && PendHome() && Coherent(cache.buf[..], disk.blocks, pend)
      requires GoodDisk(lay, disk.blocks) && Logged(lay, disk.blocks) == [] && GoodList(lay, List())
      requires AllPending(List(), pend) && OnlyListed(List(), pend)
      requires Idle(cache.buf[..], lay, List()) && exists i :: 0 <= i < NBUF && Unused(cache.buf[i])
      modifies this`n, this`pend, cache`order, cache.buf, cache.next, cache.prev, disk
      ensures Shape() && n == 0 && pend == map[] && Coherent(cache.buf[..], disk.blocks, pend)
      ensures CommitEffect(lay, old(disk.blocks), old(List()), old(pend), old(disk.trace), disk.blocks, disk.trace)
    {
      hide RingList.Cyclic, Permutation, GoodBufs, Coherent, Idle, SpareFor, GoodDisk, GoodList;
      hide PutLog, PutHead, PutTrace, RecoveryTrace, Recovered, CommitEffect, Logged, AllPending, OnlyListed;
      ghost var d, bs, t := disk.blocks, List(), disk.trace;
      CommitEffectIntro(lay, d, bs, pend, t);
      AllRemoved(pend, bs);
      LogTransaction();
      SpareForAll(cache.buf[..], pend, bs);
      InstallAndClear();
    }

    /** The words of the header buffer that read_head takes over. */
    method TakeHead(data: Block)
      requires block.Length == LOGSIZE && 0 <= data[0] <= LOGSIZE
      modifies this`n, block
      ensures n <= LOGSIZE && List() == HeadList(data)
    {
      n := data[0];
      var k := 0;
      while k < n
        invariant 0 <= k <= n == data[0]
        invariant block[..k] == data[1..k + 1]
      {
        block[k] := data[k + 1];
        k := k + 1;
      }
    }

    /** read_head. */
    method ReadHead()
      requires Shape() && Coherent(cache.buf[..], disk.blocks, pend) && pend == map[]
      requires GoodDisk(lay, disk.blocks) && Idle(cache.buf[..], lay, [])
      requires exists i :: 0 <= i < NBUF && Unused(cache.buf[i])
      modifies this`n, block, cache`order, cache.buf, cache.next, cache.prev, disk
      ensures Shape() && Coherent(cache.buf[..], disk.blocks, pend)
      ensures disk.blocks == old(disk.blocks) && disk.trace == old(disk.trace)
      ensures List() == Logged(lay, disk.blocks)
      ensures Restored(old(cache.buf[..]), cache.buf[..])
    {
      hide RingList.Cyclic, Permutation, GoodBufs, Coherent, Idle;
      ghost var s0 := cache.buf[..];
      IdleFree(cache.buf[..], lay, [], lay.start);
      var i := Read(lay.start);
      TakeHead(cache.buf[i].data);
      Release(i);
    }

    /** initlog's recovery: the disk goes through `RecoveryTrace` and ends up `Recovered`. */
    method RecoverFromLog()
      requires Shape() && Coherent(cache.buf[..], disk.blocks, pend) && pend == map[]
      requires GoodDisk(lay, disk.blocks) && Idle(cache.buf[..], lay, Logged(lay, disk.blocks))
      requires exists i, j :: 0 <= i < j < NBUF && Unused(cache.buf[i]) && Unused(cache.buf[j])
      requires outstanding == 0 && !committing && ops == seq(NPROC, _ => None)
      modifies this`n, this`pend, block, cache`order, cache.buf, cache.next, cache.prev, disk
      ensures Valid() && n == 0 && pend == map[]
      ensures disk.blocks == Recovered(lay, old(disk.blocks))
      ensures disk.trace == old(disk.trace) + RecoveryTrace(lay, old(disk.blocks), |Logged(lay, old(disk.blocks))| + 1)
    {
      hide RingList.Cyclic, Permutation, GoodBufs, Coherent, Idle, GoodDisk, Restored, AllPending, OnlyListed, A.Inv;
      hide SpareFor;
      ghost var d, bs, s0 := disk.blocks, Logged(lay, disk.blocks), cache.buf[..];
      IdleNone(s0, lay, bs);
      A.InitInv(lay.size, NPROC, MAXOPBLOCKS);
      ClearKeepsMeaning(lay, d);
      NoneListed();
      ReadHead();
      SpareTwo(s0, cache.buf[..], pend, bs);
      RestoredIdle(s0, cache.buf[..], lay, bs);
      InstallAndClear();
      assert pend == map[];
      assert List() == [];
      assert View() == A.Init(lay.size, NPROC);
    }

    /** log_write's search for the block; n when it is not in the header. */
    method FindSlot(b: int) returns (k: nat)
      requires n <= block.Length
      ensures k <= n && (k < n ==> block[k] == b) && (k == n ==> b !in List())
    {
      k := 0;
      while k < n
        invariant 0 <= k <= n && b !in block[..k]
      {
        if block[k] == b {
          break;
        }
        k := k + 1;
      }
    }

    /** log_write's update of the header: absorb the block number or append it. */
    method Enter(b: int)
      requires n < block.Length
      modifies this`n, block
      ensures n <= old(n) + 1 && n <= block.Length && List() == A.Absorb(old(List()), b)
    {
      var k := FindSlot(b);
      block[k] := b;
      if k == n {
        n := n + 1;
      }
    }

    /** log_write: absorb or append the block number and pin the buffer; false is the panic. */
    method LogWrite(p: nat, i: nat) returns (ok: bool)
      requires Valid() && i < NBUF && cache.buf[i].locked && cache.buf[i].dev == ROOTDEV &&
        Home(lay, cache.buf[i].blockno)
      requires p < |ops| && ops[p].Some? && |ops[p].value + {cache.buf[i].blockno}| <= MAXOPBLOCKS
      modifies this`n, this`pend, this`ops, block, cache.buf
      ensures Valid()
      ensures ok <==> A.Step(old(View()), A.Write(p, old(cache.buf[i]).blockno)).Some?
      ensures ok ==> View() == A.Step(old(View()), A.Write(p, old(cache.buf[i]).blockno)).value
      ensures ok ==> pend == old(pend)[old(cache.buf[i]).blockno := old(cache.buf[i]).data]
      ensures ok ==> cache.buf[..] == old(cache.buf[..])[i := old(cache.buf[i]).(dirty := true)]
      ensures !ok ==> View() == old(View()) && pend == old(pend) && cache.buf[..] == old(cache.buf[..])
    {
      hide RingList.Cyclic, Permutation, Coherent, GoodBufs, GoodDisk, A.Inv, Logged, AllPending, OnlyListed;
      if n >= LOGSIZE || n >= lay.size - 1 {
        return false;
      }
      if outstanding < 1 {
        return false;
      }
      ghost var v, bufs, bs := View(), cache.buf[..], List();
      var b := cache.buf[i].blockno;
      LogWriteCoherent(bufs, disk.blocks, pend, i);
      CoherentGood(bufs[i := bufs[i].(dirty := true)], disk.blocks, pend[b := cache.buf[i].data]);
      A.StepInv(v, A.Write(p, b), MAXOPBLOCKS);
      ListedAbsorb(bs, pend, b, cache.buf[i].data);
      Enter(b);
      cache.buf[i] := cache.buf[i].(dirty := true);
      pend := pend[b := cache.buf[i].data];
      ops := ops[p := Some(ops[p].value + {b})];
      assert cache.buf[..] == bufs[i := bufs[i].(dirty := true)];
      assert GoodBufs(cache.buf[..]);
      assert View() == A.Step(v, A.Write(p, b)).value;
      ok := true;
    }

    /** One pass of begin_op's loop: admitted, or put to sleep to try again. */
    method BeginOp(p: nat) returns (admitted: bool)
      requires Valid() && p < |ops| && ops[p].None?
      modifies this`outstanding, this`ops
      ensures Valid() && admitted == A.Admits(old(View()))
      ensures Some(View()) == A.Step(old(View()), A.Begin(p))
    {
      hide RingList.Cyclic, Permutation, Coherent, GoodDisk, A.Inv, GoodBufs;
      A.StepInv(View(), A.Begin(p), MAXOPBLOCKS);
      if committing {
        return false;
      } else if n + (outstanding + 1) * MAXOPBLOCKS > LOGSIZE {
        return false;
      }
      outstanding := outstanding + 1;
      ops := ops[p := Some({})];
      return true;
    }

    /** The critical section of end_op; the last operation out has to commit. */
    method EndOp(p: nat) returns (doCommit: bool)
      requires Valid() && p < |ops| && ops[p].Some?
      modifies this`outstanding, this`ops, this`committing
      ensures Valid() && doCommit == committing
      ensures Some(View()) == A.Step(old(View()), A.End(p))
    {
      hide RingList.Cyclic, Permutation, Coherent, GoodDisk, A.Inv, GoodBufs;
      A.OpenInv(View(), p, MAXOPBLOCKS);
      A.StepInv(View(), A.End(p), MAXOPBLOCKS);
      doCommit := false;
      outstanding := outstanding - 1;
      if outstanding == 0 {
        doCommit := true;
        committing := true;
      }
      ops := ops[p := None];
    }
  }

  /** What a commit of the pending data does to the disk and its trace. */
  ghost predicate CommitEffect(l: Layout, d: Image, bs: seq<int>, pend: map<int, Block>, t: seq<Image>, d': Image,
                               t': seq<Image>)
    requires AllPending(bs, pend)
  {
    && GoodDisk(l, d) && Logged(l, d) == [] && GoodList(l, bs)
    && var ws := Datas(bs, pend);
      && d' == CommitImage(l, d, bs, ws, 2 * |bs| + 2)
      && t' == t + CommitTrace(l, d, bs, ws, 2 * |bs| + 2)
      && Logged(l, d') == []
      && forall b :: Home(l, b) ==> d'[b] == Current(pend, d, b)
  }

  /** The effect of a commit, as the history of the boot has it. */
  lemma CommitRecorded(l: Layout, boot: Image, done: seq<H.Txn>, bs: seq<int>, pend: map<int, Block>,
                       before: seq<Image>, t: seq<Image>, d': Image, t': seq<Image>)
    requires GoodDisk(l, boot) && H.GoodTxns(l, done) && t == before + H.BootTrace(l, boot, done) && bs != []
    requires AllPending(bs, pend) && CommitEffect(l, H.BootImage(l, boot, done), bs, pend, t, d', t')
    ensures var more := done + [H.Txn(bs, Datas(bs, pend))];
      H.GoodTxns(l, more) && t' == before + H.BootTrace(l, boot, more) && d' == H.BootImage(l, boot, more)
  {
    hide GoodDisk, GoodList, H.BootImage, H.BootTrace, CommitImage, CommitTrace, Logged;
    H.CommitNext(l, boot, done, H.Txn(bs, Datas(bs, pend)));
  }

  lemma CommitEffectUse(l: Layout, d: Image, bs: seq<int>, pend: map<int, Block>, t: seq<Image>, d': Image,
                        t': seq<Image>)
    requires AllPending(bs, pend) && CommitEffect(l, d, bs, pend, t, d', t')
    ensures GoodDisk(l, d') && Logged(l, d') == []
    ensures forall b :: Home(l, b) ==> d'[b] == Current(pend, d, b)
  {
  }

  lemma CommitEffectIntro(l: Layout, d: Image, bs: seq<int>, pend: map<int, Block>, t: seq<Image>)
    requires GoodDisk(l, d) && Logged(l, d) == [] && GoodList(l, bs) && AllPending(bs, pend) && OnlyListed(bs, pend)
    ensures var ws := Datas(bs, pend);
      var e := PutHead(l, PutLog(l, d, ws, |bs|), bs);
      && GoodDisk(l, e) && Logged(l, e) == bs
      && CommitEffect(l, d, bs, pend, t, Recovered(l, e), t + PutTrace(l, d, ws, |bs|) + [e] +
          RecoveryTrace(l, e, |bs| + 1))
  {
    var ws := Datas(bs, pend);
    var e := PutHead(l, PutLog(l, d, ws, |bs|), bs);
    PutHeadCommits(l, d, bs, ws);
    CommitTraceIs(l, d, bs, ws, e);
    ClearKeepsMeaning(l, e);
    AfterIsCurrent(l, d, bs, pend);
    ThreeParts(t, PutTrace(l, d, ws, |bs|), [e], RecoveryTrace(l, e, |bs| + 1));
  }

  lemma AfterIsCurrent(l: Layout, d: Image, bs: seq<int>, pend: map<int, Block>)
    requires |d| == l.disksize && AllPending(bs, pend) && OnlyListed(bs, pend)
    ensures forall b :: Home(l, b) ==> After(l, d, bs, Datas(bs, pend), b) == Current(pend, d, b)
  {
  }

  lemma ThreeParts(t: seq<Image>, a: seq<Image>, b: seq<Image>, c: seq<Image>)
    ensures t + a + b + c == t + (a + b + c)
  {
  }

  lemma ListedAbsorb(bs: seq<int>, pend: map<int, Block>, b: int, data: Block)
    requires AllPending(bs, pend) && OnlyListed(bs, pend)
    ensures AllPending(A.Absorb(bs, b), pend[b := data]) && OnlyListed(A.Absorb(bs, b), pend[b := data])
  {
    assert b in A.Absorb(bs, b);
    forall c | c in pend ensures c in A.Absorb(bs, b) {
      assert c in bs;
    }
  }

  lemma SpareTwo(s0: seq<Buf>, s1: seq<Buf>, pend: map<int, Block>, bs: seq<int>)
    requires Restored(s0, s1) && |s0| == NBUF && exists i, j :: 0 <= i < j < NBUF && Unused(s0[i]) && Unused(s0[j])
    ensures SpareFor(s1, pend, bs)
  {
    var i, j :| 0 <= i < j < NBUF && Unused(s0[i]) && Unused(s0[j]);
    assert Unused(s1[i]) && Unused(s1[j]);
  }

  lemma SpareOne(bufs: seq<Buf>, pend: map<int, Block>, bs: seq<int>)
    requires |bufs| == NBUF && SpareFor(bufs, pend, bs)
    ensures exists i :: 0 <= i < NBUF && Unused(bufs[i])
  {
  }

  lemma IdleFree(bufs: seq<Buf>, l: Layout, bs: seq<int>, b: int)
    requires Idle(bufs, l, bs) && Involved(l, bs, b)
    ensures Free(bufs, ROOTDEV, b)
  {
  }

  lemma NoneListed()
    ensures AllPending([], map[]) && OnlyListed([], map[])
  {
  }

  lemma CoherentGood(bufs: seq<Buf>, blocks: Image, pend: map<int, Block>)
    requires Coherent(bufs, blocks, pend)
    ensures GoodBufs(bufs)
  {
  }

  lemma NothingPending(l: Layout, d: Image, pend: map<int, Block>, bs: seq<int>)
    requires OnlyListed(bs, pend) && |d| == l.disksize
    ensures bs == [] ==> pend == map[] && forall b :: Home(l, b) ==> d[b] == Current(pend, d, b)
  {
    if bs == [] {
      assert forall b :: b !in pend;
    }
  }

  lemma AllRemoved(pend: map<int, Block>, bs: seq<int>)
    requires OnlyListed(bs, pend)
    ensures pend - Elems(bs) == map[]
  {
    var rest := pend - Elems(bs);
    assert forall b :: b in rest ==> b in pend && b in bs && b !in Elems(bs);
  }

  lemma EmptiedInv(s: A.Admission)
    requires A.Inv(s, MAXOPBLOCKS) && s.committing
    ensures A.Inv(s.(blocks := []), MAXOPBLOCKS)
  {
    A.CommittedInv(s, MAXOPBLOCKS);
  }

  lemma ListGood(l: Layout, s: A.Admission, pend: map<int, Block>)
    requires A.Inv(s, MAXOPBLOCKS) && |s.blocks| <= LOGSIZE && |s.blocks| <= l.size - 1
    requires AllPending(s.blocks, pend) && forall b :: b in pend ==> Home(l, b)
    ensures GoodList(l, s.blocks)
  {
  }

  lemma SpareForAll(bufs: seq<Buf>, pend: map<int, Block>, bs: seq<int>)
    requires |bufs| == NBUF && (exists i :: 0 <= i < NBUF && Unused(bufs[i])) && AllPending(bs, pend)
    ensures SpareFor(bufs, pend, bs)
  {
  }

  lemma IdleNone(bufs: seq<Buf>, l: Layout, bs: seq<int>)
    requires Idle(bufs, l, bs)
    ensures Idle(bufs, l, [])
  {
  }

  lemma RestoredReady(s0: seq<Buf>, s1: seq<Buf>, l: Layout, bs: seq<int>)
    requires Restored(s0, s1) && Idle(s0, l, bs) && |s0| == NBUF && exists i :: 0 <= i < NBUF && Unused(s0[i])
    ensures Idle(s1, l, bs) && exists i :: 0 <= i < NBUF && Unused(s1[i])
  {
    var i :| 0 <= i < NBUF && Unused(s0[i]);
    assert Unused(s1[i]);
  }

  /** initlog at boot: memory starts out empty, and whatever disk the last crash left is recovered. */
  method InitLog(lay: Layout, disk: Disk) returns (log: Log)
    requires GoodDisk(lay, disk.blocks)
    modifies disk
    ensures fresh(log) && fresh(log.cache) && log.lay == lay && log.disk == disk
    ensures log.Valid() && log.n == 0
    ensures log.Historic() && log.boot == old(disk.blocks) && log.before == old(disk.trace) && log.done == []
    ensures disk.blocks == Recovered(lay, old(disk.blocks))
    ensures disk.trace == old(disk.trace) + RecoveryTrace(lay, old(disk.blocks), |Logged(lay, old(disk.blocks))| + 1)
  {
    hide H.BootTrace, H.BootImage, RecoveryTrace, Recovered;
    var cache := new Cache();
    log := new Log(lay, cache, disk);
    assert Unused(cache.buf[0]) && Unused(cache.buf[1]);
    H.JustBooted(lay, disk.blocks);
    log.RecoverFromLog();
  }

  // --- When can bget serve commit? ---

  /** Block numbers of the first `k` buffers. */
  ghost function Numbers(bufs: seq<Buf>, k: nat): set<int>
    requires k <= |bufs|
  {
    if k == 0 then {} else Numbers(bufs, k - 1) + {bufs[k - 1].blockno}
  }

  lemma {:induction false} NumbersHas(bufs: seq<Buf>, k: nat, i: nat)
    requires i < k <= |bufs|
    ensures bufs[i].blockno in Numbers(bufs, k)
  {
    if i < k - 1 {
      NumbersHas(bufs, k - 1, i);
    }
  }

  lemma {:induction false} NumbersFrom(bufs: seq<Buf>, k: nat, b: int) returns (i: nat)
    requires k <= |bufs| && b in Numbers(bufs, k)
    ensures i < k && bufs[i].blockno == b
  {
    if b == bufs[k - 1].blockno {
      i := k - 1;
    } else {
      i := NumbersFrom(bufs, k - 1, b);
    }
  }

  lemma {:induction false} NumbersCount(bufs: seq<Buf>, k: nat)
    requires k <= |bufs|
    ensures |Numbers(bufs, k)| <= k
    ensures (forall i, j :: 0 <= i < j < k ==> bufs[i].blockno != bufs[j].blockno) ==> |Numbers(bufs, k)| == k
  {
    if k > 0 {
      NumbersCount(bufs, k - 1);
      if bufs[k - 1].blockno in Numbers(bufs, k - 1) {
        var i := NumbersFrom(bufs, k - 1, bufs[k - 1].blockno);
        assert Numbers(bufs, k) == Numbers(bufs, k - 1);
      }
    }
  }

  /** While nobody refers to a buffer, bget can recycle one exactly when fewer blocks are pending than
      there are buffers: a transaction as large as the cache would make commit panic. */
  lemma UnusedIff(bufs: seq<Buf>, blocks: Image, pend: map<int, Block>)
    requires Coherent(bufs, blocks, pend) && forall i :: 0 <= i < NBUF ==> bufs[i].refcnt == 0
    ensures (exists i :: 0 <= i < NBUF && Unused(bufs[i])) <==> |pend| < NBUF
  {
    if i :| 0 <= i < NBUF && Unused(bufs[i]) {
      var rest := bufs[..i] + bufs[i + 1..];
      forall b | b in pend.Keys ensures b in Numbers(rest, NBUF - 1) {
        assert Pinned(bufs, b);
        var j :| 0 <= j < NBUF && Holds(bufs[j], ROOTDEV, b) && bufs[j].dirty;
        NumbersHas(rest, NBUF - 1, if j < i then j else j - 1);
      }
      NumbersCount(rest, NBUF - 1);
      SubsetSize(pend.Keys, Numbers(rest, NBUF - 1));
    } else {
      forall i | 0 <= i < NBUF ensures bufs[i].dirty && bufs[i].dev == ROOTDEV && bufs[i].blockno in pend {
        assert !Unused(bufs[i]) && Agrees(bufs[i], blocks, pend);
      }
      forall i, j | 0 <= i < j < NBUF ensures bufs[i].blockno != bufs[j].blockno {
        assert !Holds(bufs[j], bufs[i].dev, bufs[i].blockno);
      }
      NumbersCount(bufs, NBUF);
      forall b | b in Numbers(bufs, NBUF) ensures b in pend.Keys {
        var i := NumbersFrom(bufs, NBUF, b);
      }
      SubsetSize(Numbers(bufs, NBUF), pend.Keys);
    }
  }

  lemma {:induction false} ElemsCount(bs: seq<int>)
    ensures |Elems(bs)| <= |bs|
  {
    if bs == [] {
      assert Elems(bs) == {};
    } else {
      var init, last := bs[..|bs| - 1], bs[|bs| - 1];
      ElemsCount(init);
      assert Elems(bs) == Elems(init) + {last};
    }
  }

  /** With the log that mkfs lays out a buffer is left whenever the header is no longer than the guard of log_write
      allows, which is one block less than the cache has. */
  lemma {:induction false} MkfsLeavesABuffer(bufs: seq<Buf>, blocks: Image, pend: map<int, Block>, bs: seq<int>)
    requires Coherent(bufs, blocks, pend) && forall i :: 0 <= i < NBUF ==> bufs[i].refcnt == 0
    requires OnlyListed(bs, pend) && |bs| <= LOGSIZE - 1
    ensures exists i :: 0 <= i < NBUF && Unused(bufs[i])
  {
    ListedCount(bs, pend);
    UnusedIff(bufs, blocks, pend);
  }

  lemma ListedCount(bs: seq<int>, pend: map<int, Block>)
    requires OnlyListed(bs, pend)
    ensures |pend| <= |bs|
  {
    ElemsCount(bs);
    forall b | b in pend.Keys
      ensures b in Elems(bs)
    {
    }
    SubsetSize(pend.Keys, Elems(bs));
  }
}
