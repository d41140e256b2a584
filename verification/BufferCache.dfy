/** The circular doubly linked list of the buffer cache, as two index arrays. */
module RingList {
  import opened Sequences

  /** Position after `i` on a cycle of `n` positions. */
  function Succ(i: nat, n: nat): nat
    requires i < n
  {
    if i + 1 == n then 0 else i + 1
  }

  /** `ring` lists the nodes of one cycle, and both link arrays follow it. */
  ghost predicate Cyclic(ring: seq<nat>, next: seq<nat>, prev: seq<nat>) {
    && |ring| >= 1 && |next| == |prev|
    && Distinct(ring)
    && (forall i :: 0 <= i < |ring| ==> ring[i] < |next|)
    && (forall i :: 0 <= i < |ring| ==> next[ring[i]] == ring[Succ(i, |ring|)])
    && (forall i :: 0 <= i < |ring| ==> prev[ring[Succ(i, |ring|)]] == ring[i])
  }

  /** `b->next->prev = b->prev; b->prev->next = b->next` takes node `p` out of the cycle. */
  lemma {:induction false} Unlink(ring: seq<nat>, next: seq<nat>, prev: seq<nat>, p: nat)
    requires Cyclic(ring, next, prev) && 1 <= p < |ring|
    ensures next[ring[p]] < |prev| && prev[ring[p]] < |next|
    ensures Cyclic(ring[..p] + ring[p + 1..], next[prev[ring[p]] := next[ring[p]]],
                   prev[next[ring[p]] := prev[ring[p]]])
  {
    var b := ring[p];
    var n := |ring|;
    assert ring[Succ(p - 1, n)] == b;
    var r := ring[..p] + ring[p + 1..];
    var next', prev' := next[prev[b] := next[b]], prev[next[b] := prev[b]];
    assert prev[b] == ring[p - 1] && next[b] == ring[Succ(p, n)];
    forall i | 0 <= i < |r|
      ensures r[i] < |next'| && next'[r[i]] == r[Succ(i, |r|)] && prev'[r[Succ(i, |r|)]] == r[i]
    {
      var j := if i < p then i else i + 1;
      assert r[i] == ring[j] && next[ring[j]] == ring[Succ(j, n)] && prev[ring[Succ(j, n)]] == ring[j];
      if i == p - 1 {
        assert r[Succ(i, |r|)] == ring[Succ(p, n)];
      } else {
        assert r[Succ(i, |r|)] == ring[Succ(j, n)];
        assert Succ(j, n) != Succ(p, n) && ring[j] != ring[p - 1] && ring[Succ(j, n)] != ring[Succ(p, n)];
      }
    }
  }

  /** Linking a node that is on no cycle right behind the first one. */
  lemma {:induction false} LinkFront(ring: seq<nat>, next: seq<nat>, prev: seq<nat>, b: nat)
    requires Cyclic(ring, next, prev) && b < |next| && b !in ring
    ensures var h := ring[0];
      && next[h] < |prev|
      && Cyclic([h, b] + ring[1..], next[b := next[h]][h := b], prev[b := h][next[h] := b])
  {
    var h := ring[0];
    var n := |ring|;
    var r := [h, b] + ring[1..];
    var next', prev' := next[b := next[h]][h := b], prev[b := h][next[h] := b];
    assert next[h] == ring[Succ(0, n)];
    forall i | 0 <= i < |r|
      ensures next'[r[i]] == r[Succ(i, |r|)] && prev'[r[Succ(i, |r|)]] == r[i]
    {
      if i >= 2 {
        assert r[i] == ring[i - 1];
        assert r[Succ(i, |r|)] == ring[Succ(i - 1, n)];
      }
    }
  }
}

/** bio.c over the memory disk of memide.c. */
module BufferCache {
  import opened Wrappers
  import opened RingList
  import opened Sequences
  import opened LogCrash
  import opened Params

  const HEAD: nat := NBUF          // the list head sits behind the buffers

  datatype Buf = Buf(dev: int, blockno: int, valid: bool, dirty: bool, refcnt: nat, locked: bool, data: Block)

  predicate Holds(b: Buf, dev: int, blockno: int) {
    b.dev == dev && b.blockno == blockno
  }

  /** May be recycled: nobody refers to it and the log has not pinned it. */
  predicate Unused(b: Buf) {
    b.refcnt == 0 && !b.dirty
  }

  /** At most one buffer for a block (device 0 marks a buffer that was never used), locks are held by
      someone who counts, and only valid buffers are dirty. */
  ghost predicate GoodBufs(bufs: seq<Buf>) {
    && |bufs| == NBUF
    && (forall i, j :: 0 <= i < j < NBUF && bufs[i].dev != 0 ==> !Holds(bufs[j], bufs[i].dev, bufs[i].blockno))
    && (forall i :: 0 <= i < NBUF ==> (bufs[i].locked ==> bufs[i].refcnt > 0))
    && (forall i :: 0 <= i < NBUF ==> (bufs[i].dirty ==> bufs[i].valid && bufs[i].dev != 0))
  }

  /** Every buffer is on the list once. */
  ghost predicate Permutation(order: seq<nat>) {
    && |order| == NBUF && Distinct(order)
    && (forall i :: 0 <= i < NBUF ==> order[i] < NBUF)
    && (forall b :: 0 <= b < NBUF ==> b in order)
  }

  /** What bget gives out: the buffer of the block, else the least recently used one that is unused. */
  ghost predicate Chosen(bufs: seq<Buf>, order: seq<nat>, dev: int, blockno: int, i: nat)
    requires |bufs| == NBUF && Permutation(order)
  {
    && i < NBUF
    && (Holds(bufs[i], dev, blockno) ||
        ((forall j :: 0 <= j < NBUF ==> !Holds(bufs[j], dev, blockno))
         && exists k :: 0 <= k < NBUF && order[k] == i && Unused(bufs[i])
                        && forall m :: k < m < NBUF ==> !Unused(bufs[order[m]])))
  }

  /** The buffer after bget. */
  function Taken(b: Buf, dev: int, blockno: int): Buf {
    if Holds(b, dev, blockno) then b.(refcnt := b.refcnt + 1, locked := true)
    else Buf(dev, blockno, false, false, 1, true, b.data)
  }

  /** bget can serve the block: it is cached, or some buffer may be recycled. */
  ghost predicate CanServe(bufs: seq<Buf>, dev: int, blockno: int) {
    exists i :: 0 <= i < |bufs| && (Holds(bufs[i], dev, blockno) || Unused(bufs[i]))
  }

  /** Nobody else holds the sleep lock of the block's buffer, so the caller does not have to wait. */
  ghost predicate Free(bufs: seq<Buf>, dev: int, blockno: int) {
    forall i :: 0 <= i < |bufs| && Holds(bufs[i], dev, blockno) ==> !bufs[i].locked
  }

  class Disk {
    var blocks: Image
    ghost var trace: seq<Image>     // the image after every write so far

    constructor (image: Image)
      ensures blocks == image && trace == []
    {
      blocks := image;
      trace := [];
    }

    /** The write half of iderw: one block, atomically. */
    method Write(b: nat, data: Block)
      requires b < |blocks|
      modifies this
      ensures blocks == old(blocks)[b := data] && trace == old(trace) + [blocks]
    {
      blocks := blocks[b := data];
      trace := trace + [blocks];
    }
  }

  class Cache {
    var buf: array<Buf>
    var next: array<nat>
    var prev: array<nat>
    ghost var order: seq<nat>       // most recently used first

    ghost predicate Valid()
      reads this, buf, next, prev
    {
      && next != prev
      && buf.Length == NBUF && next.Length == NBUF + 1 && prev.Length == NBUF + 1
      && Permutation(order)
      && Cyclic([HEAD] + order, next[..], prev[..])
      && GoodBufs(buf[..])
    }

    /** binit: all buffers on the list, none of them in use. The kernel's memory starts out zeroed. */
    constructor ()
      ensures Valid() && fresh(buf) && fresh(next) && fresh(prev)
      ensures forall i :: 0 <= i < NBUF ==> buf[i].dev == 0 && Unused(buf[i]) && !buf[i].valid
    {
      var zero: Block := seq(WORDS, _ => 0);
      buf := new Buf[NBUF](_ => Buf(0, 0, false, false, 0, false, zero));
      next := new nat[NBUF + 1](_ => 0);
      prev := new nat[NBUF + 1](_ => 0);
      new;
      prev[HEAD] := HEAD;
      next[HEAD] := HEAD;
      order := [];
      var b := 0;
      while b < NBUF
        invariant 0 <= b <= NBUF
        invariant fresh(buf) && fresh(next) && fresh(prev) && next != prev
        invariant buf.Length == NBUF && next.Length == NBUF + 1 && prev.Length == NBUF + 1
        invariant forall i :: 0 <= i < NBUF ==> buf[i] == Buf(0, 0, false, false, 0, false, zero)
        invariant Cyclic([HEAD] + order, next[..], prev[..])
        invariant |order| == b && forall i :: 0 <= i < b ==> order[i] == b - 1 - i
      {
        InsertFront(b, order);
        order := [b] + order;
        b := b + 1;
      }
      forall b | 0 <= b < NBUF ensures b in order {
        assert order[NBUF - 1 - b] == b;
      }
    }

    /** Puts a node that is off the list right behind the head. */
    method InsertFront(b: nat, ghost rest: seq<nat>)
      requires next != prev && next.Length == NBUF + 1 && prev.Length == NBUF + 1
      requires Cyclic([HEAD] + rest, next[..], prev[..]) && b < NBUF && b !in rest
      modifies next, prev
      ensures Cyclic([HEAD] + ([b] + rest), next[..], prev[..])
    {
      LinkFront([HEAD] + rest, next[..], prev[..], b);
      assert ([HEAD] + rest)[1..] == rest;
      assert [HEAD, b] + rest == [HEAD] + ([b] + rest);
      next[b] := next[HEAD];
      prev[b] := HEAD;
      prev[next[HEAD]] := b;
      next[HEAD] := b;
    }

    /** bget's first loop, from the most recently used end. */
    method FindCached(dev: int, blockno: int) returns (r: Option<nat>)
      requires Valid()
      ensures r.Some? ==> r.value < NBUF && Holds(buf[r.value], dev, blockno)
      ensures r.None? ==> forall j :: 0 <= j < NBUF ==> !Holds(buf[j], dev, blockno)
    {
      ghost var ring := [HEAD] + order;
      var b := next[HEAD];
      ghost var k := 1;
      assert ring[Succ(0, |ring|)] == ring[1];
      while b != HEAD
        invariant 1 <= k <= NBUF + 1 && b == (if k <= NBUF then ring[k] else HEAD)
        invariant forall m :: 0 <= m < k - 1 ==> !Holds(buf[order[m]], dev, blockno)
        decreases NBUF + 1 - k
      {
        assert b == order[k - 1];
        if buf[b].dev == dev && buf[b].blockno == blockno {
          return Some(b);
        }
        assert next[ring[k]] == ring[Succ(k, |ring|)];
        b := next[b];
        k := k + 1;
      }
      forall j | 0 <= j < NBUF ensures !Holds(buf[j], dev, blockno) {
        assert j in order;
      }
      return None;
    }

    /** bget's second loop, from the least recently used end. */
    method FindUnused() returns (r: Option<nat>)
      requires Valid()
      ensures r.Some? ==> exists k :: 0 <= k < NBUF && order[k] == r.value && Unused(buf[r.value])
                                      && forall m :: k < m < NBUF ==> !Unused(buf[order[m]])
      ensures r.None? ==> forall j :: 0 <= j < NBUF ==> !Unused(buf[j])
    {
      ghost var ring := [HEAD] + order;
      var b := prev[HEAD];
      ghost var k := NBUF;
      assert prev[ring[Succ(NBUF, |ring|)]] == ring[NBUF];
      while b != HEAD
        invariant 0 <= k <= NBUF && b == ring[k]
        invariant forall m :: k <= m < NBUF ==> !Unused(buf[order[m]])
        decreases k
      {
        assert b == order[k - 1];
        if buf[b].refcnt == 0 && !buf[b].dirty {
          return Some(b);
        }
        assert prev[ring[Succ(k - 1, |ring|)]] == ring[k - 1];
        b := prev[b];
        k := k - 1;
      }
      forall j | 0 <= j < NBUF ensures !Unused(buf[j]) {
        assert j in order;
      }
      return None;
    }

    /** bget: the block's buffer, or the least recently used unused one; None is the panic. The caller has a
        reference then, and the lock, unless somebody else has that: then it goes to sleep on it. */
    method Bget(dev: int, blockno: int) returns (r: Option<nat>, waits: bool)
      requires Valid() && dev != 0
      modifies buf
      ensures Valid()
      ensures r.Some? <==> CanServe(old(buf[..]), dev, blockno)
      ensures r.None? ==> buf[..] == old(buf[..])
      ensures r.Some? ==> Chosen(old(buf[..]), order, dev, blockno, r.value)
      ensures r.Some? ==> buf[..] == old(buf[..])[r.value := Taken(old(buf[..])[r.value], dev, blockno)]
      ensures waits <==> !Free(old(buf[..]), dev, blockno)
    {
      ghost var bufs := buf[..];
      r := FindCached(dev, blockno);
      waits := false;
      if r.Some? {
        var b := r.value;
        buf[b] := buf[b].(refcnt := buf[b].refcnt + 1);
        waits := buf[b].locked;
        if !waits {
          buf[b] := buf[b].(locked := true);
        }
      } else {
        r := FindUnused();
        if r.None? {
          return;
        }
        var b := r.value;
        buf[b] := buf[b].(dev := dev);
        buf[b] := buf[b].(blockno := blockno);
        buf[b] := buf[b].(valid := false, dirty := false);
        buf[b] := buf[b].(refcnt := 1);
        buf[b] := buf[b].(locked := true);
      }
      assert buf[..] == bufs[r.value := Taken(bufs[r.value], dev, blockno)];
      TakenKeepsGood(bufs, r.value, dev, blockno);
    }

    /** iderw on a locked buffer: write a dirty one, else fill an invalid one. */
    method Iderw(disk: Disk, i: nat)
      requires Valid() && i < NBUF && buf[i].locked
      requires !(buf[i].valid && !buf[i].dirty) && buf[i].dev == ROOTDEV && 0 <= buf[i].blockno < |disk.blocks|
      modifies buf, disk
      ensures buf.Length == NBUF
      ensures old(buf[i].dirty) ==>
                && disk.blocks == old(disk.blocks)[old(buf[i]).blockno := old(buf[i]).data]
                && disk.trace == old(disk.trace) + [disk.blocks]
                && buf[..] == old(buf[..])[i := old(buf[i]).(dirty := false, valid := true)]
      ensures !old(buf[i].dirty) ==>
                && disk.blocks == old(disk.blocks) && disk.trace == old(disk.trace)
                && buf[..] == old(buf[..])[i := old(buf[i]).(data := disk.blocks[old(buf[i]).blockno], valid := true)]
    {
      if buf[i].dirty {
        buf[i] := buf[i].(dirty := false);
        disk.Write(buf[i].blockno, buf[i].data);
      } else {
        buf[i] := buf[i].(data := disk.blocks[buf[i].blockno]);
      }
      buf[i] := buf[i].(valid := true);
    }

    /** bread: the locked buffer with the block's contents. */
    method Bread(disk: Disk, dev: int, blockno: int) returns (r: Option<nat>)
      requires Valid() && dev == ROOTDEV && 0 <= blockno < |disk.blocks| && Free(buf[..], dev, blockno)
      modifies buf, disk
      ensures Valid() && disk.blocks == old(disk.blocks) && disk.trace == old(disk.trace)
      ensures r.Some? <==> CanServe(old(buf[..]), dev, blockno)
      ensures r.None? ==> buf[..] == old(buf[..])
      ensures r.Some? ==> Chosen(old(buf[..]), order, dev, blockno, r.value)
      ensures r.Some? ==> buf[..] == old(buf[..])[r.value := Loaded(old(buf[..])[r.value], disk.blocks, dev, blockno)]
    {
      var waits;
      r, waits := Bget(dev, blockno);
      if r.Some? && !buf[r.value].valid {
        Iderw(disk, r.value);
      }
    }

    /** bwrite: the buffer reaches the disk in one write and is clean afterwards. */
    method Bwrite(disk: Disk, i: nat)
      requires Valid() && i < NBUF && buf[i].locked && buf[i].valid
      requires buf[i].dev == ROOTDEV && 0 <= buf[i].blockno < |disk.blocks|
      modifies buf, disk
      ensures Valid()
      ensures disk.blocks == old(disk.blocks)[old(buf[i]).blockno := old(buf[i]).data]
      ensures disk.trace == old(disk.trace) + [disk.blocks]
      ensures buf[..] == old(buf[..])[i := old(buf[i]).(dirty := false)]
    {
      buf[i] := buf[i].(dirty := true);
      Iderw(disk, i);
    }

    /** The caller changes the data of a buffer it has locked. */
    method SetData(i: nat, data: Block)
      requires Valid() && i < NBUF && buf[i].locked
      modifies buf
      ensures Valid() && buf[..] == old(buf[..])[i := old(buf[i]).(data := data)]
    {
      buf[i] := buf[i].(data := data);
    }

    /** Takes a buffer out of the list and puts it in front. */
    method MoveToFront(i: nat)
      requires Valid() && i < NBUF
      modifies this`order, next, prev
      ensures Valid()
      ensures exists p :: 0 <= p < NBUF && old(order)[p] == i && order == [i] + old(order)[..p] + old(order)[p + 1..]
    {
      assert i in order;
      ghost var p :| 0 <= p < NBUF && order[p] == i;
      UnlinkBuffer(order, next[..], prev[..], p);
      MovedPermutation(order, p);
      prev[next[i]] := prev[i];
      next[prev[i]] := next[i];
      InsertFront(i, order[..p] + order[p + 1..]);
      assert [i] + order[..p] + order[p + 1..] == [i] + (order[..p] + order[p + 1..]);
      order := [i] + order[..p] + order[p + 1..];
    }

    /** brelse: unlock; the last reference moves the buffer to the front of the list. */
    method Brelse(i: nat)
      requires Valid() && i < NBUF && buf[i].locked
      modifies this`order, buf, next, prev
      ensures Valid()
      ensures buf[..] == old(buf[..])[i := Released(old(buf[..])[i])]
      ensures old(buf[i]).refcnt > 1 ==> order == old(order)
      ensures old(buf[i]).refcnt == 1 ==>
                exists p :: 0 <= p < NBUF && old(order)[p] == i && order == [i] + old(order)[..p] + old(order)[p + 1..]
    {
      ghost var bufs := buf[..];
      buf[i] := buf[i].(locked := false);
      buf[i] := buf[i].(refcnt := buf[i].refcnt - 1);
      assert buf[..] == bufs[i := Released(bufs[i])];
      if buf[i].refcnt == 0 {
        MoveToFront(i);
      }
    }
  }

  function Released(b: Buf): Buf
    requires b.refcnt > 0
  {
    b.(locked := false, refcnt := b.refcnt - 1)
  }

  /** The buffer after bread. */
  function Loaded(b: Buf, blocks: Image, dev: int, blockno: int): Buf
    requires 0 <= blockno < |blocks|
  {
    var t := Taken(b, dev, blockno);
    if t.valid then t else t.(valid := true, data := blocks[blockno])
  }

  /** bget keeps one buffer per block, because it recycles only when the block is not cached. */
  lemma TakenKeepsGood(bufs: seq<Buf>, i: nat, dev: int, blockno: int)
    requires GoodBufs(bufs) && i < NBUF && dev != 0
    requires Holds(bufs[i], dev, blockno) ||
      (Unused(bufs[i]) && forall j :: 0 <= j < NBUF ==> !Holds(bufs[j], dev, blockno))
    ensures GoodBufs(bufs[i := Taken(bufs[i], dev, blockno)])
  {
  }

  lemma UnlinkBuffer(order: seq<nat>, next: seq<nat>, prev: seq<nat>, p: nat)
    requires Permutation(order) && Cyclic([HEAD] + order, next, prev) && p < NBUF
    ensures var i := order[p];
      && i < |next| && next[i] < |prev| && prev[i] < |next| && i !in order[..p] + order[p + 1..]
      && Cyclic([HEAD] + (order[..p] + order[p + 1..]), next[prev[i] := next[i]], prev[next[i] := prev[i]])
  {
    var ring := [HEAD] + order;
    assert ring[p + 1] == order[p];
    Unlink(ring, next, prev, p + 1);
    assert ring[..p + 1] == [HEAD] + order[..p] && ring[p + 2..] == order[p + 1..];
    assert ring[..p + 1] + ring[p + 2..] == [HEAD] + (order[..p] + order[p + 1..]);
  }

  lemma MovedPermutation(order: seq<nat>, p: nat)
    requires Permutation(order) && p < NBUF
    ensures Permutation([order[p]] + order[..p] + order[p + 1..])
  {
    var moved := [order[p]] + order[..p] + order[p + 1..];
    forall b | 0 <= b < NBUF ensures b in moved {
      assert b in order;
      var q :| 0 <= q < NBUF && order[q] == b;
      assert b == moved[if q == p then 0 else if q < p then q + 1 else q];
    }
  }
}
