/** The allocator's free list as a value: blocks in address order, the first of them the empty
    static block `base` that closes the circle. */
module FreeList {
  datatype Block = Block(addr: nat, size: nat) {
    function End(): nat { addr + size }
  }

  predicate In(b: Block, u: nat) {
    b.addr <= u < b.End()
  }

  predicate Apart(b: Block, c: Block) {
    b.End() <= c.addr || c.End() <= b.addr
  }

  /** Ascending, and between two neighbours at least one unit that is not free: free blocks that
      touch have been merged. */
  ghost predicate Ordered(fs: seq<Block>) {
    && |fs| >= 1 && fs[0].size == 0
    && (forall i :: 1 <= i < |fs| ==> fs[i].size >= 1)
    && (forall i, j :: 0 <= i < j < |fs| ==> fs[i].End() < fs[j].addr)
  }

  ghost predicate IsFree(fs: seq<Block>, u: nat) {
    exists i :: 0 <= i < |fs| && In(fs[i], u)
  }

  /** `b` overlaps no free block and lies above `base`. */
  ghost predicate Clear(fs: seq<Block>, b: Block) {
    && |fs| >= 1 && b.size >= 1 && fs[0].addr < b.addr
    && (forall i :: 0 <= i < |fs| ==> Apart(fs[i], b))
  }

  /** The last block that starts below address `a`. */
  ghost function Gap(fs: seq<Block>, a: nat): (g: nat)
    requires Ordered(fs) && fs[0].addr < a
    ensures g < |fs| && fs[g].addr < a
    ensures forall j :: g < j < |fs| ==> a <= fs[j].addr
  {
    if fs[|fs| - 1].addr < a then |fs| - 1 else Gap(fs[..|fs| - 1], a)
  }

  predicate JoinsDown(fs: seq<Block>, g: nat, b: Block)
    requires g < |fs|
  {
    fs[g].End() == b.addr
  }

  predicate JoinsUp(fs: seq<Block>, g: nat, b: Block)
    requires g < |fs|
  {
    g + 1 < |fs| && b.End() == fs[g + 1].addr
  }

  /** `b` together with the neighbours it touches. */
  function Joined(fs: seq<Block>, g: nat, b: Block): Block
    requires g < |fs|
  {
    var addr := if JoinsDown(fs, g, b) then fs[g].addr else b.addr;
    var end := if JoinsUp(fs, g, b) then fs[g + 1].End() else b.End();
    if end < addr then b else Block(addr, end - addr)
  }

  function Below(fs: seq<Block>, g: nat, b: Block): nat
    requires g < |fs|
  {
    if JoinsDown(fs, g, b) then g else g + 1
  }

  function Above(fs: seq<Block>, g: nat, b: Block): (r: nat)
    requires g < |fs|
    ensures r <= |fs|
  {
    if JoinsUp(fs, g, b) then g + 2 else g + 1
  }

  /** Block `b` put back behind block `g`, joined to its lower and to its upper neighbour where they touch. */
  function Insert(fs: seq<Block>, g: nat, b: Block): seq<Block>
    requires g < |fs|
  {
    fs[..Below(fs, g, b)] + [Joined(fs, g, b)] + fs[Above(fs, g, b)..]
  }

  lemma {:induction false} ClearGap(fs: seq<Block>, b: Block)
    requires Ordered(fs) && Clear(fs, b)
    ensures var g := Gap(fs, b.addr); fs[g].End() <= b.addr && (g + 1 < |fs| ==> b.End() <= fs[g + 1].addr)
  {
    var g := Gap(fs, b.addr);
    assert Apart(fs[g], b);
    if g + 1 < |fs| {
      assert b.addr <= fs[g + 1].addr;
      assert Apart(fs[g + 1], b);
    }
  }

  lemma {:induction false} Before(fs: seq<Block>, i: nat, j: nat)
    requires Ordered(fs) && i < j < |fs|
    ensures fs[i].End() < fs[j].addr
  {
  }

  lemma {:induction false} Positive(fs: seq<Block>, b: Block)
    requires Clear(fs, b)
    ensures b.size >= 1 && fs[0].addr < b.addr
  {
  }

  lemma {:induction false} Sizes(fs: seq<Block>, i: nat)
    requires Ordered(fs) && i < |fs|
    ensures if i == 0 then fs[i].size == 0 else fs[i].size >= 1
  {
  }

  /** Where the blocks of the list are after Insert. */
  lemma {:induction false} InsertAt(fs: seq<Block>, g: nat, b: Block, j: nat)
    requires g < |fs| && j < |Insert(fs, g, b)|
    ensures var at, up := Below(fs, g, b), Above(fs, g, b);
      && |Insert(fs, g, b)| == at + 1 + |fs| - up
      && (j == at ==> Insert(fs, g, b)[j] == Joined(fs, g, b))
      && (j < at ==> Insert(fs, g, b)[j] == fs[j])
      && (j > at ==> Insert(fs, g, b)[j] == fs[j - at - 1 + up])
  {
  }

  lemma InsertSplit(fs: seq<Block>, g: nat, b: Block)
    requires g < |fs|
    ensures var at, up := Below(fs, g, b), Above(fs, g, b);
      |Insert(fs, g, b)| == at + 1 + |fs| - up && Insert(fs, g, b)[at] == Joined(fs, g, b)
  {
  }

  lemma {:induction false} JoinedIs(fs: seq<Block>, b: Block)
    requires Ordered(fs) && Clear(fs, b)
    ensures var g := Gap(fs, b.addr);
      && (if JoinsDown(fs, g, b) then Joined(fs, g, b).addr == fs[g].addr && g >= 1
          else Joined(fs, g, b).addr == b.addr)
      && Joined(fs, g, b).End() == (if JoinsUp(fs, g, b) then fs[g + 1].End() else b.End())
  {
    hide Gap, Clear, Ordered;
    ClearGap(fs, b);
    Positive(fs, b);
    Sizes(fs, 0);
  }

  lemma {:induction false} InsertOrdered(fs: seq<Block>, b: Block)
    requires Ordered(fs) && Clear(fs, b)
    ensures Ordered(Insert(fs, Gap(fs, b.addr), b)) && Insert(fs, Gap(fs, b.addr), b)[0] == fs[0]
  {
    var g := Gap(fs, b.addr);
    var r := Insert(fs, g, b);
    forall i, j | 0 <= i < j < |r|
      ensures r[i].End() < r[j].addr
    {
      InsertBefore(fs, b, i, j);
    }
    forall i | 0 <= i < |r|
      ensures if i == 0 then r[i] == fs[0] else r[i].size >= 1
    {
      InsertSizes(fs, b, i);
    }
  }

  lemma {:induction false} InsertSizes(fs: seq<Block>, b: Block, i: nat)
    requires Ordered(fs) && Clear(fs, b) && i < |Insert(fs, Gap(fs, b.addr), b)|
    ensures var r := Insert(fs, Gap(fs, b.addr), b); if i == 0 then r[i] == fs[0] else r[i].size >= 1
  {
    hide Gap, Clear, Ordered, Insert, Joined;
    Positive(fs, b);
    var g := Gap(fs, b.addr);
    var at, up := Below(fs, g, b), Above(fs, g, b);
    InsertAt(fs, g, b, i);
    JoinedIs(fs, b);
    ClearGap(fs, b);
    if i < at {
      Sizes(fs, i);
    } else if i > at {
      Sizes(fs, i - at - 1 + up);
    } else if JoinsUp(fs, g, b) {
      Sizes(fs, g + 1);
    }
  }

  lemma {:induction false} InsertBefore(fs: seq<Block>, b: Block, i: nat, j: nat)
    requires Ordered(fs) && Clear(fs, b) && i < j < |Insert(fs, Gap(fs, b.addr), b)|
    ensures var r := Insert(fs, Gap(fs, b.addr), b); r[i].End() < r[j].addr
  {
    hide Gap, Clear, Ordered, Insert, Joined;
    Positive(fs, b);
    var g := Gap(fs, b.addr);
    var at, up := Below(fs, g, b), Above(fs, g, b);
    InsertAt(fs, g, b, i);
    InsertAt(fs, g, b, j);
    JoinedIs(fs, b);
    ClearGap(fs, b);
    var j' := j - at - 1 + up;
    if i > at {
      Before(fs, i - at - 1 + up, j');
    } else if j > at {
      if i < at {
        Before(fs, i, j');
      } else if JoinsUp(fs, g, b) || j' > up {
        Before(fs, if JoinsUp(fs, g, b) then g + 1 else up, j');
      }
    } else if j < at {
      Before(fs, i, j);
    } else if i < g {
      Before(fs, i, g);
    }
  }

  /** Returning a block adds exactly its units to the free ones. */
  lemma {:induction false} InsertUnits(fs: seq<Block>, b: Block, u: nat)
    requires Ordered(fs) && Clear(fs, b)
    ensures IsFree(Insert(fs, Gap(fs, b.addr), b), u) <==> IsFree(fs, u) || In(b, u)
  {
    hide Gap, Clear, Ordered, Insert, Joined;
    Positive(fs, b);
    var g := Gap(fs, b.addr);
    var r := Insert(fs, g, b);
    var at, up := Below(fs, g, b), Above(fs, g, b);
    JoinedIs(fs, b);
    ClearGap(fs, b);
    assert |r| == at + 1 + |fs| - up && r[at] == Joined(fs, g, b) by { InsertSplit(fs, g, b); }
    if IsFree(r, u) {
      var i :| 0 <= i < |r| && In(r[i], u);
      InsertAt(fs, g, b, i);
      if i == at {
        assert In(b, u) || In(fs[g], u) || (g + 1 < |fs| && In(fs[g + 1], u));
      }
    }
    if IsFree(fs, u) {
      var i :| 0 <= i < |fs| && In(fs[i], u);
      var k := if i < at then i else if i < up then at else i + at + 1 - up;
      InsertAt(fs, g, b, k);
      if i == g + 1 {
        Before(fs, g, i);
      }
      assert In(r[k], u);
    }
    if In(b, u) {
      assert In(r[at], u);
    }
  }

  ghost predicate Fits(fs: seq<Block>, n: nat) {
    exists k :: 0 <= k < |fs| && fs[k].size >= n
  }

  /** What is cut for a request of `n` units from block `k`: the whole block, or its upper end. */
  function Cut(fs: seq<Block>, k: nat, n: nat): Block
    requires k < |fs| && n <= fs[k].size
  {
    Block(fs[k].End() - n, n)
  }

  function Take(fs: seq<Block>, k: nat, n: nat): seq<Block>
    requires k < |fs| && n <= fs[k].size
  {
    if fs[k].size == n then fs[..k] + fs[k + 1..] else fs[k := Block(fs[k].addr, fs[k].size - n)]
  }

  lemma {:induction false} TakeOrdered(fs: seq<Block>, k: nat, n: nat)
    requires Ordered(fs) && k < |fs| && 1 <= n <= fs[k].size
    ensures Ordered(Take(fs, k, n)) && Clear(Take(fs, k, n), Cut(fs, k, n))
    ensures Take(fs, k, n)[0] == fs[0] && Cut(fs, k, n).End() == fs[k].End()
  {
    var r := Take(fs, k, n);
    assert k >= 1;
    forall i | 0 <= i < |r|
      ensures Apart(r[i], Cut(fs, k, n))
    {
      var j := if fs[k].size == n && i >= k then i + 1 else i;
      if j < k {
        assert fs[j].End() < fs[k].addr;
      } else if j > k {
        assert fs[k].End() < fs[j].addr;
      }
    }
  }

  lemma ClearAt(fs: seq<Block>, b: Block, i: nat)
    requires Clear(fs, b) && i < |fs|
    ensures Apart(fs[i], b)
  {
  }

  /** Where the blocks of the list are after Take. */
  lemma TakeAt(fs: seq<Block>, k: nat, n: nat, j: nat)
    requires k < |fs| && n <= fs[k].size
    ensures |Take(fs, k, n)| == (if fs[k].size == n then |fs| - 1 else |fs|)
    ensures j < |Take(fs, k, n)| ==>
      Take(fs, k, n)[j] == (if fs[k].size == n && j >= k then fs[j + 1]
                            else if j == k then Block(fs[k].addr, fs[k].size - n) else fs[j])
  {
  }

  /** Cutting a block moves exactly its units out of the free ones. */
  lemma {:induction false} TakeUnits(fs: seq<Block>, k: nat, n: nat, u: nat)
    requires Ordered(fs) && k < |fs| && 1 <= n <= fs[k].size
    ensures IsFree(fs, u) <==> IsFree(Take(fs, k, n), u) || In(Cut(fs, k, n), u)
    ensures !(IsFree(Take(fs, k, n), u) && In(Cut(fs, k, n), u))
  {
    hide Ordered, Clear, Take;
    TakeOrdered(fs, k, n);
    var r := Take(fs, k, n);
    var whole := fs[k].size == n;
    if IsFree(fs, u) && !In(Cut(fs, k, n), u) {
      var i :| 0 <= i < |fs| && In(fs[i], u);
      var j := if whole && i > k then i - 1 else i;
      TakeAt(fs, k, n, j);
      assert In(r[j], u);
    }
    if IsFree(r, u) {
      var j :| 0 <= j < |r| && In(r[j], u);
      TakeAt(fs, k, n, j);
      assert In(fs[if whole && j >= k then j + 1 else j], u);
      ClearAt(r, Cut(fs, k, n), j);
    }
    assert In(Cut(fs, k, n), u) ==> In(fs[k], u);
  }

  lemma {:induction false} GapIs(fs: seq<Block>, i: nat, a: nat)
    requires Ordered(fs) && i < |fs| && fs[i].addr < a && (i + 1 < |fs| ==> a <= fs[i + 1].addr)
    ensures fs[0].addr < a && Gap(fs, a) == i
  {
    hide Gap, Ordered;
    if i > 0 {
      Before(fs, 0, i);
    }
    var g := Gap(fs, a);
    if g > i + 1 {
      Before(fs, i + 1, g);
    }
  }

  /** Freeing a block right after it was cut gives the old list back. */
  lemma {:induction false} TakeThenInsert(fs: seq<Block>, k: nat, n: nat)
    requires Ordered(fs) && k < |fs| && 1 <= n <= fs[k].size
    ensures var r, b := Take(fs, k, n), Cut(fs, k, n);
      Ordered(r) && Clear(r, b) && Insert(r, Gap(r, b.addr), b) == fs
  {
    hide Gap, Ordered, Clear;
    TakeOrdered(fs, k, n);
    var r, b := Take(fs, k, n), Cut(fs, k, n);
    Sizes(fs, 0);
    Positive(r, b);
    if k + 1 < |fs| {
      Before(fs, k, k + 1);
    }
    if fs[k].size == n {
      Before(fs, k - 1, k);
      GapIs(r, k - 1, b.addr);
      assert Insert(r, k - 1, b) == fs[..k] + [fs[k]] + fs[k + 1..];
    } else {
      GapIs(r, k, b.addr);
      assert Insert(r, k, b) == fs[..k] + [fs[k]] + fs[k + 1..];
    }
  }

  // ---------------------------------------------------------------- the cyclic walk

  function Next<T>(s: seq<T>, i: nat): nat
    requires i < |s|
  {
    if i + 1 == |s| then 0 else i + 1
  }

  /** Steps from position `i` to position `j` on a circle of `n`. */
  function Distance(i: nat, j: nat, n: nat): nat
    requires i < n && j < n
  {
    if i <= j then j - i else j + n - i
  }

  /** `j` has been visited by a walk that started behind `start` and now stands before `here`. */
  predicate Passed(start: nat, here: nat, j: nat) {
    if here > start then start < j < here else j > start || j < here
  }

  /** The position of the free() search: it stops at `i` exactly when the block belongs behind it. */
  predicate Stops(fs: seq<Block>, i: nat, a: nat)
    requires i < |fs|
  {
    var next := fs[Next(fs, i)].addr;
    fs[i].addr < a < next || (fs[i].addr >= next && (a > fs[i].addr || a < next))
  }

  lemma {:induction false} StopsAtGap(fs: seq<Block>, b: Block, i: nat)
    requires Ordered(fs) && Clear(fs, b) && i < |fs|
    ensures Stops(fs, i, b.addr) <==> i == Gap(fs, b.addr)
  {
    var g := Gap(fs, b.addr);
    InsertOrdered(fs, b);
    if i < g {
      assert fs[i + 1].addr <= fs[g].addr;
    }
  }

  // ---------------------------------------------------------------- counting

  ghost function Units(b: Block): (r: set<nat>) {
    set u: nat | u < b.End() && In(b, u)
  }

  lemma {:induction false} UnitsCount(b: Block)
    ensures |Units(b)| == b.size
    decreases b.size
  {
    if b.size == 0 {
      assert Units(b) == {};
    } else {
      var less := Block(b.addr, b.size - 1);
      UnitsCount(less);
      assert Units(b) == Units(less) + {b.End() - 1};
    }
  }

  ghost function Total(fs: seq<Block>): nat {
    if fs == [] then 0 else Total(fs[..|fs| - 1]) + fs[|fs| - 1].size
  }

  ghost function FreeUnits(fs: seq<Block>): set<nat> {
    if fs == [] then {} else FreeUnits(fs[..|fs| - 1]) + Units(fs[|fs| - 1])
  }

  ghost predicate AllApart(fs: seq<Block>) {
    forall i, j :: 0 <= i < j < |fs| ==> Apart(fs[i], fs[j])
  }

  lemma {:induction false} FreeSplit(fs: seq<Block>, u: nat)
    requires fs != []
    ensures IsFree(fs, u) <==> IsFree(fs[..|fs| - 1], u) || In(fs[|fs| - 1], u)
    ensures AllApart(fs) ==> !(IsFree(fs[..|fs| - 1], u) && In(fs[|fs| - 1], u))
  {
    var init, last := fs[..|fs| - 1], fs[|fs| - 1];
    if IsFree(init, u) {
      var i :| 0 <= i < |init| && In(init[i], u);
      assert In(fs[i], u);
      assert AllApart(fs) ==> Apart(fs[i], fs[|fs| - 1]);
    }
  }

  /** Blocks that do not overlap hold as many units as their sizes add up to. */
  lemma {:induction false} FreeCount(fs: seq<Block>)
    requires AllApart(fs)
    ensures |FreeUnits(fs)| == Total(fs)
    ensures forall u: nat :: u in FreeUnits(fs) <==> IsFree(fs, u)
  {
    hide IsFree, Apart;
    if fs != [] {
      var init, last := fs[..|fs| - 1], fs[|fs| - 1];
      FreeCount(init);
      UnitsCount(last);
      forall u: nat
        ensures IsFree(fs, u) <==> IsFree(init, u) || In(last, u)
        ensures !(IsFree(init, u) && In(last, u))
      {
        FreeSplit(fs, u);
      }
      assert FreeUnits(init) !! Units(last);
    } else {
      forall u: nat
        ensures !IsFree(fs, u)
      {
        NothingFree(u);
      }
    }
  }

  lemma NothingFree(u: nat)
    ensures !IsFree([], u)
  {
  }
}
