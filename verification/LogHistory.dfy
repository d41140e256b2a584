/** The log over its whole life: boots, any number of commits each, and power failures after any disk write. What
    counts is which header writes reached the disk. */
module LogHistory {
  import opened LogCrash
  import opened Wrappers

  /** A commit: the blocks listed, and their contents. */
  datatype Txn = Txn(bs: seq<int>, ws: seq<Block>)

  predicate GoodTxn(l: Layout, t: Txn) {
    GoodList(l, t.bs) && t.bs != [] && |t.ws| == |t.bs|
  }

  predicate GoodTxns(l: Layout, ts: seq<Txn>) {
    forall i :: 0 <= i < |ts| ==> GoodTxn(l, ts[i])
  }

  predicate Clean(l: Layout, d: Image) {
    GoodDisk(l, d) && Logged(l, d) == []
  }

  function Init(ts: seq<Txn>): seq<Txn>
    requires ts != []
  {
    ts[..|ts| - 1]
  }

  function Last(ts: seq<Txn>): Txn
    requires ts != []
  {
    ts[|ts| - 1]
  }

  /** What the last of the commits that logged block `b` wrote into it. */
  function Latest(ts: seq<Txn>, b: int): Option<Block>
    requires forall i :: 0 <= i < |ts| ==> |ts[i].ws| == |ts[i].bs|
  {
    if ts == [] then None
    else
      var t := Last(ts);
      var i := IndexOf(t.bs, b);
      if i < |t.bs| then Some(t.ws[i]) else Latest(Init(ts), b)
  }

  function Or(o: Option<Block>, d: Block): Block {
    if o.Some? then o.value else d
  }

  lemma {:induction false} LatestOfTwo(xs: seq<Txn>, ys: seq<Txn>, b: int)
    requires forall i :: 0 <= i < |xs| ==> |xs[i].ws| == |xs[i].bs|
    requires forall i :: 0 <= i < |ys| ==> |ys[i].ws| == |ys[i].bs|
    ensures Latest(xs + ys, b) == if Latest(ys, b).Some? then Latest(ys, b) else Latest(xs, b)
  {
    if ys == [] {
      assert xs + ys == xs;
    } else {
      LatestOfTwo(xs, Init(ys), b);
      assert Init(xs + ys) == xs + Init(ys);
    }
  }

  // --- Commits one after the other ---

  /** The disk after all writes of a commit. */
  function Applied(l: Layout, d: Image, t: Txn): (r: Image)
    requires Clean(l, d) && GoodTxn(l, t)
    ensures Clean(l, r)
  {
    CommitMeaning(l, d, t.bs, t.ws, 2 * |t.bs| + 2);
    CommitImage(l, d, t.bs, t.ws, 2 * |t.bs| + 2)
  }

  function AllApplied(l: Layout, d: Image, ts: seq<Txn>): (r: Image)
    requires Clean(l, d) && GoodTxns(l, ts)
    ensures Clean(l, r)
  {
    if ts == [] then d else Applied(l, AllApplied(l, d, Init(ts)), Last(ts))
  }

  function Writes(ts: seq<Txn>): nat {
    if ts == [] then 0 else Writes(Init(ts)) + 2 * |Last(ts).bs| + 2
  }

  /** The images in the order they reach the disk. */
  function Trace(l: Layout, d: Image, ts: seq<Txn>): (r: seq<Image>)
    requires Clean(l, d) && GoodTxns(l, ts)
    ensures |r| == Writes(ts)
  {
    if ts == [] then []
    else
      var t := Last(ts);
      Trace(l, d, Init(ts)) + CommitTrace(l, AllApplied(l, d, Init(ts)), t.bs, t.ws, 2 * |t.bs| + 2)
  }

  /** Number of commits whose header write is among the first `c` writes. */
  function Committed(ts: seq<Txn>, c: nat): (k: nat)
    ensures k <= |ts|
  {
    if ts == [] then 0
    else if c > Writes(Init(ts)) + |Last(ts).bs| then |ts|
    else Committed(Init(ts), c)
  }

  lemma {:induction false} AllCommitted(ts: seq<Txn>, c: nat)
    requires c >= Writes(ts)
    ensures Committed(ts, c) == |ts|
  {
  }

  lemma {:induction false} AppliedMeans(l: Layout, d: Image, ts: seq<Txn>, b: int)
    requires Clean(l, d) && GoodTxns(l, ts) && Home(l, b)
    ensures AllApplied(l, d, ts)[b] == Or(Latest(ts, b), d[b])
  {
    hide CommitImage, GoodList;
    if ts != [] {
      var e, t := AllApplied(l, d, Init(ts)), Last(ts);
      AppliedMeans(l, d, Init(ts), b);
      CommitMeaning(l, e, t.bs, t.ws, 2 * |t.bs| + 2);
      assert Meaning(l, Applied(l, e, t), b) == After(l, e, t.bs, t.ws, b);
    }
  }

  /** The disk after `c` writes. */
  function ImageAt(d: Image, trace: seq<Image>, c: nat): Image
    requires c <= |trace|
  {
    if c == 0 then d else trace[c - 1]
  }

  /** After `c` writes the disk stands for the commits whose header write is among them. */
  lemma {:induction false} TraceMeans(l: Layout, d: Image, ts: seq<Txn>, c: nat)
    requires Clean(l, d) && GoodTxns(l, ts) && c <= Writes(ts)
    ensures var e := ImageAt(d, Trace(l, d, ts), c);
      && GoodDisk(l, e)
      && forall b :: Home(l, b) ==> Meaning(l, e, b) == Or(Latest(ts[..Committed(ts, c)], b), d[b])
  {
    hide CommitImage, CommitTrace, Applied, AllApplied, GoodList;
    if c > 0 {
      var init, t := Init(ts), Last(ts);
      var w := Writes(init);
      if c <= w {
        TraceMeans(l, d, init, c);
        assert ts[..Committed(init, c)] == init[..Committed(init, c)];
      } else {
        var e := AllApplied(l, d, init);
        CommitMeaning(l, e, t.bs, t.ws, c - w);
        assert Trace(l, d, ts)[c - 1] == CommitImage(l, e, t.bs, t.ws, c - w);
        AllCommitted(init, c);
        assert ts[..|init|] == init && ts[..|ts|] == ts;
        forall b | Home(l, b)
          ensures Meaning(l, CommitImage(l, e, t.bs, t.ws, c - w), b) == Or(Latest(ts[..Committed(ts, c)], b), d[b])
        {
          AppliedMeans(l, d, init, b);
        }
      }
    } else {
      assert Committed(ts, 0) == 0 by { NoneCommitted(ts); }
    }
  }

  lemma {:induction false} NoneCommitted(ts: seq<Txn>)
    ensures Committed(ts, 0) == 0
  {
    if ts != [] {
      NoneCommitted(Init(ts));
    }
  }

  // --- A boot: recovery, then commits ---

  function BootWrites(l: Layout, d: Image, ts: seq<Txn>): nat
    requires GoodDisk(l, d)
  {
    |Logged(l, d)| + 1 + Writes(ts)
  }

  lemma RecoveredIsClean(l: Layout, d: Image)
    requires GoodDisk(l, d)
    ensures Clean(l, Recovered(l, d)) && forall b :: Home(l, b) ==> Recovered(l, d)[b] == Meaning(l, d, b)
  {
    ClearKeepsMeaning(l, d);
  }

  function BootImage(l: Layout, d: Image, ts: seq<Txn>): (r: Image)
    requires GoodDisk(l, d) && GoodTxns(l, ts)
    ensures Clean(l, r)
  {
    RecoveredIsClean(l, d);
    AllApplied(l, Recovered(l, d), ts)
  }

  function BootTrace(l: Layout, d: Image, ts: seq<Txn>): (r: seq<Image>)
    requires GoodDisk(l, d) && GoodTxns(l, ts)
    ensures |r| == BootWrites(l, d, ts)
  {
    RecoveredIsClean(l, d);
    RecoveryTrace(l, d, |Logged(l, d)| + 1) + Trace(l, Recovered(l, d), ts)
  }

  lemma JustBooted(l: Layout, d: Image)
    requires GoodDisk(l, d)
    ensures GoodTxns(l, []) && BootImage(l, d, []) == Recovered(l, d)
    ensures BootTrace(l, d, []) == RecoveryTrace(l, d, |Logged(l, d)| + 1)
  {
  }

  /** Number of commits whose header write is among the first `c` writes since power-on. */
  function BootCommitted(l: Layout, d: Image, ts: seq<Txn>, c: nat): (k: nat)
    requires GoodDisk(l, d)
    ensures k <= |ts|
  {
    var w := |Logged(l, d)| + 1;
    if c <= w then 0 else Committed(ts, c - w)
  }

  /** Power fails after `c` writes of a boot from disk `d`, in recovery, in a commit or between two: the disk stands for
      what it stood for at power-on and the commits whose header write it has seen. */
  lemma {:induction false} BootMeans(l: Layout, d: Image, ts: seq<Txn>, c: nat)
    requires GoodDisk(l, d) && GoodTxns(l, ts) && c <= BootWrites(l, d, ts)
    ensures var e := ImageAt(d, BootTrace(l, d, ts), c);
      && GoodDisk(l, e)
      && forall b :: Home(l, b) ==>
           Meaning(l, e, b) == Or(Latest(ts[..BootCommitted(l, d, ts, c)], b), Meaning(l, d, b))
  {
    hide Recovered, RecoveryImage, RecoveryTrace, Trace, GoodDisk, GoodList;
    var w := |Logged(l, d)| + 1;
    RecoveredIsClean(l, d);
    if c <= w {
      RecoveryStarts(l, d);
      RecoveryKeepsMeaning(l, d, c);
      assert ImageAt(d, BootTrace(l, d, ts), c) == RecoveryImage(l, d, c);
    } else {
      var r := Recovered(l, d);
      TraceMeans(l, r, ts, c - w);
      assert ImageAt(d, BootTrace(l, d, ts), c) == ImageAt(r, Trace(l, r, ts), c - w);
    }
  }

  /** One more commit: what it appends to the trace of the boot. */
  lemma {:induction false} CommitNext(l: Layout, d: Image, ts: seq<Txn>, t: Txn)
    requires GoodDisk(l, d) && GoodTxns(l, ts) && GoodTxn(l, t)
    ensures GoodTxns(l, ts + [t])
    ensures var e := BootImage(l, d, ts);
      && BootImage(l, d, ts + [t]) == Applied(l, e, t)
      && BootTrace(l, d, ts + [t]) == BootTrace(l, d, ts) + CommitTrace(l, e, t.bs, t.ws, 2 * |t.bs| + 2)
  {
    hide Recovered, RecoveryTrace, CommitTrace, Applied, GoodDisk, GoodList;
    RecoveredIsClean(l, d);
    assert Init(ts + [t]) == ts && Last(ts + [t]) == t;
  }

  // --- Any number of boots ---

  /** A boot that was to make the commits `ts` lost power after `c` writes. */
  datatype Boot = Boot(ts: seq<Txn>, c: nat)

  predicate Life(l: Layout, d: Image, boots: seq<Boot>)
    requires GoodDisk(l, d)
    decreases |boots|
  {
    boots == [] ||
    (GoodTxns(l, boots[0].ts) && boots[0].c <= BootWrites(l, d, boots[0].ts) &&
     Life(l, CutOff(l, d, boots[0]), boots[1..]))
  }

  function CutOff(l: Layout, d: Image, b: Boot): (e: Image)
    requires GoodDisk(l, d) && GoodTxns(l, b.ts) && b.c <= BootWrites(l, d, b.ts)
    ensures GoodDisk(l, e)
  {
    BootMeans(l, d, b.ts, b.c);
    ImageAt(d, BootTrace(l, d, b.ts), b.c)
  }

  function End(l: Layout, d: Image, boots: seq<Boot>): (e: Image)
    requires GoodDisk(l, d) && Life(l, d, boots)
    ensures GoodDisk(l, e)
    decreases |boots|
  {
    if boots == [] then d else End(l, CutOff(l, d, boots[0]), boots[1..])
  }

  /** The commits of all boots whose header write reached the disk, in order. */
  function Survivors(l: Layout, d: Image, boots: seq<Boot>): (ts: seq<Txn>)
    requires GoodDisk(l, d) && Life(l, d, boots)
    ensures GoodTxns(l, ts)
    decreases |boots|
  {
    if boots == [] then []
    else
      var b := boots[0];
      b.ts[..BootCommitted(l, d, b.ts, b.c)] + Survivors(l, CutOff(l, d, b), boots[1..])
  }

  lemma {:induction false} LifeMeans(l: Layout, d: Image, boots: seq<Boot>, b: int)
    requires GoodDisk(l, d) && Life(l, d, boots) && Home(l, b)
    ensures Meaning(l, End(l, d, boots), b) == Or(Latest(Survivors(l, d, boots), b), Meaning(l, d, b))
    decreases |boots|
  {
    hide GoodDisk, GoodList, Meaning, BootTrace;
    if boots != [] {
      var x := boots[0];
      var e := CutOff(l, d, x);
      BootMeans(l, d, x.ts, x.c);
      LifeMeans(l, e, boots[1..], b);
      LatestOfTwo(x.ts[..BootCommitted(l, d, x.ts, x.c)], Survivors(l, e, boots[1..]), b);
    }
  }

  /** Durability and atomicity over a life of any number of boots, each cut off after any write, recovery included: once
      a recovery completes, every home block holds what the last commit that listed it wrote, among exactly the
      commits whose header write reached the disk, else what it held in the beginning. */
  lemma {:induction false} Durability(l: Layout, d: Image, boots: seq<Boot>)
    requires GoodDisk(l, d) && Life(l, d, boots)
    ensures var r := Recovered(l, End(l, d, boots));
      && Clean(l, r)
      && forall b :: Home(l, b) ==> r[b] == Or(Latest(Survivors(l, d, boots), b), Meaning(l, d, b))
  {
    hide GoodDisk, GoodList, Meaning, Recovered, End, Survivors, Life;
    var e := End(l, d, boots);
    RecoveredIsClean(l, e);
    forall b | Home(l, b)
      ensures Meaning(l, e, b) == Or(Latest(Survivors(l, d, boots), b), Meaning(l, d, b))
    {
      LifeMeans(l, d, boots, b);
    }
  }
}
