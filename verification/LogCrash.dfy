/** The on-disk log as a sequence of disk images, one after each block write, and what recovery makes
    of every one of them. A disk write is atomic per block; a crash keeps the image and drops memory. */
module LogCrash {
  import opened Params
  import opened Sequences

  const WORDS: nat := 128          // 32-bit words per 512-byte block

  type Block = b: seq<int> | |b| == WORDS witness seq(WORDS, _ => 0)
  type Image = seq<Block>

  /** Where the log lies: header block `start`, then `size - 1` data blocks. */
  datatype Layout = Layout(start: nat, size: nat, disksize: nat)

  predicate ValidLayout(l: Layout) {
    l.size >= 1 && l.start + l.size <= l.disksize
  }

  /** A block with a home outside the log. */
  predicate Home(l: Layout, b: int) {
    0 <= b < l.disksize && !(l.start <= b < l.start + l.size)
  }

  /** A list of block numbers that fits the header and the log area. */
  predicate GoodList(l: Layout, bs: seq<int>) {
    && |bs| <= LOGSIZE && |bs| <= l.size - 1
    && Distinct(bs)
    && forall i :: 0 <= i < |bs| ==> Home(l, bs[i])
  }

  /** struct logheader over the words of a block: n, then block[0..n). Stale entries stay behind. */
  function HeadBlock(stale: Block, bs: seq<int>): (b: Block)
    requires |bs| <= LOGSIZE
  {
    [|bs|] + bs + stale[|bs| + 1..]
  }

  function HeadList(b: Block): (bs: seq<int>)
    requires 0 <= b[0] <= LOGSIZE
  {
    b[1..b[0] + 1]
  }

  lemma HeadRoundTrip(stale: Block, bs: seq<int>)
    requires |bs| <= LOGSIZE
    ensures HeadBlock(stale, bs)[0] == |bs| && HeadList(HeadBlock(stale, bs)) == bs
  {
    assert HeadBlock(stale, bs)[1..|bs| + 1] == bs;
  }

  /** A disk whose header names a transaction that recovery can install. */
  predicate GoodDisk(l: Layout, d: Image) {
    && ValidLayout(l) && |d| == l.disksize
    && 0 <= d[l.start][0] <= LOGSIZE
    && GoodList(l, HeadList(d[l.start]))
  }

  function Logged(l: Layout, d: Image): (bs: seq<int>)
    requires GoodDisk(l, d)
    ensures GoodList(l, bs)
  {
    HeadList(d[l.start])
  }

  // --- The writes of commit and of recovery, as images ---

  /** write_log after `k` writes. */
  function PutLog(l: Layout, d: Image, ws: seq<Block>, k: nat): (r: Image)
    requires ValidLayout(l) && |d| == l.disksize && k <= |ws| <= l.size - 1
    ensures |r| == |d|
  {
    if k == 0 then d else PutLog(l, d, ws, k - 1)[l.start + k := ws[k - 1]]
  }

  /** write_head. */
  function PutHead(l: Layout, d: Image, bs: seq<int>): (r: Image)
    requires ValidLayout(l) && |d| == l.disksize && |bs| <= LOGSIZE
    ensures |r| == |d|
  {
    d[l.start := HeadBlock(d[l.start], bs)]
  }

  /** install_trans after `k` copies. */
  function Install(l: Layout, d: Image, bs: seq<int>, k: nat): (r: Image)
    requires ValidLayout(l) && |d| == l.disksize && GoodList(l, bs) && k <= |bs|
    ensures |r| == |d|
  {
    if k == 0 then d
    else
      var e := Install(l, d, bs, k - 1);
      e[bs[k - 1] := e[l.start + k]]
  }

  // --- What a disk means ---

  /** Position of `b` in the list, or its length. */
  function IndexOf(bs: seq<int>, b: int): (i: nat)
    ensures i <= |bs| && (i < |bs| ==> bs[i] == b) && (forall j :: 0 <= j < i ==> bs[j] != b)
  {
    if bs == [] || bs[0] == b then 0 else 1 + IndexOf(bs[1..], b)
  }

  /** The contents a disk stands for: the logged copy of a committed block, else its home. */
  function Meaning(l: Layout, d: Image, b: int): Block
    requires GoodDisk(l, d) && Home(l, b)
  {
    var i := IndexOf(Logged(l, d), b);
    if i < |Logged(l, d)| then d[l.start + 1 + i] else d[b]
  }

  ghost predicate SameMeaning(l: Layout, d: Image, e: Image)
    requires GoodDisk(l, d) && GoodDisk(l, e)
  {
    forall b {:trigger Meaning(l, d, b)} {:trigger Meaning(l, e, b)} :: Home(l, b) ==>
      Meaning(l, e, b) == Meaning(l, d, b)
  }

  /** The home blocks of `d` after the transaction (`bs`, `ws`). */
  function After(l: Layout, d: Image, bs: seq<int>, ws: seq<Block>, b: int): Block
    requires |d| == l.disksize && |ws| == |bs| && Home(l, b)
  {
    var i := IndexOf(bs, b);
    if i < |bs| then ws[i] else d[b]
  }

  // --- Frame facts of the three kinds of writes ---

  lemma {:induction false} PutLogFrame(l: Layout, d: Image, ws: seq<Block>, k: nat)
    requires ValidLayout(l) && |d| == l.disksize && k <= |ws| <= l.size - 1
    ensures forall b :: 0 <= b < |d| && !(l.start < b <= l.start + k) ==> PutLog(l, d, ws, k)[b] == d[b]
    ensures forall i :: 0 <= i < k ==> PutLog(l, d, ws, k)[l.start + 1 + i] == ws[i]
  {
    if k > 0 {
      PutLogFrame(l, d, ws, k - 1);
    }
  }

  lemma {:induction false} InstallFrame(l: Layout, d: Image, bs: seq<int>, k: nat)
    requires ValidLayout(l) && |d| == l.disksize && GoodList(l, bs) && k <= |bs|
    ensures forall b :: 0 <= b < |d| && b !in bs[..k] ==> Install(l, d, bs, k)[b] == d[b]
    ensures forall i :: 0 <= i < k ==> Install(l, d, bs, k)[bs[i]] == d[l.start + 1 + i]
  {
    if k > 0 {
      InstallFrame(l, d, bs, k - 1);
      assert bs[..k] == bs[..k - 1] + [bs[k - 1]];
    }
  }

  /** Installing any part of the transaction changes no meaning. */
  lemma {:induction false} InstallKeepsMeaning(l: Layout, d: Image, k: nat)
    requires GoodDisk(l, d) && k <= |Logged(l, d)|
    ensures var e := Install(l, d, Logged(l, d), k);
      GoodDisk(l, e) && Logged(l, e) == Logged(l, d) && SameMeaning(l, d, e)
  {
    var bs := Logged(l, d);
    var e := Install(l, d, bs, k);
    InstallFrame(l, d, bs, k);
    assert e[l.start] == d[l.start];
    forall b | Home(l, b) ensures Meaning(l, e, b) == Meaning(l, d, b) {
      var i := IndexOf(bs, b);
      if i == |bs| {
        assert b !in bs[..k];
      }
    }
  }

  /** Once everything is installed, the header may be cleared. */
  lemma {:induction false} ClearKeepsMeaning(l: Layout, d: Image)
    requires GoodDisk(l, d)
    ensures var e := PutHead(l, Install(l, d, Logged(l, d), |Logged(l, d)|), []);
      && GoodDisk(l, e) && Logged(l, e) == []
      && SameMeaning(l, d, e)
      && forall b :: Home(l, b) ==> e[b] == Meaning(l, d, b)
  {
    var bs := Logged(l, d);
    var f := Install(l, d, bs, |bs|);
    var e := PutHead(l, f, []);
    InstallFrame(l, d, bs, |bs|);
    HeadRoundTrip(f[l.start], []);
    forall b | Home(l, b)
      ensures Meaning(l, e, b) == Meaning(l, d, b) && e[b] == Meaning(l, d, b)
    {
      var i := IndexOf(bs, b);
      if i == |bs| {
        assert b !in bs[..|bs|];
      }
    }
  }

  // --- commit and recovery as whole sequences of writes ---

  /** write_log touches no home block and leaves the empty header alone. */
  lemma {:induction false} PutLogKeepsMeaning(l: Layout, d: Image, ws: seq<Block>, k: nat)
    requires GoodDisk(l, d) && Logged(l, d) == [] && k <= |ws| <= l.size - 1
    ensures var e := PutLog(l, d, ws, k);
      GoodDisk(l, e) && Logged(l, e) == [] && forall b :: Home(l, b) ==> e[b] == d[b] && Meaning(l, e, b) == d[b]
  {
    PutLogFrame(l, d, ws, k);
  }

  /** The header write switches the meaning of the disk from the old contents to the new. */
  lemma {:induction false} PutHeadCommits(l: Layout, d: Image, bs: seq<int>, ws: seq<Block>)
    requires GoodDisk(l, d) && Logged(l, d) == [] && GoodList(l, bs) && |ws| == |bs|
    ensures var e := PutHead(l, PutLog(l, d, ws, |ws|), bs);
      GoodDisk(l, e) && Logged(l, e) == bs && forall b :: Home(l, b) ==> Meaning(l, e, b) == After(l, d, bs, ws, b)
  {
    PutLogFrame(l, d, ws, |ws|);
    HeadRoundTrip(PutLog(l, d, ws, |ws|)[l.start], bs);
  }

  /** commit after `c` of its writes: the log, the header (write |bs| + 1), the homes, the cleared header. */
  function CommitImage(l: Layout, d: Image, bs: seq<int>, ws: seq<Block>, c: nat): (r: Image)
    requires GoodDisk(l, d) && Logged(l, d) == [] && GoodList(l, bs) && |ws| == |bs|
    requires c <= 2 * |bs| + 2
    ensures GoodDisk(l, r)
  {
    if c <= |bs| then
      PutLogKeepsMeaning(l, d, ws, c);
      PutLog(l, d, ws, c)
    else
      PutHeadCommits(l, d, bs, ws);
      var e := PutHead(l, PutLog(l, d, ws, |bs|), bs);
      RecoveryImage(l, e, c - |bs| - 1)
  }

  /** recover_from_log after `k` of its writes; the last one clears the header. */
  function RecoveryImage(l: Layout, d: Image, k: nat): (r: Image)
    requires GoodDisk(l, d) && k <= |Logged(l, d)| + 1
    ensures GoodDisk(l, r)
  {
    var bs := Logged(l, d);
    if k <= |bs| then
      InstallKeepsMeaning(l, d, k);
      Install(l, d, bs, k)
    else
      ClearKeepsMeaning(l, d);
      PutHead(l, Install(l, d, bs, |bs|), [])
  }

  // --- Crashes during recovery ---

  /** Any number of boots whose recovery is cut off: boot i performs `ks[i]` disk writes. */
  predicate CrashRun(l: Layout, d: Image, ks: seq<nat>)
    requires GoodDisk(l, d)
    decreases |ks|
  {
    ks == [] ||
    (ks[0] <= |Logged(l, d)| + 1 &&
     CrashRun(l, RecoveryImage(l, d, ks[0]), ks[1..]))
  }

  function AfterCrashes(l: Layout, d: Image, ks: seq<nat>): (r: Image)
    requires GoodDisk(l, d) && CrashRun(l, d, ks)
    ensures GoodDisk(l, r)
    decreases |ks|
  {
    if ks == [] then d else AfterCrashes(l, RecoveryImage(l, d, ks[0]), ks[1..])
  }

  /** Every disk that recovery passes through can be recovered again, to the same contents. */
  lemma {:induction false} RecoveryKeepsMeaning(l: Layout, d: Image, k: nat)
    requires GoodDisk(l, d) && k <= |Logged(l, d)| + 1
    ensures SameMeaning(l, d, RecoveryImage(l, d, k))
  {
    if k <= |Logged(l, d)| {
      InstallKeepsMeaning(l, d, k);
    } else {
      ClearKeepsMeaning(l, d);
    }
  }

  lemma {:induction false} CrashesKeepMeaning(l: Layout, d: Image, ks: seq<nat>)
    requires GoodDisk(l, d) && CrashRun(l, d, ks)
    ensures SameMeaning(l, d, AfterCrashes(l, d, ks))
    decreases |ks|
  {
    if ks != [] {
      RecoveryKeepsMeaning(l, d, ks[0]);
      CrashesKeepMeaning(l, RecoveryImage(l, d, ks[0]), ks[1..]);
    }
  }

  /** Recovery run to its end puts the meaning of the disk into the home blocks. */
  function Recovered(l: Layout, d: Image): Image
    requires GoodDisk(l, d)
  {
    RecoveryImage(l, d, |Logged(l, d)| + 1)
  }

  // --- Crashes during commit ---

  /** Up to the header write the disk means the old contents, from it on the new ones. */
  lemma {:induction false} CommitMeaning(l: Layout, d: Image, bs: seq<int>, ws: seq<Block>, c: nat)
    requires GoodDisk(l, d) && Logged(l, d) == [] && GoodList(l, bs) && |ws| == |bs| && c <= 2 * |bs| + 2
    ensures var e := CommitImage(l, d, bs, ws, c);
      && (c <= |bs| || c == 2 * |bs| + 2 ==> Logged(l, e) == [])
      && forall b :: Home(l, b) ==> Meaning(l, e, b) == if c <= |bs| then d[b] else After(l, d, bs, ws, b)
  {
    if c <= |bs| {
      PutLogKeepsMeaning(l, d, ws, c);
    } else {
      PutHeadCommits(l, d, bs, ws);
      var e := PutHead(l, PutLog(l, d, ws, |bs|), bs);
      RecoveryKeepsMeaning(l, e, c - |bs| - 1);
      ClearKeepsMeaning(l, e);
    }
  }

  /** Crash atomicity of a group commit. Power fails after `c` writes of commit, then in any number of
      recoveries, then one recovery completes: the home blocks are all old or all new, and they are new
      exactly when the first header write reached the disk. */
  lemma {:induction false} CrashAtomicity(l: Layout, d: Image, bs: seq<int>, ws: seq<Block>, c: nat, ks: seq<nat>)
    requires GoodDisk(l, d) && Logged(l, d) == [] && GoodList(l, bs) && |ws| == |bs| && c <= 2 * |bs| + 2
    requires CrashRun(l, CommitImage(l, d, bs, ws, c), ks)
    ensures var r := Recovered(l, AfterCrashes(l, CommitImage(l, d, bs, ws, c), ks));
      && GoodDisk(l, r) && Logged(l, r) == []
      && (c <= |bs| ==> forall b :: Home(l, b) ==> r[b] == d[b])
      && (c > |bs| ==> forall b :: Home(l, b) ==> r[b] == After(l, d, bs, ws, b))
  {
    var e := CommitImage(l, d, bs, ws, c);
    CommitMeaning(l, d, bs, ws, c);
    CrashesKeepMeaning(l, e, ks);
    ClearKeepsMeaning(l, AfterCrashes(l, e, ks));
  }

  /** Installing some blocks twice is installing them once. */
  lemma {:induction false} InstallAgain(l: Layout, d: Image, bs: seq<int>, k: nat)
    requires ValidLayout(l) && |d| == l.disksize && GoodList(l, bs) && k <= |bs|
    ensures Install(l, Install(l, d, bs, k), bs, |bs|) == Install(l, d, bs, |bs|)
  {
    var e := Install(l, d, bs, k);
    var f, g := Install(l, d, bs, |bs|), Install(l, e, bs, |bs|);
    InstallFrame(l, d, bs, k);
    InstallFrame(l, d, bs, |bs|);
    InstallFrame(l, e, bs, |bs|);
    forall b | 0 <= b < |d| ensures f[b] == g[b] {
      if b in bs {
        var i :| 0 <= i < |bs| && bs[i] == b;
        assert e[l.start + 1 + i] == d[l.start + 1 + i];
      }
    }
  }

  /** A recovery that was cut off anywhere, started again and run to its end, leaves the same disk, word
      for word, as one that was never cut off. */
  lemma {:induction false} RecoveryRestarts(l: Layout, d: Image, k: nat)
    requires GoodDisk(l, d) && k <= |Logged(l, d)| + 1
    ensures Recovered(l, RecoveryImage(l, d, k)) == Recovered(l, d)
  {
    var e := RecoveryImage(l, d, k);
    var bs := Logged(l, d);
    if k <= |bs| {
      InstallKeepsMeaning(l, d, k);
      InstallAgain(l, d, bs, k);
    } else {
      ClearKeepsMeaning(l, d);
      assert HeadBlock(e[l.start], []) == e[l.start];
      assert Install(l, e, [], 0) == e && PutHead(l, e, []) == e;
    }
  }

  lemma {:induction false} CrashesDoNotShow(l: Layout, d: Image, ks: seq<nat>)
    requires GoodDisk(l, d) && CrashRun(l, d, ks)
    ensures Recovered(l, AfterCrashes(l, d, ks)) == Recovered(l, d)
    decreases |ks|
  {
    if ks != [] {
      var e := RecoveryImage(l, d, ks[0]);
      RecoveryRestarts(l, d, ks[0]);
      CrashesDoNotShow(l, e, ks[1..]);
    }
  }

  // --- The images in the order they reach the disk ---

  function PutTrace(l: Layout, d: Image, ws: seq<Block>, k: nat): (t: seq<Image>)
    requires ValidLayout(l) && |d| == l.disksize && k <= |ws| <= l.size - 1
    ensures |t| == k && forall i :: 0 <= i < k ==> t[i] == PutLog(l, d, ws, i + 1)
  {
    if k == 0 then [] else PutTrace(l, d, ws, k - 1) + [PutLog(l, d, ws, k)]
  }

  function InstallTrace(l: Layout, d: Image, bs: seq<int>, k: nat): (t: seq<Image>)
    requires ValidLayout(l) && |d| == l.disksize && GoodList(l, bs) && k <= |bs|
    ensures |t| == k
  {
    if k == 0 then [] else InstallTrace(l, d, bs, k - 1) + [Install(l, d, bs, k)]
  }

  function RecoveryTrace(l: Layout, d: Image, k: nat): (t: seq<Image>)
    requires GoodDisk(l, d) && k <= |Logged(l, d)| + 1
    ensures |t| == k && forall i :: 0 <= i < k ==> t[i] == RecoveryImage(l, d, i + 1)
  {
    if k == 0 then [] else RecoveryTrace(l, d, k - 1) + [RecoveryImage(l, d, k)]
  }

  function CommitTrace(l: Layout, d: Image, bs: seq<int>, ws: seq<Block>, c: nat): (t: seq<Image>)
    requires GoodDisk(l, d) && Logged(l, d) == [] && GoodList(l, bs) && |ws| == |bs| && c <= 2 * |bs| + 2
    ensures |t| == c && forall i :: 0 <= i < c ==> t[i] == CommitImage(l, d, bs, ws, i + 1)
  {
    if c == 0 then [] else CommitTrace(l, d, bs, ws, c - 1) + [CommitImage(l, d, bs, ws, c)]
  }

  lemma {:induction false} InstallTraceIs(l: Layout, d: Image, k: nat)
    requires GoodDisk(l, d) && k <= |Logged(l, d)|
    ensures InstallTrace(l, d, Logged(l, d), k) == RecoveryTrace(l, d, k)
  {
    if k > 0 {
      InstallTraceIs(l, d, k - 1);
    }
  }

  lemma RecoveryStarts(l: Layout, e: Image)
    requires GoodDisk(l, e)
    ensures RecoveryImage(l, e, 0) == e
  {
  }

  /** From the header write on, commit does what recovery of the committed log would do. */
  lemma {:induction false} CommitTraceIs(l: Layout, d: Image, bs: seq<int>, ws: seq<Block>, e: Image)
    requires GoodDisk(l, d) && Logged(l, d) == [] && GoodList(l, bs) && |ws| == |bs|
    requires e == PutHead(l, PutLog(l, d, ws, |bs|), bs) && GoodDisk(l, e) && Logged(l, e) == bs
    ensures CommitTrace(l, d, bs, ws, 2 * |bs| + 2)
         == PutTrace(l, d, ws, |bs|) + [e] + RecoveryTrace(l, e, |bs| + 1)
  {
    hide PutLog, PutHead, Install, RecoveryImage;
    RecoveryStarts(l, e);
    var t := CommitTrace(l, d, bs, ws, 2 * |bs| + 2);
    var u := PutTrace(l, d, ws, |bs|) + [e] + RecoveryTrace(l, e, |bs| + 1);
    forall i | 0 <= i < |t| ensures t[i] == u[i] {
      if i == |bs| {
        assert CommitImage(l, d, bs, ws, i + 1) == RecoveryImage(l, e, 0);
      } else if i > |bs| {
        assert CommitImage(l, d, bs, ws, i + 1) == RecoveryImage(l, e, i - |bs|);
      }
    }
  }
}
