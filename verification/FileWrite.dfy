/** file.c: reading and writing an open file, in transactions that fit the log. */
module FileWrite {
  import opened FsBlocks
  import opened BlockMap
  import opened Params
  import opened Sequences
  import opened Fs
  import LogRace

  /** What filewrite hands to writei at a time: half of MAXOPBLOCKS without inode, indirect block and slop. */
  const CHUNK: nat := (MAXOPBLOCKS - 1 - 1 - 2) / 2 * BSIZE

  function Piece(left: nat): nat {
    if left > CHUNK then CHUNK else left
  }

  /** Transactions for `n` bytes: one for every three blocks begun. */
  function Pieces(n: nat): nat {
    (n + 1535) / 1536
  }

  /** After a number of whole pieces, or at the end. */
  predicate Between(i: nat, n: nat) {
    i % 1536 == 0 || i == n
  }

  lemma NoPieces(n: nat)
    ensures Pieces(0) == 0 && Between(0, n)
  {
  }

  lemma {:induction false} OnePiece(i: nat, n: nat)
    requires i < n && Between(i, n)
    ensures var m := Piece(n - i); 0 < m <= n - i && m <= CHUNK && Pieces(i + m) == Pieces(i) + 1 && Between(i + m, n)
  {
  }

  /** Blocks that one chunk can log: four of data, bitmap, indirect block, inode. */
  const CHUNK_BLOCKS: nat := 7

  /** However the chunk is aligned, it touches at most four file blocks. */
  lemma {:induction false} FourBlocks(off: nat, n: nat, bn: nat)
    requires n <= CHUNK && off / BSIZE <= bn && bn * BSIZE < off + n
    ensures bn <= off / BSIZE + 3
  {
    assert off < (off / BSIZE + 1) * BSIZE;
  }

  ghost function Candidates(view: Map, i: nat, off: nat, bitmap: nat, inode: nat): set<nat> {
    var b := off / BSIZE;
    {bitmap, inode, At(view, i, NDIRECT), At(view, i, DataSlot(b)), At(view, i, DataSlot(b + 1)),
     At(view, i, DataSlot(b + 2)), At(view, i, DataSlot(b + 3))}
  }

  lemma SevenAtMost(a: nat, b: nat, c: nat, d: nat, e: nat, f: nat, g: nat)
    ensures |{a, b, c, d, e, f, g}| <= 7
  {
    assert |{a, b}| <= 2;
    assert {a, b, c} == {a, b} + {c};
    assert {a, b, c, d} == {a, b, c} + {d};
    assert {a, b, c, d, e} == {a, b, c, d} + {e};
    assert {a, b, c, d, e, f} == {a, b, c, d, e} + {f};
    assert {a, b, c, d, e, f, g} == {a, b, c, d, e, f} + {g};
  }

  /** With one bitmap block, a chunk logs at most seven different blocks. */
  lemma {:induction false} ChunkFits(fs: FileSystem, i: nat, off: nat, n: nat, logs: set<nat>)
    requires fs.disk.Length <= BPB && n <= CHUNK
    requires forall b :: b in logs ==> fs.WriteLogs(i, off, n, b)
    ensures |logs| <= CHUNK_BLOCKS
  {
    var all := Candidates(fs.view, i, off, fs.bmapstart, fs.InodeBlock(i));
    forall b | b in logs
      ensures b in all
    {
      if !fs.InBitmap(b) && b != fs.InodeBlock(i) && b != At(fs.view, i, NDIRECT) {
        var bn: nat :| DataLog(fs.view, i, off, n, b, bn);
        FourBlocks(off, n, bn);
      } else if fs.InBitmap(b) {
        assert (fs.disk.Length - 1) / BPB == 0;
      }
    }
    SubsetSize(logs, all);
    var k := off / BSIZE;
    SevenAtMost(fs.bmapstart, fs.InodeBlock(i), At(fs.view, i, NDIRECT), At(fs.view, i, DataSlot(k)),
                At(fs.view, i, DataSlot(k + 1)), At(fs.view, i, DataSlot(k + 2)), At(fs.view, i, DataSlot(k + 3)));
  }

  /** Operations of this size never make log_write panic nor outgrow the log, however its guard and its append
      interleave with those of others, also with the log that mkfs lays out. */
  lemma ChunksNeverFillTheLog(nproc: nat)
    requires nproc >= 2
    ensures CHUNK_BLOCKS <= MAXOPBLOCKS
    ensures LogRace.PanicFree(LOGSIZE, nproc, CHUNK_BLOCKS) && LogRace.StaysInLog(LOGSIZE, nproc, CHUNK_BLOCKS)
  {
    LogRace.PanicFreeIff(LOGSIZE, nproc, CHUNK_BLOCKS);
    LogRace.StaysInLogIff(LOGSIZE, nproc, CHUNK_BLOCKS);
  }

  /** Writing two pieces one behind the other is writing them at once. */
  lemma {:induction false} SpliceTwice(f: Bytes, off: nat, a: Bytes, b: Bytes)
    requires off <= |f|
    ensures off + |a| <= |Spliced(f, off, a)|
    ensures Spliced(Spliced(f, off, a), off + |a|, b) == Spliced(f, off, a + b)
  {
    var g := Spliced(f, off, a);
    var r := Spliced(g, off + |a|, b);
    SplicedIs(f, off, a + b, r);
  }

  /** What was written is read back. */
  lemma {:induction false} SplicedRead(f: Bytes, off: nat, src: Bytes)
    requires off <= |f|
    ensures |Spliced(f, off, src)| >= off + |src|
    ensures Spliced(f, off, src)[off..off + |src|] == src
  {
  }

  ghost predicate SplicedFrom(f: Bytes, off: nat, src: Bytes, r: Bytes) {
    off <= |f| && r == Spliced(f, off, src)
  }

  class File {
    const fs: FileSystem
    const inum: nat
    const readable: bool
    const writable: bool
    var off: nat

    constructor (fs: FileSystem, inum: nat, readable: bool, writable: bool)
      requires fs.Core() && fs.Synced() && inum < fs.inodes.Length
      ensures Valid() && this.fs == fs && this.inum == inum && off == 0
      ensures this.readable == readable && this.writable == writable
    {
      this.fs := fs;
      this.inum := inum;
      this.readable := readable;
      this.writable := writable;
      off := 0;
    }

    ghost predicate Valid()
      reads this, fs, fs.disk, fs.inodes, fs.dinodes
    {
      fs.Core() && fs.Synced() && inum < fs.inodes.Length && off < UINT
    }

    method FileRead(n: nat) returns (r: int, dst: Bytes)
      requires Valid() && n < UINT / 2
      modifies this`off, fs`logged, fs`used, fs`view, fs`owner, fs.disk, fs.inodes
      ensures Valid() && fs.Same()
      ensures r == -1 <==> !readable || old(off) > fs.inodes[inum].size || old(off) + n >= UINT
      ensures r != -1 ==>
        r == |dst| && old(off) + r <= |fs.Contents(inum)| && dst == fs.Contents(inum)[old(off)..old(off) + r]
      ensures off == if r > 0 then old(off) + r else old(off)
    {
      hide FileSystem.Core, FileSystem.Contents;
      dst := [];
      if !readable {
        return -1, dst;
      }
      r, dst := fs.Readi(inum, off, n);
      if r > 0 {
        off := off + r;
      }
    }

    /** One transaction of filewrite: begin_op, writei and the new offset. */
    method WriteOne(part: Bytes) returns (ok: bool, r: int)
      requires Valid() && |part| <= CHUNK
      modifies this`off, fs, fs.disk, fs.inodes, fs.dinodes
      ensures fs.disk.Length <= BPB && ok ==> |fs.logged| <= CHUNK_BLOCKS
      ensures !ok ==> AllUsed(fs.disk.Length, fs.used)
      ensures ok ==> Valid() && (r == -1 || r == |part|)
      ensures ok && r == -1 ==> off == old(off) && fs.Contents(inum) == old(fs.Contents(inum))
      ensures ok && r == -1 ==> old(off) > |old(fs.Contents(inum))| || off + |part| > MAXFILE * BSIZE
      ensures ok && r != -1 ==>
        off == old(off) + r && SplicedFrom(old(fs.Contents(inum)), old(off), part, fs.Contents(inum))
      ensures ok ==> forall j :: 0 <= j < fs.inodes.Length && j != inum ==> fs.Contents(j) == old(fs.Contents(j))
    {
      hide FileSystem.Core, FileSystem.WriteLogs, FileSystem.Contents, FileSystem.Through, Spliced;
      fs.BeginOp();
      ok, r := fs.Writei(inum, part, off);
      if !ok {
        return;
      }
      if fs.disk.Length <= BPB {
        ChunkFits(fs, inum, off, |part|, fs.logged);
      }
      if r > 0 {
        off := off + r;
      }
    }

    /** Writes chunk by chunk, each in a transaction of its own; `txs` lists the blocks of each transaction.
        Either all is written, or `done` bytes are and the next chunk would not have fitted. Not ok: the disk
        is full and the source panics; the short write that it also panics on does not happen. */
    method FileWrite(src: Bytes) returns (ok: bool, r: int, ghost done: nat, ghost txs: seq<set<nat>>)
      requires Valid() && |src| < UINT / 2
      modifies this`off, fs, fs.disk, fs.inodes, fs.dinodes
      ensures fs.disk.Length <= BPB ==> forall k :: 0 <= k < |txs| ==> |txs[k]| <= CHUNK_BLOCKS
      ensures !ok ==> AllUsed(fs.disk.Length, fs.used)
      ensures ok ==> Valid() && done <= |src| && off == old(off) + done
      ensures ok ==> r == if writable && done == |src| then |src| else -1
      ensures ok && done > 0 ==>
        writable && SplicedFrom(old(fs.Contents(inum)), old(off), src[..done], fs.Contents(inum))
      ensures ok && done == 0 ==> fs.Contents(inum) == old(fs.Contents(inum))
      ensures ok ==> forall j :: 0 <= j < fs.inodes.Length && j != inum ==> fs.Contents(j) == old(fs.Contents(j))
      ensures ok && writable && done == |src| ==> |txs| == Pieces(|src|)
      ensures ok && writable && done < |src| ==>
        old(off) > |old(fs.Contents(inum))| || off + Piece(|src| - done) > MAXFILE * BSIZE
    {
      hide FileSystem.Core, FileSystem.WriteLogs, FileSystem.Contents, Spliced, Pieces, Between, Piece;
      hide FileSystem.Through, FileSystem.InodeBlock, FileSystem.InBitmap;
      NoPieces(|src|);
      ok, done, txs := true, 0, [];
      if !writable {
        return true, -1, 0, [];
      }
      var i := 0;
      var n := |src|;
      r := 0;
      while i < n
        invariant 0 <= i <= n && Valid() && off == old(off) + i
        invariant |txs| == Pieces(i) && Between(i, n)
        invariant fs.disk.Length <= BPB ==> forall k :: 0 <= k < |txs| ==> |txs[k]| <= CHUNK_BLOCKS
        invariant i == 0 ==> fs.Contents(inum) == old(fs.Contents(inum))
        invariant i > 0 ==> SplicedFrom(old(fs.Contents(inum)), old(off), src[..i], fs.Contents(inum))
        invariant forall j :: 0 <= j < fs.inodes.Length && j != inum ==> fs.Contents(j) == old(fs.Contents(j))
      {
        OnePiece(i, n);
        var n1 := Piece(n - i);
        if i > 0 {
          SplicedRead(old(fs.Contents(inum)), old(off), src[..i]);
        }
        ok, r := WriteOne(src[i..i + n1]);
        if !ok {
          return;
        }
        txs := txs + [fs.logged];
        if r < 0 {
          break;
        }
        if r != n1 {
          assert false;
        }
        if i > 0 {
          SpliceTwice(old(fs.Contents(inum)), old(off), src[..i], src[i..i + n1]);
        }
        assert src[..i] + src[i..i + n1] == src[..i + n1];
        i := i + r;
      }
      done := i;
      r := if i == n then n else -1;
    }
  }
}
