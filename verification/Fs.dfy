/** fs.c: block allocation, block maps, truncation, reading and writing. The array `disk` is what bread
    returns inside the running transaction; `logged` collects what the transaction has passed to log_write. */
module Fs {
  import opened FsBlocks
  import opened BlockMap

  const DINODE: nat := 4 * 2 + 4 + 4 * (NDIRECT + 1)    // bytes of an inode on disk
  const IPB: nat := BSIZE / DINODE           // inodes per block

  /** Inodes fill their blocks exactly. */
  lemma InodesFillBlocks()
    ensures DINODE * IPB == BSIZE
  {
  }

  datatype Inode = Inode(size: nat, addrs: seq<nat>)

  /** In-core inode and row agree on the direct blocks and the indirect block. */
  ghost predicate InodeRow(ip: Inode, row: Row) {
    |row| == SLOTS && |ip.addrs| == NDIRECT + 1 && ip.addrs == row[..NDIRECT + 1]
  }

  /** The words of the indirect block are the rest of the row. */
  ghost predicate TableRow(b: Bytes, row: Row) {
    |row| == SLOTS && IsBlock(b) && forall j :: 0 <= j < NINDIRECT ==> Word(b, j) == row[NDIRECT + 1 + j]
  }

  /** Every block below the size is there. */
  ghost predicate Filled(size: nat, row: Row) {
    |row| == SLOTS && size <= MAXFILE * BSIZE
    && forall bn: nat :: bn < MAXFILE && bn * BSIZE < size ==> row[DataSlot(bn)] != 0
  }

  /** The disk is full. */
  ghost predicate AllUsed(size: nat, used: set<nat>) {
    forall c: nat :: c < size ==> c in used
  }

  /** A block of zeroes is an indirect block without entries. */
  lemma NewTable(row: Row)
    requires |row| == SLOTS && forall k :: NDIRECT < k < SLOTS ==> row[k] == 0
    ensures TableRow(Zeroes(), row)
  {
    hide Word;
    forall j | 0 <= j < NINDIRECT
      ensures Word(Zeroes(), j) == 0
    {
      ZeroWord(j);
    }
  }

  lemma TablePut(b: Bytes, row: Row, j: nat, a: nat)
    requires TableRow(b, row) && j < NINDIRECT && a < UINT
    ensures TableRow(PutWord(b, j, a), row[NDIRECT + 1 + j := a])
  {
    hide Word, PutWord;
    forall m | 0 <= m < NINDIRECT
      ensures Word(PutWord(b, j, a), m) == row[NDIRECT + 1 + j := a][NDIRECT + 1 + m]
    {
      WordPut(b, j, a, m);
    }
  }

  lemma EmptyInode(ip: Inode)
    requires ip.size == 0 && |ip.addrs| == NDIRECT + 1 && forall k :: 0 <= k <= NDIRECT ==> ip.addrs[k] == 0
    ensures InodeRow(ip, EmptyRow()) && Filled(0, EmptyRow())
  {
  }

  /** `src` written over `f` from `off` on. */
  function Spliced(f: Bytes, off: nat, src: Bytes): Bytes
    requires off <= |f|
  {
    f[..off] + src + (if off + |src| < |f| then f[off + |src|..] else [])
  }

  lemma SplicedIs(f: Bytes, off: nat, src: Bytes, r: Bytes)
    requires off <= |f| && |r| == if off + |src| > |f| then off + |src| else |f|
    requires forall p :: 0 <= p < |r| ==> r[p] == if off <= p < off + |src| then src[p - off] else f[p]
    ensures r == Spliced(f, off, src)
  {
  }

  class FileSystem {
    const disk: array<Bytes>
    const inodes: array<Inode>      // in core
    const dinodes: array<Inode>     // in the inode blocks
    const bmapstart: nat
    const inodestart: nat
    const nmeta: nat
    var logged: set<nat>
    ghost var view: Map
    ghost var owner: Owners
    ghost var used: set<nat>

    /** A formatted disk without files. */
    constructor (disk: array<Bytes>, inodes: array<Inode>, dinodes: array<Inode>, bmapstart: nat, inodestart: nat,
                 nmeta: nat)
      requires inodes != dinodes && inodes.Length == dinodes.Length
      requires 0 < nmeta <= disk.Length < UINT && 0 < bmapstart && (disk.Length - 1) / BPB + bmapstart < nmeta
      requires forall b :: 0 <= b < disk.Length ==> IsBlock(disk[b])
      requires forall b: nat :: b < disk.Length ==>
        b / BPB + bmapstart < nmeta && IsBlock(disk[b / BPB + bmapstart]) &&
          (Bit(disk[b / BPB + bmapstart], b % BPB) <==> b < nmeta)
      requires forall i :: 0 <= i < inodes.Length ==> inodes[i] == Inode(0, EmptyRow()[..NDIRECT + 1])
      requires inodes[..] == dinodes[..]
      ensures Core() && Synced()
      ensures this.disk == disk && this.inodes == inodes && this.dinodes == dinodes
    {
      this.disk, this.inodes, this.dinodes := disk, inodes, dinodes;
      this.bmapstart, this.inodestart, this.nmeta := bmapstart, inodestart, nmeta;
      logged := {};
      view := seq(inodes.Length, _ => EmptyRow());
      owner := map[];
      used := set b: nat | b < nmeta && Below(b, nmeta);
      new;
      hide NumBit;
      assert forall i: nat, k: nat :: At(view, i, k) == 0;
    }

    static predicate Below(b: nat, n: nat) {
      b < n
    }

    function BitmapBlock(b: nat): nat {
      b / BPB + bmapstart
    }

    /** Boot block, super block, log, inode blocks and bitmap lie below nmeta. */
    ghost predicate Shape()
      reads disk
    {
      && inodes != dinodes && inodes.Length == dinodes.Length
      && 0 < nmeta <= disk.Length < UINT
      && 0 < bmapstart && BitmapBlock(disk.Length - 1) < nmeta
      && forall b :: 0 <= b < disk.Length ==> IsBlock(disk[b])
    }

    /** The bitmap marks exactly the blocks in use. */
    ghost predicate Bits()
      reads this`used, disk
      requires Shape()
    {
      forall b: nat :: b < disk.Length ==> (Marked(b) <==> b in used)
    }

    /** The metadata are among them. */
    ghost predicate Marks()
      reads this`used, disk
      requires Shape()
      ensures Marks() ==> Bits()
    {
      (forall b: nat :: b < nmeta ==> b in used) && Bits()
    }

    ghost predicate Marked(b: nat)
      reads disk
      requires Shape() && b < disk.Length
    {
      BlockBelow(b, disk.Length - 1);
      Bit(disk[BitmapBlock(b)], b % BPB)
    }

    static lemma BlockBelow(b: nat, c: nat)
      requires b <= c
      ensures b / BPB <= c / BPB
    {
    }

    method LogWrite(b: nat)
      modifies this`logged
      ensures logged == old(logged) + {b}
    {
      logged := logged + {b};
    }

    /** Every block that has been changed has been logged. */
    twostate predicate Through()
      reads this`logged, disk
    {
      old(logged) <= logged && forall c :: 0 <= c < disk.Length && disk[c] != old(disk[c]) ==> c in logged
    }

    /** A change of a data block: the bitmap stays. */
    method PutBlock(b: nat, v: Bytes)
      requires Shape() && Marks() && nmeta <= b < disk.Length && IsBlock(v)
      modifies disk
      ensures Shape() && Marks() && disk[b] == v
      ensures forall c :: 0 <= c < disk.Length && c != b ==> disk[c] == old(disk[c])
    {
      hide Bit, NumBit;
      forall c: nat | c < disk.Length
        ensures BitmapBlock(c) < nmeta
      {
        BlockBelow(c, disk.Length - 1);
      }
      label before:
      disk[b] := v;
      assert forall c: nat :: c < disk.Length ==> (Marked(c) <==> old@before(Marked(c)));
    }

    /** A new operation has not logged anything yet. */
    method BeginOp()
      modifies this`logged
      ensures logged == {}
    {
      logged := {};
    }

    method Bzero(b: nat)
      requires Shape() && Marks() && nmeta <= b < disk.Length
      modifies this`logged, disk
      ensures Through()
      ensures Shape() && Marks() && disk[b] == Zeroes() && logged == old(logged) + {b}
      ensures forall c :: 0 <= c < disk.Length && c != b ==> disk[c] == old(disk[c])
    {
      PutBlock(b, Zeroes());
      LogWrite(b);
    }

    /** The blocks that a search of the bitmap may log. */
    ghost predicate InBitmap(b: nat) {
      disk.Length > 0 && bmapstart <= b <= BitmapBlock(disk.Length - 1)
    }

    lemma MetaInUse()
      requires Shape() && Marks()
      ensures forall b: nat :: b < nmeta ==> b in used
    {
    }

    lemma MarkAt(b: nat, bi: nat)
      requires Shape() && Marks() && b % BPB == 0 && bi < BPB && b + bi < disk.Length
      ensures BitmapBlock(b) < disk.Length && IsBlock(disk[BitmapBlock(b)])
      ensures Bit(disk[BitmapBlock(b)], bi) <==> b + bi in used
    {
      hide Bit, NumBit;
      BlockBelow(b, disk.Length - 1);
      InBlock(b, bi);
      assert Marked(b + bi) <==> b + bi in used;
    }

    /** The search of balloc: the first block whose bit is clear. */
    method FindFree() returns (ok: bool, r: nat)
      requires Shape() && Marks()
      ensures !ok ==> AllUsed(disk.Length, used)
      ensures ok ==> nmeta <= r < disk.Length && r !in used && forall c: nat :: c < r ==> c in used
    {
      hide Bit, NumBit, Marked, Bits, Marks;
      MetaInUse();
      var b := 0;
      while b < disk.Length
        invariant b % BPB == 0
        invariant forall c: nat :: c < b && c < disk.Length ==> c in used
      {
        BlockBelow(b, disk.Length - 1);
        var bp := BitmapBlock(b);
        var bi := 0;
        while bi < BPB && b + bi < disk.Length
          invariant 0 <= bi <= BPB
          invariant forall c: nat :: c < b + bi && c < disk.Length ==> c in used
        {
          MarkAt(b, bi);
          if !Bit(disk[bp], bi) {
            return true, b + bi;
          }
          bi := bi + 1;
        }
        b := b + BPB;
      }
      return false, 0;
    }

    /** The first free block, marked and filled with zeroes; none (the source panics) when the disk is full. */
    method Balloc() returns (ok: bool, r: nat)
      requires Shape() && Marks()
      modifies this`logged, this`used, disk
      ensures Through()
      ensures Shape() && Marks()
      ensures !ok ==> AllUsed(disk.Length, used)
      ensures !ok ==> logged == old(logged) && used == old(used) && disk[..] == old(disk[..])
      ensures ok ==>
        && nmeta <= r < disk.Length && r !in old(used) && used == old(used) + {r}
        && (forall c: nat :: c < r ==> c in old(used))
        && disk[r] == Zeroes() && logged == old(logged) + {BitmapBlock(r), r} && InBitmap(BitmapBlock(r))
        && (forall c :: nmeta <= c < disk.Length && c != r ==> disk[c] == old(disk[c]))
    {
      hide Zeroes, Marked;
      ok, r := FindFree();
      if ok {
        BlockBelow(r, disk.Length - 1);
        MarkBlock(r);
        LogWrite(BitmapBlock(r));
        Bzero(r);
      }
    }

    static lemma InBlock(b: nat, bi: nat)
      requires b % BPB == 0 && bi < BPB
      ensures (b + bi) / BPB == b / BPB && (b + bi) % BPB == bi
    {
    }

    /** `bp->data[bi/8] |= m`. */
    method MarkBlock(b: nat)
      requires Shape() && Marks() && b < disk.Length && b !in used
      modifies this`used, disk
      ensures Shape() && Marks() && used == old(used) + {b}
      ensures forall c :: 0 <= c < disk.Length && c != BitmapBlock(b) ==> disk[c] == old(disk[c])
    {
      hide Bit, SetBit, NumBit;
      var bp := BitmapBlock(b);
      BlockBelow(b, disk.Length - 1);
      label before:
      forall c: nat | c < disk.Length
        ensures var d := if BitmapBlock(c) == bp then SetBit(disk[bp], b % BPB) else disk[BitmapBlock(c)];
          BitmapBlock(c) < nmeta && (Bit(d, c % BPB) <==> c == b || Marked(c))
      {
        BlockBelow(c, disk.Length - 1);
        SamePlace(b, c);
        BitAfter(disk[bp], b % BPB, c % BPB);
      }
      disk[bp] := SetBit(disk[bp], b % BPB);
      used := used + {b};
    }

    static lemma SamePlace(b: nat, c: nat)
      ensures b == c <==> b / BPB == c / BPB && b % BPB == c % BPB
    {
    }

    /** Frees a block; not ok is the panic on a block that is free already. */
    method Bfree(b: nat) returns (ok: bool)
      requires Shape() && Bits() && b < disk.Length
      modifies this`logged, this`used, disk
      ensures Through()
      ensures Shape() && Bits() && (ok <==> b in old(used)) && used == old(used) - {b}
      ensures logged == old(logged) + (if ok then {BitmapBlock(b)} else {})
      ensures b >= nmeta && old(Marks()) ==> Marks()
      ensures InBitmap(BitmapBlock(b))
      ensures forall c :: nmeta <= c < disk.Length ==> disk[c] == old(disk[c])
    {
      hide Bit, ClearBit, NumBit;
      var bp := BitmapBlock(b);
      BlockBelow(b, disk.Length - 1);
      assert Marked(b) <==> b in used;
      if !Bit(disk[bp], b % BPB) {
        return false;
      }
      forall c: nat | c < disk.Length
        ensures var d := if BitmapBlock(c) == bp then ClearBit(disk[bp], b % BPB) else disk[BitmapBlock(c)];
          BitmapBlock(c) < nmeta && (Bit(d, c % BPB) <==> c != b && Marked(c))
      {
        BlockBelow(c, disk.Length - 1);
        SamePlace(b, c);
        BitAfter(disk[bp], b % BPB, c % BPB);
      }
      disk[bp] := ClearBit(disk[bp], b % BPB);
      used := used - {b};
      LogWrite(bp);
      return true;
    }

    // -------------------------------------------------------------- inodes and their blocks

    /** The indirect block of inode `i`, if any, holds the rest of its row. */
    ghost predicate Table(i: nat)
      reads this`view, disk
      requires Shape()
    {
      var t := At(view, i, NDIRECT);
      t != 0 ==> nmeta <= t < disk.Length && TableRow(disk[t], view[i])
    }

    /** What every operation keeps: block ownership, bitmap, in-core inodes, indirect blocks, and that files
        have no holes. */
    ghost predicate Core()
      reads this`used, this`view, this`owner, disk, inodes
    {
      && Shape() && Marks()
      && |view| == inodes.Length && Owned(view, owner, nmeta, disk.Length)
      && (forall b: nat :: b in used <==> b < nmeta || b in owner)
      && (forall i: nat :: i < inodes.Length ==> InodeRow(inodes[i], view[i]) && Filled(inodes[i].size, view[i]))
      && (forall i: nat :: i < inodes.Length ==> Table(i))
    }

    ghost predicate Synced()
      reads inodes, dinodes
    {
      inodes[..] == dinodes[..]
    }

    /** Slot `k` of inode `i` was filled with the new block `a`, and nothing else but the bitmap and the
        listed block changed. */
    twostate predicate SlotFilled(i: nat, k: nat, a: nat, but: nat)
      requires Shape()
      reads this, disk, inodes
    {
      && nmeta <= a < disk.Length && a !in old(owner) && i < old(|view|) && k < SLOTS && old(Shaped(view))
      && At(old(view), i, k) == 0 && view == Assign(old(view), i, k, a) && owner == old(owner)[a := (i, k)]
      && (forall c :: nmeta <= c < disk.Length && c != a && c != but ==> disk[c] == old(disk[c]))
      && (forall j :: 0 <= j < inodes.Length && j != i ==> inodes[j] == old(inodes[j]))
      && (i < inodes.Length ==> inodes[i].size == old(inodes[i].size))
      && disk[a] == Zeroes()
    }

    /** `ip->addrs[k] = addr = balloc(...)`, for a direct block or the indirect block. */
    method AddressSlot(i: nat, k: nat) returns (ok: bool, addr: nat)
      requires Core() && i < inodes.Length && k <= NDIRECT && At(view, i, k) == 0
      modifies this`logged, this`used, this`view, this`owner, disk, inodes
      ensures Through()
      ensures !ok ==> AllUsed(disk.Length, used)
      ensures ok ==> Core() && SlotFilled(i, k, addr, 0)
      ensures ok ==> logged == old(logged) + {BitmapBlock(addr), addr} && InBitmap(BitmapBlock(addr))
    {
      hide Marks, Bits, Owned, Marked, Word, Zeroes;
      ok, addr := Balloc();
      if !ok {
        return;
      }
      AssignOwned(view, owner, nmeta, disk.Length, i, k, addr);
      if k == NDIRECT {
        NoEntries(view, owner, nmeta, disk.Length, i);
        NewTable(view[i]);
      }
      var ip := inodes[i];
      inodes[i] := ip.(addrs := ip.addrs[k := addr]);
      view := Assign(view, i, k, addr);
      owner := owner[addr := (i, k)];
      forall j: nat | j < inodes.Length
        ensures InodeRow(inodes[j], view[j]) && Filled(inodes[j].size, view[j])
      {
        assert old(InodeRow(inodes[j], view[j]) && Filled(inodes[j].size, view[j]));
      }
      forall j: nat | j < inodes.Length
        ensures Table(j)
      {
        assert old(Table(j));
        if old(At(view, j, NDIRECT)) != 0 {
          InSlot(old(view), old(owner), nmeta, disk.Length, j, NDIRECT);
        }
      }
    }

    /** `a[bn] = addr = balloc(...); log_write(bp)`, for an entry of the indirect block. */
    method EntrySlot(i: nat, j: nat) returns (ok: bool, addr: nat)
      requires Core() && i < inodes.Length && j < NINDIRECT
      requires At(view, i, NDIRECT) != 0 && At(view, i, NDIRECT + 1 + j) == 0
      modifies this`logged, this`used, this`view, this`owner, disk
      ensures Through()
      ensures !ok ==> AllUsed(disk.Length, used)
      ensures ok ==> Core() && SlotFilled(i, NDIRECT + 1 + j, addr, old(At(view, i, NDIRECT)))
      ensures ok ==> logged == old(logged) + {BitmapBlock(addr), addr, old(At(view, i, NDIRECT))}
      ensures ok ==> InBitmap(BitmapBlock(addr))
    {
      hide Marks, Bits, Owned, Marked, Word, PutWord, Zeroes;
      var t := inodes[i].addrs[NDIRECT];
      ghost var k := NDIRECT + 1 + j;
      InSlot(view, owner, nmeta, disk.Length, i, NDIRECT);
      assert Table(i);
      ok, addr := Balloc();
      if !ok {
        return;
      }
      AssignOwned(view, owner, nmeta, disk.Length, i, k, addr);
      TablePut(disk[t], view[i], j, addr);
      PutBlock(t, PutWord(disk[t], j, addr));
      LogWrite(t);
      view := Assign(view, i, k, addr);
      owner := owner[addr := (i, k)];
      forall m: nat | m < inodes.Length
        ensures InodeRow(inodes[m], view[m]) && Filled(inodes[m].size, view[m])
      {
        assert old(InodeRow(inodes[m], view[m]) && Filled(inodes[m].size, view[m]));
      }
      forall m: nat | m < inodes.Length
        ensures Table(m)
      {
        assert old(Table(m));
        if m != i && old(At(view, m, NDIRECT)) != 0 {
          InSlot(old(view), old(owner), nmeta, disk.Length, m, NDIRECT);
          if old(At(view, m, NDIRECT)) == t {
            OneOwner(old(view), old(owner), nmeta, disk.Length, m, NDIRECT, i, NDIRECT);
          }
        }
      }
    }

    /** Inode `i` has gained blocks, and nothing that was there before has changed: no owner, no slot, no other
        inode, no byte of a file. */
    twostate predicate Grown(i: nat)
      reads this, disk, inodes
    {
      && (forall b :: b in old(owner) ==> b in owner && owner[b] == old(owner)[b])
      && (forall m: nat, k: nat :: old(At(view, m, k)) != 0 ==> At(view, m, k) == old(At(view, m, k)))
      && (forall m: nat, k: nat :: m != i ==> At(view, m, k) == old(At(view, m, k)))
      && (forall j :: 0 <= j < inodes.Length && j != i ==> inodes[j] == old(inodes[j]))
      && (i < inodes.Length ==> inodes[i].size == old(inodes[i].size))
      && (forall c :: c in old(owner) && old(owner)[c].1 != NDIRECT && nmeta <= c < disk.Length ==>
           disk[c] == old(disk[c]))
    }

    /** Blocks that may be logged while inode `i` gets block `a`: bitmap, the block, the indirect block. */
    ghost predicate MayLog(i: nat, a: nat, b: nat)
      reads this`view
    {
      InBitmap(b) || b == a || (At(view, i, NDIRECT) != 0 && b == At(view, i, NDIRECT))
    }

    /** Nothing at all has changed. */
    twostate predicate Same()
      reads this, disk, inodes
    {
      view == old(view) && owner == old(owner) && used == old(used) && logged == old(logged)
      && disk[..] == old(disk[..]) && inodes[..] == old(inodes[..])
    }

    /** `if((addr = ip->addrs[k]) == 0) ip->addrs[k] = addr = balloc(ip->dev)`. */
    method Address(i: nat, k: nat) returns (ok: bool, addr: nat)
      requires Core() && i < inodes.Length && k <= NDIRECT
      modifies this`logged, this`used, this`view, this`owner, disk, inodes
      ensures Through()
      ensures old(At(view, i, k)) != 0 ==> ok && Same()
      ensures !ok ==> AllUsed(disk.Length, used)
      ensures ok ==> Core() && Grown(i) && addr != 0 && addr == At(view, i, k)
      ensures ok ==> forall b :: b in logged ==> b in old(logged) || InBitmap(b) || b == addr
    {
      hide Marks, Bits, Owned, Word, Zeroes;
      assert InodeRow(inodes[i], view[i]);
      ok, addr := true, inodes[i].addrs[k];
      if addr == 0 {
        ok, addr := AddressSlot(i, k);
        if ok {
          AtAssigned(old(view), i, k, addr);
        }
      }
    }

    /** The entry `n` of the indirect block. */
    method Entry(i: nat, n: nat) returns (ok: bool, addr: nat)
      requires Core() && i < inodes.Length && n < NINDIRECT && At(view, i, NDIRECT) != 0
      modifies this`logged, this`used, this`view, this`owner, disk, inodes
      ensures Through()
      ensures old(At(view, i, NDIRECT + 1 + n)) != 0 ==> ok && Same()
      ensures !ok ==> AllUsed(disk.Length, used)
      ensures ok ==> Core() && Grown(i) && addr != 0 && addr == At(view, i, NDIRECT + 1 + n)
      ensures ok ==> forall b :: b in logged ==> b in old(logged) || MayLog(i, addr, b)
    {
      hide Marks, Bits, Owned, Word, Zeroes;
      assert InodeRow(inodes[i], view[i]) && Table(i);
      var t := inodes[i].addrs[NDIRECT];
      ok, addr := true, Word(disk[t], n);
      if addr == 0 {
        ok, addr := EntrySlot(i, n);
        if ok {
          AtAssigned(old(view), i, NDIRECT + 1 + n, addr);
          IndirectOwner(old(view), old(owner), nmeta, disk.Length, i);
        }
      }
    }

    /** Byte `p` of the contents of inode `i`. */
    ghost function Byte(i: nat, p: nat): byte
      reads this`view, disk
    {
      var a := At(view, i, DataSlot(p / BSIZE));
      if a < disk.Length && p % BSIZE < |disk[a]| then disk[a][p % BSIZE] else 0
    }

    ghost predicate HasByte(i: nat, p: nat)
      reads this`view
    {
      At(view, i, DataSlot(p / BSIZE)) != 0
    }

    /** The disk block of file block `bn`, allocated if there is none. Not ok: the disk is full and the source
        panics. */
    method Bmap(i: nat, bn: nat) returns (ok: bool, addr: nat)
      requires Core() && i < inodes.Length && bn < MAXFILE
      modifies this`logged, this`used, this`view, this`owner, disk, inodes
      ensures Through()
      ensures old(At(view, i, DataSlot(bn))) != 0 ==> ok && Same()
      ensures !ok ==> AllUsed(disk.Length, used)
      ensures ok ==> Core() && Grown(i) && addr != 0 && addr == At(view, i, DataSlot(bn))
      ensures ok ==> forall m: nat, p: nat :: old(HasByte(m, p)) ==> HasByte(m, p) && Byte(m, p) == old(Byte(m, p))
      ensures ok ==> forall b :: b in logged ==> b in old(logged) || MayLog(i, addr, b)
    {
      hide Core, InodeRow, Filled;
      forall m: nat, p: nat | HasByte(m, p)
        ensures At(view, m, DataSlot(p / BSIZE)) in owner && owner[At(view, m, DataSlot(p / BSIZE))].1 != NDIRECT
        ensures nmeta <= At(view, m, DataSlot(p / BSIZE)) < disk.Length
      {
        SlotsInUse(m);
      }
      if bn < NDIRECT {
        ok, addr := Address(i, bn);
      } else {
        HasTable(i, DataSlot(bn));
        ok, addr := Address(i, NDIRECT);
        if ok {
          ok, addr := Entry(i, bn - NDIRECT);
        }
      }
    }

    lemma HasTable(i: nat, k: nat)
      requires Core() && k > NDIRECT
      ensures At(view, i, k) != 0 ==> At(view, i, NDIRECT) != 0
    {
    }

    // -------------------------------------------------------------- truncation

    function InodeBlock(i: nat): nat {
      i / IPB + inodestart
    }

    method Iupdate(i: nat)
      requires inodes != dinodes && inodes.Length == dinodes.Length && i < inodes.Length
      modifies this`logged, dinodes
      ensures logged == old(logged) + {InodeBlock(i)}
      ensures dinodes[..] == old(dinodes[..])[i := inodes[i]]
    {
      dinodes[i] := inodes[i];
      LogWrite(InodeBlock(i));
    }

    /** The first loop of itrunc. */
    method FreeDirect(i: nat) returns (ok: bool)
      requires Core() && i < inodes.Length
      modifies this`logged, this`used, disk, inodes
      ensures Through()
      ensures ok && Shape() && Marks() && used == old(used) - SlotsOf(owner, i, 0, NDIRECT)
      ensures forall c :: nmeta <= c < disk.Length ==> disk[c] == old(disk[c])
      ensures forall j :: 0 <= j < inodes.Length && j != i ==> inodes[j] == old(inodes[j])
      ensures inodes[i].size == old(inodes[i].size) && |inodes[i].addrs| == NDIRECT + 1
      ensures forall k :: 0 <= k < NDIRECT ==> inodes[i].addrs[k] == 0
      ensures inodes[i].addrs[NDIRECT] == old(inodes[i].addrs[NDIRECT])
      ensures forall b :: b in logged ==> b in old(logged) || InBitmap(b)
    {
      hide Marks, Bits, Owned, TableRow, Filled, Table;
      assert InodeRow(inodes[i], view[i]);
      for k := 0 to NDIRECT
        invariant Shape() && Marks() && Through() && used == old(used) - SlotsOf(owner, i, 0, k)
        invariant forall c :: nmeta <= c < disk.Length ==> disk[c] == old(disk[c])
        invariant forall j :: 0 <= j < inodes.Length && j != i ==> inodes[j] == old(inodes[j])
        invariant inodes[i].size == old(inodes[i].size) && |inodes[i].addrs| == NDIRECT + 1
        invariant forall m :: 0 <= m < NDIRECT + 1 ==> inodes[i].addrs[m] == if m < k then 0 else view[i][m]
        invariant forall b :: b in logged ==> b in old(logged) || InBitmap(b)
      {
        NextSlot(view, owner, nmeta, disk.Length, i, 0, k);
        var a := inodes[i].addrs[k];
        if a != 0 {
          ok := Bfree(a);
          if !ok {
            assert false;
          }
          inodes[i] := inodes[i].(addrs := inodes[i].addrs[k := 0]);
        }
      }
      ok := true;
    }

    /** The loop over the indirect block, which still lists the blocks while they are freed. */
    method FreeEntries(i: nat, t: nat) returns (ok: bool)
      requires Shape() && Marks() && Owned(view, owner, nmeta, disk.Length) && Table(i) && i < |view|
      requires t != 0 && t == At(view, i, NDIRECT)
      requires forall k: nat :: k > NDIRECT && At(view, i, k) != 0 ==> At(view, i, k) in used
      modifies this`logged, this`used, disk
      ensures Through()
      ensures ok && Shape() && Marks() && used == old(used) - SlotsOf(owner, i, NDIRECT + 1, SLOTS)
      ensures forall c :: nmeta <= c < disk.Length ==> disk[c] == old(disk[c])
      ensures forall b :: b in logged ==> b in old(logged) || InBitmap(b)
    {
      hide Marks, Bits, Owned, Word;
      for j := 0 to NINDIRECT
        invariant Shape() && Marks() && Through()
        invariant used == old(used) - SlotsOf(owner, i, NDIRECT + 1, NDIRECT + 1 + j)
        invariant forall c :: nmeta <= c < disk.Length ==> disk[c] == old(disk[c])
        invariant forall b :: b in logged ==> b in old(logged) || InBitmap(b)
      {
        NextSlot(view, owner, nmeta, disk.Length, i, NDIRECT + 1, NDIRECT + 1 + j);
        var a := Word(disk[t], j);
        if a != 0 {
          ok := Bfree(a);
          if !ok {
            assert false;
          }
        }
      }
      ok := true;
    }

    lemma SlotsInUse(i: nat)
      requires Core()
      ensures forall k: nat :: At(view, i, k) != 0 ==>
        At(view, i, k) in owner && owner[At(view, i, k)] == (i, k) && At(view, i, k) in used &&
          nmeta <= At(view, i, k) < disk.Length
    {
      hide Table, Filled;
    }

    /** The body of itrunc up to the size. */
    method FreeBlocks(i: nat) returns (ok: bool)
      requires Core() && i < inodes.Length
      modifies this`logged, this`used, disk, inodes
      ensures Through()
      ensures ok && Shape() && Marks() && used == old(used) - BlocksOf(owner, i)
      ensures inodes[i].size == old(inodes[i].size) && |inodes[i].addrs| == NDIRECT + 1
      ensures forall k :: 0 <= k <= NDIRECT ==> inodes[i].addrs[k] == 0
      ensures forall j :: 0 <= j < inodes.Length && j != i ==> inodes[j] == old(inodes[j])
      ensures forall c :: nmeta <= c < disk.Length ==> disk[c] == old(disk[c])
      ensures forall b :: b in logged ==> b in old(logged) || InBitmap(b)
    {
      hide Marks, Bits, Owned, TableRow, Filled;
      SlotsInUse(i);
      assert InodeRow(inodes[i], view[i]) && Table(i);
      AllSlots(view, owner, nmeta, disk.Length, i);
      NextSlot(view, owner, nmeta, disk.Length, i, NDIRECT, NDIRECT);
      ok := FreeDirect(i);
      var t := inodes[i].addrs[NDIRECT];
      if t != 0 {
        ok := FreeEntries(i, t);
        ok := Bfree(t);
        inodes[i] := inodes[i].(addrs := inodes[i].addrs[NDIRECT := 0]);
      }
    }

    /** Discards the contents: frees exactly the blocks of inode `i`, without meeting a free one (ok). */
    method Itrunc(i: nat) returns (ok: bool)
      requires Core() && i < inodes.Length
      modifies this`logged, this`used, this`view, this`owner, disk, inodes, dinodes
      ensures Through()
      ensures forall j :: 0 <= j < dinodes.Length && dinodes[j] != old(dinodes[j]) ==> InodeBlock(j) in logged
      ensures ok && Core()
      ensures view == old(view)[i := EmptyRow()] && owner == old(owner) - BlocksOf(old(owner), i)
      ensures used == old(used) - BlocksOf(old(owner), i)
      ensures inodes[i].size == 0 && dinodes[..] == old(dinodes[..])[i := inodes[i]]
      ensures forall j :: 0 <= j < inodes.Length && j != i ==> inodes[j] == old(inodes[j])
      ensures forall c :: nmeta <= c < disk.Length ==> disk[c] == old(disk[c])
      ensures forall b :: b in logged ==> b in old(logged) || InBitmap(b) || b == InodeBlock(i)
    {
      hide Marks, Bits, Owned, TableRow, Filled;
      EmptyOwned(view, owner, nmeta, disk.Length, i);
      ok := FreeBlocks(i);
      inodes[i] := inodes[i].(size := 0);
      Iupdate(i);
      view := view[i := EmptyRow()];
      owner := owner - BlocksOf(owner, i);
      assert used == old(used) - BlocksOf(old(owner), i);
      EmptyInode(inodes[i]);
      forall j: nat | j < inodes.Length
        ensures InodeRow(inodes[j], view[j]) && Filled(inodes[j].size, view[j]) && Table(j)
      {
        assert old(InodeRow(inodes[j], view[j]) && Filled(inodes[j].size, view[j]) && Table(j));
        if j != i && old(At(view, j, NDIRECT)) != 0 {
          InSlot(old(view), old(owner), nmeta, disk.Length, j, NDIRECT);
        }
      }
    }

    // -------------------------------------------------------------- contents

    /** `memmove(bp->data + lo, part, m)` on a block of inode `i`. */
    method Store(i: nat, bn: nat, lo: nat, part: Bytes, addr: nat)
      requires Core() && i < inodes.Length && lo + |part| <= BSIZE && bn < MAXFILE
      requires addr != 0 && addr == At(view, i, DataSlot(bn))
      modifies disk
      ensures Core()
      ensures forall c :: 0 <= c < disk.Length && c != addr ==> disk[c] == old(disk[c])
      ensures forall m: nat, p: nat :: HasByte(m, p) && !(m == i && bn * BSIZE + lo <= p < bn * BSIZE + lo + |part|) ==>
        Byte(m, p) == old(Byte(m, p))
      ensures forall p :: bn * BSIZE + lo <= p < bn * BSIZE + lo + |part| ==>
        HasByte(i, p) && Byte(i, p) == part[p - (bn * BSIZE + lo)]
    {
      hide Marks, Bits, Owned, TableRow, InodeRow, Filled;
      SlotsInUse(i);
      forall m: nat, p: nat | HasByte(m, p)
        ensures At(view, m, DataSlot(p / BSIZE)) == addr <==> m == i && p / BSIZE == bn
      {
        SlotsInUse(m);
      }
      forall m: nat
        ensures At(view, m, NDIRECT) != addr
      {
        SlotsInUse(m);
      }
      label before:
      PutBlock(addr, disk[addr][..lo] + part + disk[addr][lo + |part|..]);
      forall m: nat | m < inodes.Length
        ensures Table(m)
      {
        assert old@before(Table(m));
      }
      forall p | bn * BSIZE + lo <= p < bn * BSIZE + lo + |part|
        ensures HasByte(i, p) && Byte(i, p) == part[p - (bn * BSIZE + lo)]
      {
        InBlockByte(bn, p - bn * BSIZE);
      }
    }

    static lemma InBlockByte(bn: nat, r: nat)
      requires r < BSIZE
      ensures (bn * BSIZE + r) / BSIZE == bn && (bn * BSIZE + r) % BSIZE == r
    {
    }

    /** One step of the writei loop: the part of the source that goes into one block. */
    method WriteBlock(i: nat, off: nat, part: Bytes) returns (ok: bool)
      requires Core() && i < inodes.Length && off / BSIZE < MAXFILE && off % BSIZE + |part| <= BSIZE
      modifies this`logged, this`used, this`view, this`owner, disk, inodes
      ensures Through()
      ensures !ok ==> AllUsed(disk.Length, used)
      ensures ok ==> Core() && HasByte(i, off) && SlotsKept(i)
      ensures ok ==> forall m: nat, p: nat :: old(HasByte(m, p)) && !(m == i && off <= p < off + |part|) ==>
        Byte(m, p) == old(Byte(m, p))
      ensures ok ==> forall p :: off <= p < off + |part| ==> HasByte(i, p) && Byte(i, p) == part[p - off]
      ensures ok ==> (old(HasByte(i, off)) ==> inodes[i] == old(inodes[i]))
      ensures ok ==> forall b :: b in logged ==> b in old(logged) || MayLog(i, At(view, i, DataSlot(off / BSIZE)), b)
    {
      hide Core, Byte;
      var addr;
      ok, addr := Bmap(i, off / BSIZE);
      if !ok {
        return;
      }
      assert off / BSIZE * BSIZE + off % BSIZE == off;
      Store(i, off / BSIZE, off % BSIZE, part, addr);
      LogWrite(addr);
    }

    /** Slots that were filled have kept their blocks; the other inodes and the size are untouched. */
    twostate predicate SlotsKept(i: nat)
      reads this`view, inodes
    {
      && (forall m: nat, k: nat :: old(At(view, m, k)) != 0 ==> At(view, m, k) == old(At(view, m, k)))
      && (forall j :: 0 <= j < inodes.Length && j != i ==> inodes[j] == old(inodes[j]))
      && (i < inodes.Length ==> inodes[i].size == old(inodes[i].size))
    }

    /** The contents of inode `i`. */
    ghost function Contents(i: nat): (f: Bytes)
      reads this`view, disk, inodes
      requires i < inodes.Length
      ensures |f| == inodes[i].size && forall p :: 0 <= p < |f| ==> f[p] == Byte(i, p)
    {
      Prefix(i, inodes[i].size)
    }

    ghost function Prefix(i: nat, n: nat): (f: Bytes)
      reads this`view, disk
      ensures |f| == n && forall p :: 0 <= p < n ==> f[p] == Byte(i, p)
    {
      if n == 0 then [] else Prefix(i, n - 1) + [Byte(i, n - 1)]
    }

    /** Between the blocks of a writei call: everything before `off + tot` is there and written. */
    twostate predicate Written(i: nat, src: Bytes, off: nat, tot: nat)
      requires tot <= |src|
      reads this`view, disk, inodes
    {
      && SlotsKept(i)
      && (forall m: nat, p: nat :: old(HasByte(m, p)) ==> HasByte(m, p))
      && (forall m: nat, p: nat :: old(HasByte(m, p)) && !(m == i && off <= p < off + tot) ==>
           Byte(m, p) == old(Byte(m, p)))
      && (forall p :: off <= p < off + tot ==> HasByte(i, p) && Byte(i, p) == src[p - off])
    }

    /** The blocks that writing `n` bytes at `off` into inode `i` may log. */
    ghost predicate WriteLogs(i: nat, off: nat, n: nat, b: nat)
      reads this`view
    {
      InBitmap(b) || b == InodeBlock(i) || RowLogs(view, i, off, n, b)
    }

    /** The loop of writei. */
    method WriteBlocks(i: nat, src: Bytes, off: nat) returns (ok: bool)
      requires Core() && i < inodes.Length && off + |src| <= MAXFILE * BSIZE
      modifies this`logged, this`used, this`view, this`owner, disk, inodes
      ensures Through()
      ensures !ok ==> AllUsed(disk.Length, used)
      ensures ok ==> Core() && Written(i, src, off, |src|)
      ensures ok ==> forall b :: b in logged ==> b in old(logged) || WriteLogs(i, off, |src|, b)
      ensures ok && (forall p :: off <= p < off + |src| ==> old(HasByte(i, p))) ==> inodes[i] == old(inodes[i])
    {
      hide Core, RowLogs;
      var n := |src|;
      var tot := 0;
      while tot < n
        invariant 0 <= tot <= n
        invariant Core() && Written(i, src, off, tot) && Through()
        invariant forall b :: b in logged ==> b in old(logged) || WriteLogs(i, off, n, b)
        invariant (forall p :: off <= p < off + tot ==> old(HasByte(i, p))) ==> inodes[i] == old(inodes[i])
      {
        var at := off + tot;
        var m := if n - tot < BSIZE - at % BSIZE then n - tot else BSIZE - at % BSIZE;
        ghost var rows, logs := view, logged;
        label before:
        ok := WriteBlock(i, at, src[tot..tot + m]);
        if !ok {
          return false;
        }
        forall p | off <= p < off + tot + m
          ensures HasByte(i, p) && Byte(i, p) == src[p - off]
        {
          if p < at {
            assert old@before(HasByte(i, p)) && old@before(Byte(i, p)) == src[p - off];
          } else {
            assert src[tot..tot + m][p - at] == src[p - off];
          }
        }
        forall b | b in logged && b !in old(logged)
          ensures WriteLogs(i, off, n, b)
        {
          if b !in logs && !InBitmap(b) {
            PartLogs(view, i, off, n, at, b);
          } else if b in logs && RowLogs(rows, i, off, n, b) {
            LogsGrow(rows, view, i, off, n, b);
          }
        }
        tot := tot + m;
      }
      return true;
    }

    lemma BelowSize(i: nat, p: nat)
      requires Core() && i < inodes.Length && p < inodes[i].size
      ensures HasByte(i, p) && p / BSIZE < MAXFILE && inodes[i].size <= MAXFILE * BSIZE
    {
      hide Marks, Bits, Owned, Table, InodeRow;
      assert Filled(inodes[i].size, view[i]);
      assert p / BSIZE * BSIZE <= p;
    }

    /** `ip->size = off` after a write that went beyond the end. */
    method SetSize(i: nat, size: nat)
      requires Core() && i < inodes.Length && inodes[i].size <= size <= MAXFILE * BSIZE
      requires forall p :: inodes[i].size <= p < size ==> HasByte(i, p)
      modifies inodes
      ensures Core() && inodes[..] == old(inodes[..])[i := old(inodes[i]).(size := size)]
    {
      hide Marks, Bits, Owned, Table;
      forall bn: nat | bn < MAXFILE && bn * BSIZE < size
        ensures view[i][DataSlot(bn)] != 0
      {
        assert Filled(inodes[i].size, view[i]);
        InBlockByte(bn, 0);
        assert bn * BSIZE < inodes[i].size || HasByte(i, bn * BSIZE);
      }
      inodes[i] := inodes[i].(size := size);
    }

    lemma SizeBound(i: nat)
      requires Core() && i < inodes.Length
      ensures inodes[i].size <= MAXFILE * BSIZE && inodes != dinodes && inodes.Length == dinodes.Length
    {
    }

    /** writei once its arguments have been accepted. */
    method WriteAccepted(i: nat, src: Bytes, off: nat) returns (ok: bool)
      requires Core() && Synced() && i < inodes.Length
      requires off <= inodes[i].size && off + |src| <= MAXFILE * BSIZE
      modifies this`logged, this`used, this`view, this`owner, disk, inodes, dinodes
      ensures Through()
      ensures forall j :: 0 <= j < dinodes.Length && dinodes[j] != old(dinodes[j]) ==> InodeBlock(j) in logged
      ensures !ok ==> AllUsed(disk.Length, used)
      ensures ok ==> Core() && Synced()
      ensures ok ==> inodes[i].size == if off + |src| > old(inodes[i].size) then off + |src| else old(inodes[i].size)
      ensures ok ==> forall j :: 0 <= j < inodes.Length && j != i ==> inodes[j] == old(inodes[j])
      ensures ok ==> forall p :: off <= p < off + |src| ==> Byte(i, p) == src[p - off]
      ensures ok ==> forall j: nat, p: nat ::
        j < inodes.Length && p < old(inodes[j].size) && !(j == i && off <= p < off + |src|) ==>
          Byte(j, p) == old(Byte(j, p))
      ensures ok ==> forall b :: b in logged ==> b in old(logged) || WriteLogs(i, off, |src|, b)
    {
      hide Core, RowLogs;
      SizeBound(i);
      forall j: nat, p: nat | j < inodes.Length && p < inodes[j].size
        ensures HasByte(j, p)
      {
        BelowSize(j, p);
      }
      ok := WriteBlocks(i, src, off);
      if !ok {
        return;
      }
      if |src| > 0 && off + |src| > inodes[i].size {
        SetSize(i, off + |src|);
        Iupdate(i);
      }
    }

    /** Writes `src` at `off`: -1 and nothing done when that would leave a hole or make the file too large,
        else the contents are spliced and no other file changes. */
    method Writei(i: nat, src: Bytes, off: nat) returns (ok: bool, r: int)
      requires Core() && Synced() && i < inodes.Length && off < UINT && |src| < UINT
      modifies this`logged, this`used, this`view, this`owner, disk, inodes, dinodes
      ensures Through()
      ensures forall j :: 0 <= j < dinodes.Length && dinodes[j] != old(dinodes[j]) ==> InodeBlock(j) in logged
      ensures !ok ==> AllUsed(disk.Length, used)
      ensures r == -1 <==> off > old(inodes[i].size) || off + |src| > MAXFILE * BSIZE
      ensures r == -1 ==> ok && Same() && dinodes[..] == old(dinodes[..])
      ensures ok ==> Core() && Synced()
      ensures ok && r != -1 ==> r == |src| && Contents(i) == Spliced(old(Contents(i)), off, src)
      ensures ok ==> forall j :: 0 <= j < inodes.Length && j != i ==>
        inodes[j] == old(inodes[j]) && Contents(j) == old(Contents(j))
      ensures ok ==> forall b :: b in logged ==> b in old(logged) || WriteLogs(i, off, |src|, b)
    {
      hide Core, Byte, WriteLogs, Spliced, Contents;
      var n := |src|;
      SizeBound(i);
      if off > inodes[i].size || (off + n) % UINT < off {
        return true, -1;
      }
      if (off + n) % UINT > MAXFILE * BSIZE {
        return true, -1;
      }
      ok := WriteAccepted(i, src, off);
      if !ok {
        return false, 0;
      }
      SplicedIs(old(Contents(i)), off, src, Contents(i));
      forall j | 0 <= j < inodes.Length && j != i
        ensures Contents(j) == old(Contents(j))
      {
        assert forall p :: 0 <= p < inodes[j].size ==> Contents(j)[p] == old(Contents(j))[p];
      }
      return true, n;
    }

    /** Reads the bytes that are there; bmap is called but allocates nothing and nothing changes. */
    method Readi(i: nat, off: nat, n: nat) returns (r: int, dst: Bytes)
      requires Core() && i < inodes.Length && off < UINT && n < UINT
      modifies this`logged, this`used, this`view, this`owner, disk, inodes
      ensures Core() && Same()
      ensures r == -1 <==> off > inodes[i].size || off + n >= UINT
      ensures r != -1 ==> r == |dst| == (if off + n > inodes[i].size then inodes[i].size - off else n)
      ensures r != -1 ==> dst == Contents(i)[off..off + r]
    {
      hide Core, Byte, HasByte, Contents;
      dst := [];
      if off > inodes[i].size || (off + n) % UINT < off {
        return -1, dst;
      }
      var count := if off + n > inodes[i].size then inodes[i].size - off else n;
      var tot := 0;
      while tot < count
        invariant 0 <= tot <= count && |dst| == tot
        invariant Core() && Same()
        invariant forall p :: off <= p < off + tot ==> dst[p - off] == Byte(i, p)
      {
        var at := off + tot;
        BelowSize(i, at);
        var m := if count - tot < BSIZE - at % BSIZE then count - tot else BSIZE - at % BSIZE;
        var part := ReadPart(i, at, m);
        dst := dst + part;
        tot := tot + m;
      }
      r := count;
    }

    /** `m` bytes at `at`, within one block below the size: bread(bmap) and memmove. */
    method ReadPart(i: nat, at: nat, m: nat) returns (part: Bytes)
      requires Core() && i < inodes.Length && at / BSIZE < MAXFILE && HasByte(i, at) && at % BSIZE + m <= BSIZE
      modifies this`logged, this`used, this`view, this`owner, disk, inodes
      ensures Core() && Same() && forall j: nat, p: nat :: Byte(j, p) == old(Byte(j, p))
      ensures |part| == m && forall p :: at <= p < at + m ==> part[p - at] == Byte(i, p)
    {
      hide Marks, Bits, Owned, Table, Filled, InodeRow;
      var ok, addr := Bmap(i, at / BSIZE);
      SlotsInUse(i);
      assert forall c :: 0 <= c < disk.Length ==> disk[c] == old(disk[..])[c];
      part := disk[addr][at % BSIZE..at % BSIZE + m];
      forall p | at <= p < at + m
        ensures part[p - at] == Byte(i, p)
      {
        InBlockByte(at / BSIZE, at % BSIZE + (p - at));
      }
    }
  }
}
