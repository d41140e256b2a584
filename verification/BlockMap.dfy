/** Which slot of which inode a disk block belongs to. A row lists an inode's direct blocks, its indirect
    block and the entries of that block. */
module BlockMap {
  import opened FsBlocks

  const SLOTS: nat := NDIRECT + 1 + NINDIRECT
  type Row = seq<nat>
  type Map = seq<Row>
  type Owners = map<nat, (nat, nat)>

  /** The slot of file block `bn`. */
  function DataSlot(bn: nat): nat {
    if bn < NDIRECT then bn else bn + 1
  }

  /** The file blocks are exactly the slots but for the indirect block: the largest file uses all of them. */
  lemma {:induction false} FileBlocksAreSlots(k: nat)
    ensures (exists bn: nat :: bn < MAXFILE && DataSlot(bn) == k) <==> k < SLOTS && k != NDIRECT
    ensures forall bn: nat, m: nat :: DataSlot(bn) == DataSlot(m) ==> bn == m
  {
    if k < SLOTS && k != NDIRECT {
      var bn := if k < NDIRECT then k else k - 1;
      assert DataSlot(bn) == k;
    }
  }

  function At(view: Map, i: nat, k: nat): nat {
    if i < |view| && k < |view[i]| then view[i][k] else 0
  }

  ghost predicate Shaped(view: Map) {
    forall i :: 0 <= i < |view| ==> |view[i]| == SLOTS
  }

  /** Slots and owners are two views of one relation: a block is in one slot only. Slot values are data
      blocks of the disk, and without an indirect block there are no entries. */
  ghost predicate Owned(view: Map, owner: Owners, nmeta: nat, size: nat) {
    && 0 < nmeta <= size && Shaped(view)
    && (forall i: nat, k: nat :: At(view, i, k) != 0 ==> At(view, i, k) in owner && owner[At(view, i, k)] == (i, k))
    && (forall b :: b in owner ==> nmeta <= b < size && At(view, owner[b].0, owner[b].1) == b)
    && (forall i: nat, k: nat :: At(view, i, k) != 0 && k > NDIRECT ==> At(view, i, NDIRECT) != 0)
  }

  /** Each data block belongs to at most one slot of one inode or indirect block. */
  lemma {:induction false} OneOwner(view: Map, owner: Owners, nmeta: nat, size: nat, i: nat, k: nat, i': nat, k': nat)
    requires Owned(view, owner, nmeta, size) && At(view, i, k) != 0 && At(view, i, k) == At(view, i', k')
    ensures i == i' && k == k'
  {
  }

  lemma InSlot(view: Map, owner: Owners, nmeta: nat, size: nat, i: nat, k: nat)
    requires Owned(view, owner, nmeta, size) && At(view, i, k) != 0
    ensures At(view, i, k) in owner && nmeta <= At(view, i, k) < size
  {
  }

  lemma IndirectOwner(view: Map, owner: Owners, nmeta: nat, size: nat, i: nat)
    requires Owned(view, owner, nmeta, size) && At(view, i, NDIRECT) != 0
    ensures At(view, i, NDIRECT) in owner && owner[At(view, i, NDIRECT)] == (i, NDIRECT)
  {
  }

  lemma NoEntries(view: Map, owner: Owners, nmeta: nat, size: nat, i: nat)
    requires Owned(view, owner, nmeta, size) && i < |view| && At(view, i, NDIRECT) == 0
    ensures |view[i]| == SLOTS && forall k :: NDIRECT < k < SLOTS ==> view[i][k] == 0
  {
    forall k | NDIRECT < k < SLOTS
      ensures view[i][k] == 0
    {
      assert At(view, i, k) == view[i][k];
    }
  }

  function Assign(view: Map, i: nat, k: nat, a: nat): (r: Map)
    requires i < |view| && k < |view[i]|
  {
    var row: Row := view[i][k := a];
    view[i := row]
  }

  lemma AtAssign(view: Map, i: nat, k: nat, a: nat, i': nat, k': nat)
    requires i < |view| && k < |view[i]|
    ensures At(Assign(view, i, k, a), i', k') == if i' == i && k' == k then a else At(view, i', k')
  {
  }

  lemma AtAssigned(view: Map, i: nat, k: nat, a: nat)
    requires i < |view| && k < |view[i]|
    ensures forall i': nat, k': nat ::
      At(Assign(view, i, k, a), i', k') == if i' == i && k' == k then a else At(view, i', k')
  {
  }

  /** A free block put into an empty slot. */
  lemma {:induction false} AssignOwned(view: Map, owner: Owners, nmeta: nat, size: nat, i: nat, k: nat, a: nat)
    requires Owned(view, owner, nmeta, size) && i < |view| && k < SLOTS && At(view, i, k) == 0
    requires a !in owner && nmeta <= a < size && (k > NDIRECT ==> At(view, i, NDIRECT) != 0)
    ensures Owned(Assign(view, i, k, a), owner[a := (i, k)], nmeta, size)
  {
    hide At, Assign;
    var view', owner' := Assign(view, i, k, a), owner[a := (i, k)];
    forall i': nat, k': nat
      ensures At(view', i', k') == if i' == i && k' == k then a else At(view, i', k')
    {
      AtAssign(view, i, k, a, i', k');
    }
    assert Shaped(view') by { AssignShaped(view, i, k, a); }
  }

  lemma AssignShaped(view: Map, i: nat, k: nat, a: nat)
    requires Shaped(view) && i < |view| && k < |view[i]|
    ensures Shaped(Assign(view, i, k, a))
  {
  }

  function EmptyRow(): (r: Row)
    ensures |r| == SLOTS && forall k :: 0 <= k < SLOTS ==> r[k] == 0
  {
    seq(SLOTS, _ => 0)
  }

  ghost function BlocksOf(owner: Owners, i: nat): set<nat> {
    set b | b in owner && owner[b].0 == i
  }

  /** The blocks in the slots from `lo` up to `hi`. */
  ghost function SlotsOf(owner: Owners, i: nat, lo: nat, hi: nat): set<nat> {
    set b | b in owner && owner[b].0 == i && lo <= owner[b].1 < hi
  }

  lemma {:induction false} NextSlot(view: Map, owner: Owners, nmeta: nat, size: nat, i: nat, lo: nat, k: nat)
    requires Owned(view, owner, nmeta, size) && lo <= k
    ensures var a := At(view, i, k);
      SlotsOf(owner, i, lo, k + 1) == SlotsOf(owner, i, lo, k) + (if a == 0 then {} else {a})
    ensures At(view, i, k) != 0 ==> nmeta <= At(view, i, k) < size && At(view, i, k) in owner
                                    && owner[At(view, i, k)] == (i, k)
  {
  }

  lemma {:induction false} AllSlots(view: Map, owner: Owners, nmeta: nat, size: nat, i: nat)
    requires Owned(view, owner, nmeta, size)
    ensures BlocksOf(owner, i) ==
      SlotsOf(owner, i, 0, NDIRECT) + SlotsOf(owner, i, NDIRECT, NDIRECT + 1) + SlotsOf(owner, i, NDIRECT + 1, SLOTS)
    ensures At(view, i, NDIRECT) == 0 ==> BlocksOf(owner, i) == SlotsOf(owner, i, 0, NDIRECT)
  {
    forall b | b in BlocksOf(owner, i)
      ensures owner[b].1 < SLOTS
      ensures At(view, i, NDIRECT) == 0 ==> owner[b].1 < NDIRECT
    {
      assert At(view, i, owner[b].1) == b;
    }
  }

  /** The blocks of an inode are the non-zero slots of its row. */
  lemma {:induction false} BlocksAreSlots(view: Map, owner: Owners, nmeta: nat, size: nat, i: nat, b: nat)
    requires Owned(view, owner, nmeta, size)
    ensures b in BlocksOf(owner, i) <==> b != 0 && exists k: nat :: At(view, i, k) == b
  {
    if b in BlocksOf(owner, i) {
      assert At(view, i, owner[b].1) == b;
    }
  }

  /** Emptying a row takes exactly that inode's blocks out of the map. */
  lemma {:induction false} EmptyOwned(view: Map, owner: Owners, nmeta: nat, size: nat, i: nat)
    requires Owned(view, owner, nmeta, size) && i < |view|
    ensures Owned(view[i := EmptyRow()], owner - BlocksOf(owner, i), nmeta, size)
    ensures forall b :: b in BlocksOf(owner, i) ==> nmeta <= b < size
  {
    var view' := view[i := EmptyRow()];
    forall i': nat, k: nat
      ensures At(view', i', k) == if i' == i then 0 else At(view, i', k)
    {
    }
    hide At;
  }

  // ---------------------------------------------------------------- blocks touched by a write

  /** Block `b` holds file block `bn`, which overlaps the `n` bytes at `off`. */
  ghost predicate DataLog(view: Map, i: nat, off: nat, n: nat, b: nat, bn: nat) {
    off / BSIZE <= bn && bn * BSIZE < off + n && At(view, i, DataSlot(bn)) != 0 && b == At(view, i, DataSlot(bn))
  }

  /** The indirect block of inode `i`, or one of its blocks with some of the bytes. */
  ghost predicate RowLogs(view: Map, i: nat, off: nat, n: nat, b: nat) {
    || (At(view, i, NDIRECT) != 0 && b == At(view, i, NDIRECT))
    || exists bn: nat :: DataLog(view, i, off, n, b, bn)
  }

  lemma {:induction false} LogsGrow(view: Map, view': Map, i: nat, off: nat, n: nat, b: nat)
    requires forall k: nat :: At(view, i, k) != 0 ==> At(view', i, k) == At(view, i, k)
    requires RowLogs(view, i, off, n, b)
    ensures RowLogs(view', i, off, n, b)
  {
    if b != At(view, i, NDIRECT) || b == 0 {
      var bn: nat :| DataLog(view, i, off, n, b, bn);
      assert DataLog(view', i, off, n, b, bn);
    }
  }

  lemma {:induction false} PartLogs(view: Map, i: nat, off: nat, n: nat, at: nat, b: nat)
    requires off <= at < off + n && At(view, i, DataSlot(at / BSIZE)) != 0
    requires b == At(view, i, DataSlot(at / BSIZE)) || (At(view, i, NDIRECT) != 0 && b == At(view, i, NDIRECT))
    ensures RowLogs(view, i, off, n, b)
  {
    assert off / BSIZE <= at / BSIZE && at / BSIZE * BSIZE <= at;
    if b == At(view, i, DataSlot(at / BSIZE)) {
      assert DataLog(view, i, off, n, b, at / BSIZE);
    }
  }
}
