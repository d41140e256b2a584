/** The bytes of a disk block read as an array of words and as a bitmap (fs.h, fs.c). */
module FsBlocks {
  const BSIZE: nat := 512
  const BPB: nat := BSIZE * 8
  const NDIRECT: nat := 12
  const NINDIRECT: nat := BSIZE / 4
  const MAXFILE: nat := NDIRECT + NINDIRECT
  const UINT: nat := 0x1_0000_0000

  type byte = x: int | 0 <= x < 256
  type Bytes = seq<byte>

  ghost predicate IsBlock(b: Bytes) {
    |b| == BSIZE
  }

  function Zeroes(): (b: Bytes)
    ensures IsBlock(b) && forall i :: 0 <= i < BSIZE ==> b[i] == 0
  {
    seq(BSIZE, _ => 0)
  }

  // ---------------------------------------------------------------- words

  /** `((uint*)b)[j]`, least significant byte first. */
  function Word(b: Bytes, j: nat): nat
    requires 4 * j + 3 < |b|
  {
    b[4 * j] as int + 0x100 * (b[4 * j + 1] as int) + 0x1_0000 * (b[4 * j + 2] as int) +
      0x100_0000 * (b[4 * j + 3] as int)
  }

  function PutWord(b: Bytes, j: nat, v: nat): (r: Bytes)
    requires 4 * j + 3 < |b| && v < UINT
    ensures |r| == |b|
  {
    b[4 * j := v % 0x100][4 * j + 1 := v / 0x100 % 0x100][4 * j + 2 := v / 0x1_0000 % 0x100]
     [4 * j + 3 := v / 0x100_0000]
  }

  lemma {:induction false} WordPut(b: Bytes, j: nat, v: nat, k: nat)
    requires 4 * j + 3 < |b| && 4 * k + 3 < |b| && v < UINT
    ensures Word(PutWord(b, j, v), k) == if k == j then v else Word(b, k)
  {
    if k == j {
      var r := PutWord(b, j, v);
      assert r[4 * j] == v % 0x100 && r[4 * j + 1] == v / 0x100 % 0x100;
      assert r[4 * j + 2] == v / 0x1_0000 % 0x100 && r[4 * j + 3] == v / 0x100_0000;
      assert v / 0x100 == v / 0x1_0000 * 0x100 + v / 0x100 % 0x100;
      assert v / 0x1_0000 == v / 0x100_0000 * 0x100 + v / 0x1_0000 % 0x100;
    }
  }

  /** The least significant byte comes first. */
  lemma {:induction false} LittleEndian(b: Bytes, j: nat, v: nat)
    requires 4 * j + 3 < |b| && v < UINT
    ensures forall i :: 0 <= i < |b| && i / 4 != j ==> PutWord(b, j, v)[i] == b[i]
    ensures var r := PutWord(b, j, v);
      v == r[4 * j] as int + 256 * (r[4 * j + 1] as int + 256 * (r[4 * j + 2] as int + 256 * (r[4 * j + 3] as int)))
  {
    assert v / 0x100 == v / 0x1_0000 * 0x100 + v / 0x100 % 0x100;
    assert v / 0x1_0000 == v / 0x100_0000 * 0x100 + v / 0x1_0000 % 0x100;
  }

  lemma ZeroWord(j: nat)
    requires j < NINDIRECT
    ensures Word(Zeroes(), j) == 0
  {
  }

  // ---------------------------------------------------------------- bits

  /** `x & (1 << k)`. */
  predicate NumBit(x: nat, k: nat) {
    if k == 0 then x % 2 == 1 else NumBit(x / 2, k - 1)
  }

  /** `x | (1 << k)`. */
  function OrBit(x: nat, k: nat): nat {
    if k == 0 then x / 2 * 2 + 1 else OrBit(x / 2, k - 1) * 2 + x % 2
  }

  /** `x & ~(1 << k)`. */
  function AndNotBit(x: nat, k: nat): nat {
    if k == 0 then x / 2 * 2 else AndNotBit(x / 2, k - 1) * 2 + x % 2
  }

  lemma {:induction false} OneBit(x: nat, k: nat, m: nat)
    ensures NumBit(OrBit(x, k), m) <==> m == k || NumBit(x, m)
    ensures NumBit(AndNotBit(x, k), m) <==> m != k && NumBit(x, m)
  {
    if k > 0 && m > 0 {
      OneBit(x / 2, k - 1, m - 1);
      assert OrBit(x, k) / 2 == OrBit(x / 2, k - 1) && AndNotBit(x, k) / 2 == AndNotBit(x / 2, k - 1);
    } else if m > 0 {
      assert OrBit(x, k) / 2 == x / 2 && AndNotBit(x, k) / 2 == x / 2;
    }
  }

  /** Setting or clearing one of the low `n` bits stays below 2^n. */
  lemma {:induction false} BitStaysBelow(x: nat, k: nat, n: nat)
    requires k < n && x < Power(n)
    ensures OrBit(x, k) < Power(n) && AndNotBit(x, k) < Power(n)
  {
    if k > 0 {
      BitStaysBelow(x / 2, k - 1, n - 1);
    }
  }

  function Power(n: nat): nat {
    if n == 0 then 1 else 2 * Power(n - 1)
  }

  lemma ByteStays(x: byte, k: nat)
    requires k < 8
    ensures OrBit(x, k) < 256 && AndNotBit(x, k) < 256
  {
    assert Power(8) == 256;
    BitStaysBelow(x, k, 8);
  }

  /** Bit `i` of a bitmap block. */
  predicate Bit(b: Bytes, i: nat)
    requires i < 8 * |b|
  {
    NumBit(b[i / 8], i % 8)
  }

  function SetBit(b: Bytes, i: nat): (r: Bytes)
    requires i < 8 * |b|
    ensures |r| == |b|
  {
    ByteStays(b[i / 8], i % 8);
    b[i / 8 := OrBit(b[i / 8], i % 8)]
  }

  function ClearBit(b: Bytes, i: nat): (r: Bytes)
    requires i < 8 * |b|
    ensures |r| == |b|
  {
    ByteStays(b[i / 8], i % 8);
    b[i / 8 := AndNotBit(b[i / 8], i % 8)]
  }

  lemma {:induction false} BitAfter(b: Bytes, i: nat, m: nat)
    requires i < 8 * |b| && m < 8 * |b|
    ensures Bit(SetBit(b, i), m) <==> m == i || Bit(b, m)
    ensures Bit(ClearBit(b, i), m) <==> m != i && Bit(b, m)
  {
    hide NumBit, OrBit, AndNotBit;
    if i / 8 == m / 8 {
      OneBit(b[i / 8], i % 8, m % 8);
      assert m == i <==> m % 8 == i % 8;
    }
  }
}
