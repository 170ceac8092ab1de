/** The free-block bitmap as bits of disk blocks, and what balloc and bfree do to a disk. */
module Bitmap {
  import opened Blocks

  const BPB := BSIZE * 8
  const IPB := 8

  /** The superblock's layout: inode blocks, then the bitmap, then data blocks from nmeta on. */
  datatype Super = Super(size: nat, ninodes: nat, inodestart: nat, bmapstart: nat) {
    function Nmeta(): (n: nat)
      ensures n > bmapstart
    {
      bmapstart + size / BPB + 1
    }
    predicate Ok() { inodestart + ninodes / IPB < bmapstart && Nmeta() <= size < 0x1_0000_0000 }
    /** BBLOCK(b, sb). */
    function Bblock(b: nat): nat { b / BPB + bmapstart }
    /** IBLOCK(i, sb). */
    function Iblock(i: nat): nat { i / IPB + inodestart }
  }

  // ----- bits of a byte -----

  function Bit(x: nat, i: nat): bool {
    if i == 0 then x % 2 == 1 else Bit(x / 2, i - 1)
  }

  /** x | (1 << i). */
  function OrBit(x: nat, i: nat): nat {
    if i == 0 then x / 2 * 2 + 1 else OrBit(x / 2, i - 1) * 2 + x % 2
  }

  /** x & ~(1 << i). */
  function ClearBit(x: nat, i: nat): nat {
    if i == 0 then x / 2 * 2 else ClearBit(x / 2, i - 1) * 2 + x % 2
  }

  lemma {:induction false} BitAfter(x: nat, i: nat, j: nat)
    ensures Bit(OrBit(x, i), j) == (i == j || Bit(x, j))
    ensures Bit(ClearBit(x, i), j) == (i != j && Bit(x, j))
  {
    if i > 0 && j > 0 {
      BitAfter(x / 2, i - 1, j - 1);
    }
  }

  function Pow2(n: nat): nat {
    if n == 0 then 1 else 2 * Pow2(n - 1)
  }

  lemma {:induction false} BitFits(x: nat, i: nat, n: nat)
    requires i < n && x < Pow2(n)
    ensures OrBit(x, i) < Pow2(n) && ClearBit(x, i) < Pow2(n)
  {
    if i > 0 {
      BitFits(x / 2, i - 1, n - 1);
    }
  }

  lemma ByteFits(x: byte, i: nat)
    requires i < 8
    ensures OrBit(x, i) < 256 && ClearBit(x, i) < 256
  {
    assert Pow2(8) == 256 by {
      assert Pow2(4) == 16;
    }
    BitFits(x, i, 8);
  }

  function OrByte(x: byte, i: nat): (r: byte)
    requires i < 8
  {
    ByteFits(x, i);
    OrBit(x, i)
  }

  function ClearByte(x: byte, i: nat): (r: byte)
    requires i < 8
  {
    ByteFits(x, i);
    ClearBit(x, i)
  }

  // ----- the bitmap on disk -----

  predicate IsDisk(sb: Super, d: Disk) {
    sb.Ok() && |d| == sb.size
  }

  /** The bitmap bit of block b. */
  predicate Used(sb: Super, d: Disk, b: nat)
    requires IsDisk(sb, d) && b < sb.size
  {
    Bit(d[sb.Bblock(b)][b % BPB / 8], b % 8)
  }

  function PutByte(d: Disk, b: nat, i: nat, x: byte): (e: Disk)
    requires b < |d| && i < BSIZE
  {
    d[b := d[b][i := x]]
  }

  /** data[bi/8] |= m. */
  function MarkUsed(sb: Super, d: Disk, b: nat): (e: Disk)
    requires IsDisk(sb, d) && b < sb.size
    ensures |e| == |d|
  {
    PutByte(d, sb.Bblock(b), b % BPB / 8, OrByte(d[sb.Bblock(b)][b % BPB / 8], b % 8))
  }

  /** data[bi/8] &= ~m. */
  function MarkFree(sb: Super, d: Disk, b: nat): (e: Disk)
    requires IsDisk(sb, d) && b < sb.size
    ensures |e| == |d|
  {
    PutByte(d, sb.Bblock(b), b % BPB / 8, ClearByte(d[sb.Bblock(b)][b % BPB / 8], b % 8))
  }

  lemma Mod8(k: nat, r: nat)
    ensures (8 * k + r) % 8 == r % 8
  {
  }

  /** A bit's place in the bitmap determines the block. */
  lemma SameBit(b: nat, c: nat)
    requires b / BPB == c / BPB && b % BPB / 8 == c % BPB / 8 && b % 8 == c % 8
    ensures b == c
  {
    var q, x, y := b / BPB, b % BPB, c % BPB;
    Mod8(512 * q, x);
    Mod8(512 * q, y);
    assert b == 8 * (512 * q) + x && c == 8 * (512 * q) + y;
    assert x == x / 8 * 8 + x % 8 && y == y / 8 * 8 + y % 8;
  }

  lemma MarkedBits(sb: Super, d: Disk, b: nat, c: nat)
    requires IsDisk(sb, d) && b < sb.size && c < sb.size
    ensures Used(sb, MarkUsed(sb, d, b), c) == (b == c || Used(sb, d, c))
    ensures Used(sb, MarkFree(sb, d, b), c) == (b != c && Used(sb, d, c))
  {
    if b / BPB == c / BPB && b % BPB / 8 == c % BPB / 8 {
      BitAfter(d[sb.Bblock(b)][b % BPB / 8], b % 8, c % 8);
      if b % 8 == c % 8 {
        SameBit(b, c);
      }
    }
  }

  /** balloc of block b: its bit set and its contents zeroed. */
  function Allocated(sb: Super, d: Disk, b: nat): (e: Disk)
    requires IsDisk(sb, d) && b < sb.size
    ensures |e| == |d|
  {
    MarkUsed(sb, d, b)[b := ZeroBlock()]
  }

  lemma UsedReadsBitmap(sb: Super, d: Disk, e: Disk, c: nat)
    requires IsDisk(sb, d) && IsDisk(sb, e) && c < sb.size && e[sb.Bblock(c)] == d[sb.Bblock(c)]
    ensures Used(sb, e, c) == Used(sb, d, c)
  {
  }

  lemma UsedFrame(sb: Super, d: Disk, e: Disk)
    requires IsDisk(sb, d) && IsDisk(sb, e) && forall b | sb.bmapstart <= b < sb.Nmeta() :: e[b] == d[b]
    ensures forall c | 0 <= c < sb.size :: Used(sb, e, c) == Used(sb, d, c)
  {
    forall c | 0 <= c < sb.size ensures Used(sb, e, c) == Used(sb, d, c) {
      assert sb.bmapstart <= sb.Bblock(c) < sb.Nmeta();
      UsedReadsBitmap(sb, d, e, c);
    }
  }

  /** Only bitmap blocks differ. */
  predicate SameButBitmap(sb: Super, d: Disk, e: Disk) {
    |e| == |d| && forall c | 0 <= c < |d| && !(sb.bmapstart <= c < sb.Nmeta()) :: e[c] == d[c]
  }

  lemma AllocatedBits(sb: Super, d: Disk, b: nat)
    requires IsDisk(sb, d) && sb.Nmeta() <= b < sb.size
    ensures forall c | 0 <= c < sb.size :: Used(sb, Allocated(sb, d, b), c) == (b == c || Used(sb, d, c))
    ensures SameButBitmap(sb, d[b := ZeroBlock()], Allocated(sb, d, b))
  {
    assert forall c | 0 <= c < sb.size :: sb.Bblock(c) < sb.Nmeta();
    forall c | 0 <= c < sb.size ensures Used(sb, Allocated(sb, d, b), c) == (b == c || Used(sb, d, c)) {
      MarkedBits(sb, d, b, c);
      UsedReadsBitmap(sb, MarkUsed(sb, d, b), Allocated(sb, d, b), c);
    }
  }

  lemma FreedBits(sb: Super, d: Disk, b: nat)
    requires IsDisk(sb, d) && b < sb.size
    ensures forall c | 0 <= c < sb.size :: Used(sb, MarkFree(sb, d, b), c) == (b != c && Used(sb, d, c))
    ensures SameButBitmap(sb, d, MarkFree(sb, d, b))
  {
    var e := MarkFree(sb, d, b);
    forall c | 0 <= c < sb.size ensures Used(sb, e, c) == (b != c && Used(sb, d, c)) {
      MarkedBits(sb, d, b, c);
    }
    assert sb.bmapstart <= sb.Bblock(b) < sb.Nmeta();
  }
}
