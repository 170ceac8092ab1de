/** On-disk inodes: sixteen words each, IPB to a block. */
module Dinodes {
  import opened Blocks
  import opened Bitmap
  import opened Ownership

  const DWORDS := 16

  /** struct dinode as words: type and major, minor and nlink, size, addrs. */
  function Packed(n: Inode): (w: seq<word>)
    ensures |w| == DWORDS
  {
    [n.typ + 0x1_0000 * n.major, n.minor + 0x1_0000 * n.nlink, n.size] + n.addrs
  }

  function Unpacked(w: seq<word>): (n: Inode)
    requires |w| == DWORDS
  {
    var size: word, addrs := w[2], seq<word>(NDIRECT + 1, k requires 0 <= k < NDIRECT + 1 => w[3 + k]);
    RawInode(w[0] % 0x1_0000, w[0] / 0x1_0000, w[1] % 0x1_0000, w[1] / 0x1_0000, size, addrs)
  }

  /** Words at..at + |w| of a block replaced. */
  function PutWords(b: Block, at: nat, w: seq<word>): (r: Block)
    requires at + |w| <= NWORDS
    ensures forall j | 0 <= j < NWORDS :: Word(r, j) == if at <= j < at + |w| then w[j - at] else Word(b, j)
    decreases |w|
  {
    if w == [] then b else PutWords(SetWord(b, at, w[0]), at + 1, w[1..])
  }

  function Words(b: Block, at: nat, n: nat): (w: seq<word>)
    requires at + n <= NWORDS
    ensures |w| == n
    ensures forall k | 0 <= k < n :: w[k] == Word(b, at + k)
  {
    seq<word>(n, k requires 0 <= k < n => Word(b, at + k))
  }

  /** ilock's reading of inode i from disk. */
  function Dinode(sb: Super, d: Disk, i: nat): Inode
    requires IsDisk(sb, d) && i < sb.ninodes
  {
    Unpacked(Words(d[sb.Iblock(i)], i % IPB * DWORDS, DWORDS))
  }

  /** The inodes of a disk. */
  function AllDinodes(sb: Super, d: Disk): (ns: Inodes)
    requires IsDisk(sb, d)
    ensures forall i :: i in ns <==> 0 <= i < sb.ninodes
    ensures forall i | i in ns :: ns[i] == Dinode(sb, d, i)
  {
    map i: nat | i < sb.ninodes :: Dinode(sb, d, i)
  }

  /** The disk holds a file system: with the inodes it says it has, every block named has
      one owner and the bitmap agrees. */
  ghost predicate FsOk(sb: Super, d: Disk) {
    IsDisk(sb, d) && exists owner :: Own(sb, d, AllDinodes(sb, d), owner)
  }

  /** iupdate's writing of inode i to disk. */
  function WithDinode(sb: Super, d: Disk, i: nat, n: Inode): (e: Disk)
    requires IsDisk(sb, d) && i < sb.ninodes
    ensures |e| == |d|
  {
    d[sb.Iblock(i) := PutWords(d[sb.Iblock(i)], i % IPB * DWORDS, Packed(n))]
  }

  lemma PackedBack(n: Inode)
    ensures Unpacked(Packed(n)) == n
  {
    assert Unpacked(Packed(n)).addrs == n.addrs;
  }

  /** An inode block is below the bitmap, and two inodes of one block do not overlap. */
  lemma InodePlace(sb: Super, i: nat, j: nat)
    requires sb.Ok() && i < sb.ninodes && j < sb.ninodes
    ensures sb.Iblock(i) < sb.bmapstart
    ensures i != j && sb.Iblock(i) == sb.Iblock(j) ==> i % IPB != j % IPB
  {
  }

  lemma WordsAfterPut(b: Block, p: nat, q: nat, w: seq<word>)
    requires p < IPB && q < IPB && |w| == DWORDS
    ensures Words(PutWords(b, p * DWORDS, w), q * DWORDS, DWORDS) == if p == q then w else Words(b, q * DWORDS, DWORDS)
  {
    var r := Words(PutWords(b, p * DWORDS, w), q * DWORDS, DWORDS);
    forall k | 0 <= k < DWORDS
      ensures r[k] == if p == q then w[k] else Words(b, q * DWORDS, DWORDS)[k]
    {
      assert p < q || q < p ==> !(p * DWORDS <= q * DWORDS + k < p * DWORDS + DWORDS);
    }
  }

  /** The inode written is the inode read back, and no other inode on disk changes. */
  lemma DinodeWritten(sb: Super, d: Disk, i: nat, n: Inode, j: nat)
    requires IsDisk(sb, d) && i < sb.ninodes && j < sb.ninodes
    ensures Dinode(sb, WithDinode(sb, d, i, n), j) == if j == i then n else Dinode(sb, d, j)
  {
    InodePlace(sb, i, j);
    PackedBack(n);
    if sb.Iblock(i) == sb.Iblock(j) {
      WordsAfterPut(d[sb.Iblock(i)], i % IPB, j % IPB, Packed(n));
    }
  }

  /** Disks that agree on the inode blocks hold the same inodes. */
  lemma DinodeFrame(sb: Super, d: Disk, e: Disk, i: nat)
    requires IsDisk(sb, d) && IsDisk(sb, e) && i < sb.ninodes && forall b | 0 <= b < sb.bmapstart :: e[b] == d[b]
    ensures Dinode(sb, e, i) == Dinode(sb, d, i)
  {
  }

  /** The same for all inodes. */
  lemma DinodesFrame(sb: Super, d: Disk, e: Disk)
    requires IsDisk(sb, d) && IsDisk(sb, e) && forall b | 0 <= b < sb.bmapstart :: e[b] == d[b]
    ensures forall i | 0 <= i < sb.ninodes :: Dinode(sb, e, i) == Dinode(sb, d, i)
  {
    hide Dinode;
    forall i | 0 <= i < sb.ninodes ensures Dinode(sb, e, i) == Dinode(sb, d, i) {
      DinodeFrame(sb, d, e, i);
    }
  }
}
