/** An image in the making: data blocks are handed out by counting up and the bitmap is
    set once, at the end. Seen through the bitmap that will be written, every step is an
    allocation. */
module Drafts {
  import opened Blocks
  import opened Bitmap
  import opened Ownership
  import opened Dinodes
  import opened FileData
  import opened BlockCounts
  import opened FileSteps

  const NINODES := 200

  /** mkfs's layout for an image of size blocks with nlog log blocks. */
  function Layout(size: nat, nlog: nat): Super {
    Super(size, NINODES, 2 + nlog, 2 + nlog + NINODES / IPB + 1)
  }

  /** The words of a struct superblock, in its order. */
  function SuperWords(sb: Super): (w: seq<word>)
    requires sb.Ok() && sb.inodestart >= 2 && sb.ninodes < 0x1_0000_0000
    ensures |w| == 7
  {
    [sb.size, sb.size - sb.Nmeta(), sb.ninodes, sb.inodestart - 2, 2, sb.inodestart, sb.bmapstart]
  }

  /** The blocks in front of the inodes: the boot block and the log are zero, between them is the superblock. */
  predicate Front(sb: Super, d: Disk)
    requires IsDisk(sb, d)
  {
    && sb.inodestart >= 2 && sb.ninodes < 0x1_0000_0000 && d[1] == PutWords(ZeroBlock(), 0, SuperWords(sb))
    && forall b | 0 <= b < sb.inodestart && b != 1 :: d[b] == ZeroBlock()
  }

  /** readsb: the fields of the superblock that the file layer uses. */
  function ReadSuper(b: Block): Super {
    Super(Word(b, 0), Word(b, 2), Word(b, 5), Word(b, 6))
  }

  lemma SuperIsRead(sb: Super, d: Disk)
    requires IsDisk(sb, d) && Front(sb, d)
    ensures ReadSuper(d[1]) == sb
  {
  }

  /** An image of zeros with the superblock in it. */
  lemma FrontAtStart(sb: Super, d: Disk)
    requires sb.Ok() && sb.inodestart >= 2 && sb.ninodes < 0x1_0000_0000 && |d| == sb.size
    requires d == seq(sb.size, i => ZeroBlock())[1 := PutWords(ZeroBlock(), 0, SuperWords(sb))]
    ensures IsDisk(sb, d) && Front(sb, d) && Blank(d, 2)
  {
  }

  /** Writing elsewhere leaves them. */
  lemma FrontStays(sb: Super, d: Disk, e: Disk)
    requires IsDisk(sb, d) && Front(sb, d) && |e| == |d| && forall b | 0 <= b < sb.inodestart :: e[b] == d[b]
    ensures Front(sb, e)
  {
  }

  /** balloc(n): a bitmap block with its first n bits set. */
  function FirstBits(n: nat): Block
    requires n <= BPB
  {
    if n == 0 then ZeroBlock() else FirstBits(n - 1)[(n - 1) / 8 := OrByte(FirstBits(n - 1)[(n - 1) / 8], (n - 1) % 8)]
  }

  lemma NoBits(i: nat)
    ensures !Bit(0, i)
  {
  }

  lemma {:induction false} FirstBitsMean(n: nat, b: nat)
    requires n <= BPB && b < BPB
    ensures Bit(FirstBits(n)[b / 8], b % 8) <==> b < n
  {
    if n == 0 {
      NoBits(b % 8);
    } else {
      FirstBitsMean(n - 1, b);
      BitAfter(FirstBits(n - 1)[(n - 1) / 8], (n - 1) % 8, b % 8);
    }
  }

  /** The image as it will be once the first n bits of the bitmap are set. */
  function Marked(sb: Super, d: Disk, n: nat): (e: Disk)
    requires IsDisk(sb, d) && n <= BPB
    ensures |e| == |d|
  {
    d[sb.bmapstart := FirstBits(n)]
  }

  /** The bitmap is not where the inodes are. */
  lemma MarkedDinodes(sb: Super, d: Disk, n: nat)
    requires IsDisk(sb, d) && n <= BPB
    ensures forall j | 0 <= j < sb.ninodes :: Dinode(sb, Marked(sb, d, n), j) == Dinode(sb, d, j)
  {
    forall j | 0 <= j < sb.ninodes ensures Dinode(sb, Marked(sb, d, n), j) == Dinode(sb, d, j) {
      DinodeFrame(sb, d, Marked(sb, d, n), j);
    }
  }

  predicate Blank(d: Disk, from: nat) {
    forall b | from <= b < |d| :: d[b] == ZeroBlock()
  }

  /** Counting freeblock up is balloc on the marked image. */
  lemma CountUp(sb: Super, d: Disk, n: nat)
    requires IsDisk(sb, d) && sb.Nmeta() <= n < BPB && n < sb.size && Blank(d, n)
    ensures !Used(sb, Marked(sb, d, n), n) && Allocated(sb, Marked(sb, d, n), n) == Marked(sb, d, n + 1)
  {
    FirstBitsMean(n, n);
    FirstPlace(sb, n);
    var e := Marked(sb, d, n);
    assert MarkUsed(sb, e, n) == Marked(sb, d, n + 1);
    assert d[n := ZeroBlock()] == d;
  }

  /** The bits below BPB are in the first bitmap block. */
  lemma FirstPlace(sb: Super, b: nat)
    requires b < BPB
    ensures sb.Bblock(b) == sb.bmapstart && b % BPB == b
  {
  }

  /** In an image with no files and the metadata marked, nothing is owned. */
  lemma EmptyOwn(sb: Super, d: Disk, ns: Inodes)
    requires IsDisk(sb, d) && sb.Nmeta() <= BPB && Blank(d, sb.bmapstart)
    requires forall i | i in ns :: ns[i] == NoInode()
    ensures Own(sb, Marked(sb, d, sb.Nmeta()), ns, map[])
  {
    var e := Marked(sb, d, sb.Nmeta());
    forall b | 0 <= b < sb.size ensures Used(sb, e, b) <==> b < sb.Nmeta() {
      if b < BPB {
        FirstBitsMean(sb.Nmeta(), b);
        FirstPlace(sb, b);
      } else {
        assert sb.bmapstart < sb.Bblock(b) < sb.size;
        NoBits(b % 8);
      }
    }
  }

  function NoInode(): Inode {
    RawInode(0, 0, 0, 0, 0, seq(NDIRECT + 1, k => 0))
  }

  function NoInodes(n: nat): (ns: Inodes)
    ensures forall i :: i in ns <==> 0 <= i < n
    ensures forall i | i in ns :: ns[i] == NoInode()
  {
    if n == 0 then map[] else NoInodes(n - 1)[n - 1 := NoInode()]
  }

  function NewInode(typ: short): Inode {
    NoInode().(typ := typ, nlink := 1)
  }

  lemma NothingMapped(d: Disk, ns: Inodes, ino: nat)
    requires IndirectsOk(d, ns) && ino in ns && ns[ino] == NoInode()
    ensures Mapped(d, ns, ino)
  {
  }

  /** main's rounding of the root directory's size. */
  function Rounded(size: nat): nat {
    (size / BSIZE + 1) * BSIZE
  }

  /** The rounded root is mapped exactly when its size was not a multiple of BSIZE already. */
  lemma RoundedMapped(d: Disk, ns: Inodes, ino: nat, size: nat)
    requires IndirectsOk(d, ns) && ino in ns && MappedTo(d, ns, ino, size) && ns[ino].size == Rounded(size)
    ensures Mapped(d, ns, ino) <==> size % BSIZE != 0
  {
    if size % BSIZE == 0 && size < MAXFILE * BSIZE {
      assert BlockAddr(d, ns, ino, size / BSIZE) == 0;
    }
  }

  lemma ZeroDinode(sb: Super, d: Disk, i: nat)
    requires IsDisk(sb, d) && i < sb.ninodes && d[sb.Iblock(i)] == ZeroBlock()
    ensures Dinode(sb, d, i) == NoInode()
  {
    var w := Words(d[sb.Iblock(i)], i % IPB * DWORDS, DWORDS);
    forall k | 0 <= k < DWORDS ensures w[k] == 0 {
      ZeroWord(i % IPB * DWORDS + k);
    }
  }

  /** The builder's state: the image, freeblock, and the inodes with the owners of their blocks. */
  datatype Draft = Draft(disk: Disk, freeblock: nat, inodes: Inodes, owner: Owners)

  ghost predicate DraftOk(sb: Super, g: Draft) {
    match g case Draft(d, n, ns, o) =>
      && IsDisk(sb, d) && sb.Nmeta() <= n <= Min(sb.size, BPB) && Blank(d, n)
      && Own(sb, Marked(sb, d, n), ns, o) && (forall a | a in o :: a < n) && Front(sb, d)
  }

  /** The draft as the kernel would see it once the bitmap is written. */
  ghost function Seen(sb: Super, g: Draft): View
    requires IsDisk(sb, g.disk) && g.freeblock <= BPB
  {
    View(Marked(sb, g.disk, g.freeblock), g.inodes, g.owner)
  }

  /** The blocks there are to hand out: those of the image, as far as one bitmap block goes. */
  function Limit(sb: Super): nat {
    Min(sb.size, BPB)
  }

  predicate Full(sb: Super, n: nat) {
    n >= Limit(sb)
  }

  // ----- what lies behind the end of a file in its last block -----

  function BlockEnd(n: nat): nat {
    (n + BSIZE - 1) / BSIZE * BSIZE
  }

  /** The rest of the last block of the first lim bytes is zero. */
  ghost predicate TailZero(d: Disk, ns: Inodes, ino: nat, lim: nat)
    requires IndirectsOk(d, ns) && ino in ns
  {
    forall i | lim <= i < BlockEnd(lim) && i < MAXFILE * BSIZE :: ByteAt(d, ns, ino, i) == 0
  }

  lemma TailPlace(off: nat, n: nat, next: nat, i: nat)
    requires 0 < n <= BSIZE - off % BSIZE && next == off + n && next <= i < BlockEnd(next)
    ensures i / BSIZE == off / BSIZE && i % BSIZE >= off % BSIZE + n
    ensures off % BSIZE != 0 ==> off <= i < BlockEnd(off)
  {
    var q, r := off / BSIZE, off % BSIZE;
    Ceiling(q, r + n);
    if r != 0 {
      Ceiling(q, r);
    }
  }

  /** One pass of an append leaves the rest of the block zero. */
  lemma TailStep(
      sb: Super, v0: View, v: View, ino: nat, off0: nat, off: nat, src: seq<byte>, w: View, a: nat, m: nat, next: nat,
      x: View)
    requires IndirectsOk(v0.disk, v0.inodes) && ino in v0.inodes && off0 <= off < next == off + m <= off0 + |src|
    requires Writing(sb, v0, v, ino, off0, off, src) && off0 <= v0.inodes[ino].size
    requires m <= BSIZE - off % BSIZE && next <= MAXFILE * BSIZE && AfterMap(sb, v, w, ino, off / BSIZE, a)
    requires IndirectsOk(v.disk, v.inodes) && ino in v.inodes && MappedTo(v.disk, v.inodes, ino, off)
    requires TailZero(v.disk, v.inodes, ino, off)
    requires a < |w.disk| && x == w.(disk := WithBytes(w.disk, a, off, off0, m, src))
    ensures IndirectsOk(x.disk, x.inodes) && ino in x.inodes && TailZero(x.disk, x.inodes, ino, next)
  {
    var bn := off / BSIZE;
    MapStep(sb, v0, v, ino, off0, off, src, w, a, m);
    DataWritten(sb, w.disk, w.inodes, w.owner, ino, bn, x.disk, Max(v0.inodes[ino].size, off + m));
    BlocksMissing(v.disk, v.inodes, ino, off, bn);
    forall i | next <= i < BlockEnd(next) && i < MAXFILE * BSIZE ensures ByteAt(x.disk, x.inodes, ino, i) == 0 {
      TailPlace(off, m, next, i);
      assert x.disk[a][i % BSIZE] == w.disk[a][i % BSIZE];
      if off % BSIZE != 0 {
        assert ByteAt(v.disk, v.inodes, ino, i) == 0;
      }
    }
  }

  /** A file mapped exactly keeps its tail when only its header changes. */
  lemma HeaderTail(
      sb: Super, d: Disk, ns: Inodes, owner: Owners, ino: nat, n: Inode, e: Disk, lim: nat)
    requires Own(sb, d, ns, owner) && ino in ns && n.addrs == ns[ino].addrs && MappedTo(d, ns, ino, lim) && |e| == |d|
    requires (forall b | sb.bmapstart <= b < sb.size :: e[b] == d[b]) && IndirectsOk(e, ns[ino := n])
    requires TailZero(d, ns, ino, lim)
    ensures TailZero(e, ns[ino := n], ino, lim)
  {
    HeaderSet(sb, d, ns, owner, ino, n, e, lim);
    var ms := ns[ino := n];
    forall i | lim <= i < BlockEnd(lim) && i < MAXFILE * BSIZE ensures ByteAt(e, ms, ino, i) == 0 {
      TailBlock(lim, i);
      assert SlotOk(ns, BlockSlot(ino, i / BSIZE)) && BlockAddr(d, ns, ino, i / BSIZE) != 0;
      SlotIsOwned(sb, d, ns, owner, BlockSlot(ino, i / BSIZE));
      SameAddress(sb, d, ns, owner, ino, n, e, i / BSIZE);
      assert ByteAt(d, ns, ino, i) == 0;
    }
  }

  lemma SameAddress(sb: Super, d: Disk, ns: Inodes, owner: Owners, ino: nat, n: Inode, e: Disk, bn: nat)
    requires Own(sb, d, ns, owner) && ino in ns && n.addrs == ns[ino].addrs && |e| == |d| && bn < MAXFILE
    requires (forall b | sb.bmapstart <= b < sb.size :: e[b] == d[b]) && IndirectsOk(e, ns[ino := n])
    ensures BlockAddr(e, ns[ino := n], ino, bn) == BlockAddr(d, ns, ino, bn)
  {
    OwnFrame(sb, d, ns, owner, e);
    assert SlotOk(ns, BlockSlot(ino, bn)) && Addr(e, ns, BlockSlot(ino, bn)) == Addr(d, ns, BlockSlot(ino, bn));
  }

  lemma TailBlock(lim: nat, i: nat)
    requires lim <= i < BlockEnd(lim)
    ensures i / BSIZE * BSIZE < lim
  {
    var q, r := lim / BSIZE, lim % BSIZE;
    assert lim == BSIZE * q + r;
    if r == 0 {
      WholeBlocks(q);
    } else {
      Ceiling(q, r);
    }
  }

  /** An untouched file keeps its tail. */
  lemma OtherTailSame(d: Disk, ns: Inodes, e: Disk, ms: Inodes, ino: nat, other: nat)
    requires IndirectsOk(d, ns) && IndirectsOk(e, ms) && OthersSame(d, ns, e, ms, ino)
    requires other in ns && other != ino && Mapped(d, ns, other) && TailZero(d, ns, other, ns[other].size)
    ensures TailZero(e, ms, other, ns[other].size)
  {
    forall i | ns[other].size <= i < BlockEnd(ns[other].size) && i < MAXFILE * BSIZE
      ensures ByteAt(e, ms, other, i) == 0
    {
      TailBlock(ns[other].size, i);
      assert SlotOk(ns, BlockSlot(other, i / BSIZE)) && BlockAddr(d, ns, other, i / BSIZE) != 0;
      assert ByteAt(d, ns, other, i) == 0;
    }
  }

  ghost function WithDirect(g: Draft, ino: nat, bn: nat): Draft
    requires ino in g.inodes && bn < NDIRECT && g.freeblock < 0x1_0000_0000
  {
    Draft(g.disk, g.freeblock + 1, g.inodes[ino := SetAddr(g.inodes[ino], bn, g.freeblock)],
      g.owner[g.freeblock := Direct(ino, bn)])
  }

  ghost function WithIndirect(g: Draft, ino: nat): Draft
    requires ino in g.inodes && g.freeblock < 0x1_0000_0000
  {
    Draft(g.disk, g.freeblock + 1, g.inodes[ino := SetAddr(g.inodes[ino], NDIRECT, g.freeblock)],
      g.owner[g.freeblock := Indirect(ino)])
  }

  ghost function WithNewEntry(g: Draft, ino: nat, j: nat): Draft
    requires ino in g.inodes && g.inodes[ino].addrs[NDIRECT] < |g.disk| && j < NINDIRECT && g.freeblock < 0x1_0000_0000
  {
    var ind := g.inodes[ino].addrs[NDIRECT];
    Draft(g.disk[ind := SetWord(g.disk[ind], j, g.freeblock)], g.freeblock + 1, g.inodes,
      g.owner[g.freeblock := Entry(ino, j)])
  }

  /** The first free block becomes a direct block, the indirect block, or an entry of it. */
  lemma CountIntoInode(sb: Super, g: Draft, ino: nat, bn: nat)
    requires DraftOk(sb, g) && !Full(sb, g.freeblock) && ino in g.inodes && bn < NDIRECT && g.inodes[ino].addrs[bn] == 0
    ensures DraftOk(sb, WithDirect(g, ino, bn))
    ensures Extended(sb, Seen(sb, g), Seen(sb, WithDirect(g, ino, bn)), ino, bn, g.freeblock)
  {
    CountUp(sb, g.disk, g.freeblock);
    DirectExtended(sb, Marked(sb, g.disk, g.freeblock), g.inodes, g.owner, ino, bn, g.freeblock);
  }

  lemma CountIndirect(sb: Super, g: Draft, ino: nat, j: nat)
    requires DraftOk(sb, g) && !Full(sb, g.freeblock) && ino in g.inodes && j < NINDIRECT
    requires g.inodes[ino].addrs[NDIRECT] == 0
    ensures DraftOk(sb, WithIndirect(g, ino)) && Word(g.disk[g.freeblock], j) == 0 && g.freeblock != 0
  {
    CountUp(sb, g.disk, g.freeblock);
    IndirectAdded(sb, Marked(sb, g.disk, g.freeblock), g.inodes, g.owner, ino, g.freeblock, j);
    ZeroWord(j);
  }

  /** The indirect block is in the data part of the image, so its words are read there. */
  lemma EntryWord(sb: Super, g: Draft, ino: nat, j: nat)
    requires DraftOk(sb, g) && ino in g.inodes && j < NINDIRECT && g.inodes[ino].addrs[NDIRECT] != 0
    ensures var ind := g.inodes[ino].addrs[NDIRECT];
      && sb.Nmeta() <= ind < g.freeblock && ind < |g.disk| && ind in g.owner
      && Marked(sb, g.disk, g.freeblock)[ind] == g.disk[ind]
      && Addr(Marked(sb, g.disk, g.freeblock), g.inodes, Entry(ino, j)) == Word(g.disk[ind], j)
  {
    var ind, e := g.inodes[ino].addrs[NDIRECT], Marked(sb, g.disk, g.freeblock);
    OwnedIsData(sb, e, g.inodes, g.owner, Indirect(ino));
    assert ind in g.owner by {
      assert Addr(e, g.inodes, Indirect(ino)) in g.owner;
    }
  }

  lemma CountIntoEntry(sb: Super, g: Draft, ino: nat, j: nat)
    requires DraftOk(sb, g) && !Full(sb, g.freeblock) && ino in g.inodes && j < NINDIRECT
    requires g.inodes[ino].addrs[NDIRECT] != 0
    requires g.inodes[ino].addrs[NDIRECT] < |g.disk| && Word(g.disk[g.inodes[ino].addrs[NDIRECT]], j) == 0
    ensures DraftOk(sb, WithNewEntry(g, ino, j))
    ensures Extended(sb, Seen(sb, g), Seen(sb, WithNewEntry(g, ino, j)), ino, NDIRECT + j, g.freeblock)
  {
    var ind, n := g.inodes[ino].addrs[NDIRECT], g.freeblock;
    var h := WithNewEntry(g, ino, j);
    EntryCounted(sb, g, ino, j, ind, n, h);
    EntryDraft(sb, g, h, ind, ino, j);
  }

  lemma EntryCounted(sb: Super, g: Draft, ino: nat, j: nat, ind: nat, n: nat, h: Draft)
    requires DraftOk(sb, g) && n == g.freeblock && !Full(sb, n) && ino in g.inodes && j < NINDIRECT
    requires ind == g.inodes[ino].addrs[NDIRECT] != 0 && ind < |g.disk| && Word(g.disk[ind], j) == 0
    requires h == Draft(g.disk[ind := SetWord(g.disk[ind], j, n)], n + 1, g.inodes, g.owner[n := Entry(ino, j)])
    ensures sb.Nmeta() <= ind < n
    ensures Extended(sb, Seen(sb, g), Seen(sb, h), ino, NDIRECT + j, n)
  {
    EntryWord(sb, g, ino, j);
    CountUp(sb, g.disk, n);
    EntryMarked(sb, g.disk, n, ind, j);
    var e := Marked(sb, g.disk, n);
    var w := View(WithEntry(sb, e, g.inodes[ino].addrs[NDIRECT], j, n), g.inodes, g.owner[n := Entry(ino, j)]);
    assert Seen(sb, h) == w;
    EntryExtended(sb, e, g.inodes, g.owner, ino, j, n);
  }

  /** Writing the entry commutes with marking the bitmap. */
  lemma EntryMarked(sb: Super, d: Disk, n: nat, ind: nat, j: nat)
    requires IsDisk(sb, d) && sb.Nmeta() <= n < BPB && n < sb.size && sb.Nmeta() <= ind < |d| && j < NINDIRECT
    requires Allocated(sb, Marked(sb, d, n), n) == Marked(sb, d, n + 1) && ind != n
    ensures WithEntry(sb, Marked(sb, d, n), ind, j, n) == Marked(sb, d[ind := SetWord(d[ind], j, n)], n + 1)
  {
    assert Marked(sb, d, n + 1)[ind] == d[ind];
  }

  lemma EntryDraft(sb: Super, g: Draft, h: Draft, ind: nat, ino: nat, j: nat)
    requires DraftOk(sb, g) && !Full(sb, g.freeblock) && sb.Nmeta() <= ind < g.freeblock && ind < |g.disk|
    requires |h.disk| == |g.disk| && (forall b | 0 <= b < |g.disk| && b != ind :: h.disk[b] == g.disk[b])
    requires h.freeblock == g.freeblock + 1 && h.owner == g.owner[g.freeblock := Entry(ino, j)]
    requires IndirectsOk(Seen(sb, g).disk, g.inodes) && ino in g.inodes && j < NINDIRECT
    requires Extended(sb, Seen(sb, g), Seen(sb, h), ino, NDIRECT + j, g.freeblock)
    ensures DraftOk(sb, h)
  {
  }

  lemma CountBoth(sb: Super, g: Draft, ino: nat, j: nat)
    requires DraftOk(sb, g) && !Full(sb, g.freeblock + 1) && ino in g.inodes && j < NINDIRECT
    requires g.inodes[ino].addrs[NDIRECT] == 0
    ensures DraftOk(sb, WithIndirect(g, ino)) && DraftOk(sb, WithNewEntry(WithIndirect(g, ino), ino, j))
    ensures Extended(sb, Seen(sb, g), Seen(sb, WithNewEntry(WithIndirect(g, ino), ino, j)),
      ino, NDIRECT + j, g.freeblock + 1)
  {
    var h := WithIndirect(g, ino);
    CountUp(sb, g.disk, g.freeblock);
    CountIndirect(sb, g, ino, j);
    CountIntoEntry(sb, h, ino, j);
    var k := WithNewEntry(h, ino, j);
    BothExtended(sb, Marked(sb, g.disk, g.freeblock), g.inodes, g.owner, ino, g.freeblock,
      Marked(sb, k.disk, k.freeblock), k.owner, NDIRECT + j, g.freeblock + 1);
  }

  /** A file's data block is below freeblock and above the bitmap, so writing it keeps the draft in order. */
  lemma DataInDraft(sb: Super, g: Draft, v: View, ino: nat, bn: nat, x: nat)
    requires DraftOk(sb, g) && IndirectsOk(v.disk, v.inodes) && ino in v.inodes && bn < MAXFILE
    requires AfterMap(sb, v, Seen(sb, g), ino, bn, x) && x != 0
    ensures sb.Nmeta() <= x < g.freeblock && x < |g.disk|
  {
    SlotIsOwned(sb, Marked(sb, g.disk, g.freeblock), g.inodes, g.owner, BlockSlot(ino, bn));
  }

  // ----- the builder's steps on drafts -----

  lemma MarkedPut(sb: Super, d: Disk, n: nat, x: nat, b: Block)
    requires IsDisk(sb, d) && n <= BPB && x < |d| && x != sb.bmapstart
    ensures Marked(sb, d[x := b], n) == Marked(sb, d, n)[x := b]
  {
  }

  /** The copy of n1 bytes into a block that holds file data. */
  lemma PutInDraft(
      sb: Super, g: Draft, v0: View, v: View, ino: nat, off0: nat, off: nat, xp: seq<byte>, x: nat, n1: nat, next: nat)
    returns (h: Draft)
    requires DraftOk(sb, g) && IndirectsOk(v0.disk, v0.inodes) && ino in v0.inodes && off0 <= v0.inodes[ino].size
    requires off0 <= off < next == off + n1 <= off0 + |xp| && n1 <= BSIZE - off % BSIZE && next <= MAXFILE * BSIZE
    requires Writing(sb, v0, v, ino, off0, off, xp) && AfterMap(sb, v, Seen(sb, g), ino, off / BSIZE, x)
    ensures x < |g.disk| && h == g.(disk := WithBytes(g.disk, x, off, off0, n1, xp))
    ensures DraftOk(sb, h) && Writing(sb, v0, Seen(sb, h), ino, off0, next, xp)
    ensures Seen(sb, h) == Seen(sb, g).(disk := WithBytes(Seen(sb, g).disk, x, off, off0, n1, xp))
  {
    hide BitsOk, Addr, Front, Blank;
    var w := Seen(sb, g);
    var y := WriteStep(sb, v0, v, ino, off0, off, xp, w, x, n1, next);
    DataInDraft(sb, g, v, ino, off / BSIZE, x);
    h := g.(disk := WithBytes(g.disk, x, off, off0, n1, xp));
    MarkedPut(sb, g.disk, g.freeblock, x, h.disk[x]);
    assert Seen(sb, h) == y;
    StillDraft(sb, g, h, x);
  }

  lemma StillDraft(sb: Super, g: Draft, h: Draft, x: nat)
    requires DraftOk(sb, g) && sb.Nmeta() <= x < g.freeblock && x < |g.disk|
    requires h == g.(disk := h.disk) && |h.disk| == |g.disk|
    requires forall b | 0 <= b < |g.disk| && b != x :: h.disk[b] == g.disk[b]
    requires Own(sb, Marked(sb, h.disk, h.freeblock), h.inodes, h.owner)
    ensures DraftOk(sb, h)
  {
    hide Front;
    FrontStays(sb, g.disk, h.disk);
  }

  /** winode on the draft: the inode's block is below the bitmap and below freeblock. */
  ghost function WithInode(sb: Super, g: Draft, ino: nat, n: Inode): Draft
    requires IsDisk(sb, g.disk) && ino < sb.ninodes
  {
    g.(disk := WithDinode(sb, g.disk, ino, n), inodes := g.inodes[ino := n])
  }

  lemma InodeInDraft(sb: Super, g: Draft, ino: nat, n: Inode)
    requires DraftOk(sb, g) && ino < sb.ninodes
    requires Own(sb, Marked(sb, WithDinode(sb, g.disk, ino, n), g.freeblock), g.inodes[ino := n], g.owner)
    ensures DraftOk(sb, WithInode(sb, g, ino, n))
    ensures forall j | 0 <= j < sb.ninodes ::
      Dinode(sb, WithInode(sb, g, ino, n).disk, j) == if j == ino then n else Dinode(sb, g.disk, j)
  {
    hide Front;
    InodePlace(sb, ino, ino);
    FrontStays(sb, g.disk, WithDinode(sb, g.disk, ino, n));
    forall j | 0 <= j < sb.ninodes
      ensures Dinode(sb, WithInode(sb, g, ino, n).disk, j) == if j == ino then n else Dinode(sb, g.disk, j)
    {
      DinodeWritten(sb, g.disk, ino, n, j);
    }
  }

  /** The inode's block does not show in the marked image above the inodes. */
  lemma MarkedInode(sb: Super, g: Draft, ino: nat, n: Inode)
    requires DraftOk(sb, g) && ino < sb.ninodes
    ensures var d, e := Marked(sb, g.disk, g.freeblock), Marked(sb, WithDinode(sb, g.disk, ino, n), g.freeblock);
      |e| == |d| && forall b | sb.bmapstart <= b < sb.size :: e[b] == d[b]
  {
    InodePlace(sb, ino, ino);
  }

  /** The end of iappend. */
  lemma AppendInDraft(sb: Super, g: Draft, v0: View, ino: nat, off0: nat, xp: seq<byte>, end: nat) returns (h: Draft)
    requires IsDisk(sb, v0.disk) && IndirectsOk(v0.disk, v0.inodes) && ino in v0.inodes && off0 == v0.inodes[ino].size
    requires DraftOk(sb, g) && ino in g.inodes && ino < sb.ninodes && end == off0 + |xp| <= MAXFILE * BSIZE
    requires Writing(sb, v0, Seen(sb, g), ino, off0, end, xp)
    ensures h == WithInode(sb, g, ino, g.inodes[ino].(size := end)) && DraftOk(sb, h)
    ensures Wrote(sb, v0, Seen(sb, h), ino, off0, xp)
    ensures forall j | 0 <= j < sb.ninodes ::
      Dinode(sb, h.disk, j) == if j == ino then h.inodes[j] else Dinode(sb, v0.disk, j)
    ensures IndirectsOk(Seen(sb, g).disk, g.inodes) && (TailZero(Seen(sb, g).disk, g.inodes, ino, end) ==>
      IndirectsOk(Seen(sb, h).disk, h.inodes) && TailZero(Seen(sb, h).disk, h.inodes, ino, end))
  {
    var v := Seen(sb, g);
    var n := g.inodes[ino].(size := end);
    h := WithInode(sb, g, ino, n);
    var w := Seen(sb, h);
    MarkedInode(sb, g, ino, n);
    WriteDone(sb, v0, v, ino, off0, xp, w, end);
    InodeInDraft(sb, g, ino, n);
    forall j | 0 <= j < sb.ninodes ensures Dinode(sb, g.disk, j) == Dinode(sb, v0.disk, j) {
      DinodeFrame(sb, g.disk, v.disk, j);
      DinodeFrame(sb, v0.disk, v.disk, j);
    }
    if TailZero(v.disk, v.inodes, ino, end) {
      HeaderTail(sb, v.disk, v.inodes, v.owner, ino, n, w.disk, end);
    }
  }

  /** ialloc on the draft. */
  lemma AllocInDraft(sb: Super, g: Draft, inum: nat, typ: short) returns (h: Draft)
    requires DraftOk(sb, g) && inum < sb.ninodes && inum in g.inodes && g.inodes[inum] == NoInode()
    ensures h == WithInode(sb, g, inum, NewInode(typ)) && DraftOk(sb, h)
    ensures IndirectsOk(Seen(sb, g).disk, g.inodes) && IndirectsOk(Seen(sb, h).disk, h.inodes)
    ensures OthersSame(Seen(sb, g).disk, g.inodes, Seen(sb, h).disk, h.inodes, inum)
    ensures Mapped(Seen(sb, h).disk, h.inodes, inum)
    ensures forall j | 0 <= j < sb.ninodes ::
      Dinode(sb, h.disk, j) == if j == inum then h.inodes[j] else Dinode(sb, g.disk, j)
  {
    var v, n := Seen(sb, g), NewInode(typ);
    h := WithInode(sb, g, inum, n);
    NothingMapped(v.disk, g.inodes, inum);
    MarkedInode(sb, g, inum, n);
    HeaderSet(sb, v.disk, g.inodes, g.owner, inum, n, Seen(sb, h).disk, 0);
    InodeInDraft(sb, g, inum, n);
  }

  /** The end of main on the draft: the root's size rounded up. */
  lemma RoundInDraft(sb: Super, g: Draft, root: nat, size: nat) returns (h: Draft)
    requires DraftOk(sb, g) && root in g.inodes && root < sb.ninodes && g.inodes[root].size == size
    requires IndirectsOk(Seen(sb, g).disk, g.inodes) && Mapped(Seen(sb, g).disk, g.inodes, root)
    ensures Rounded(size) < 0x1_0000_0000 && h == WithInode(sb, g, root, g.inodes[root].(size := Rounded(size)))
    ensures DraftOk(sb, h)
    ensures IndirectsOk(Seen(sb, h).disk, h.inodes)
    ensures OthersSame(Seen(sb, g).disk, g.inodes, Seen(sb, h).disk, h.inodes, root)
    ensures Mapped(Seen(sb, h).disk, h.inodes, root) <==> size % BSIZE != 0
    ensures forall i | 0 <= i < size ::
      ByteAt(Seen(sb, h).disk, h.inodes, root, i) == ByteAt(Seen(sb, g).disk, g.inodes, root, i)
    ensures TailZero(Seen(sb, g).disk, g.inodes, root, size) ==> TailZero(Seen(sb, h).disk, h.inodes, root, size)
    ensures forall j | 0 <= j < sb.ninodes ::
      Dinode(sb, Seen(sb, h).disk, j) == if j == root then h.inodes[j] else Dinode(sb, g.disk, j)
  {
    var v := Seen(sb, g);
    assert size <= MAXFILE * BSIZE;
    var n := g.inodes[root].(size := Rounded(size));
    h := WithInode(sb, g, root, n);
    var w := Seen(sb, h);
    MarkedInode(sb, g, root, n);
    HeaderSet(sb, v.disk, v.inodes, v.owner, root, n, w.disk, size);
    RoundedMapped(w.disk, h.inodes, root, size);
    InodeInDraft(sb, g, root, n);
    forall j | 0 <= j < sb.ninodes ensures Dinode(sb, w.disk, j) == Dinode(sb, h.disk, j) {
      DinodeFrame(sb, h.disk, w.disk, j);
    }
    if TailZero(v.disk, v.inodes, root, size) {
      HeaderTail(sb, v.disk, v.inodes, v.owner, root, n, w.disk, size);
    }
  }
}
