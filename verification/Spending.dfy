/** What the file layer's steps cost in free blocks, and which moves they are. */
module Spending {
  import opened Blocks
  import opened Bitmap
  import opened Ownership
  import opened Dinodes
  import opened FileData
  import opened Truncate
  import opened FileSteps
  import opened BlockCounts
  import opened Moves

  /** From m moves lead to n, and k blocks fewer are free. */
  ghost predicate Spent(sb: Super, m: Mem, n: Mem, k: nat) {
    && IsDisk(sb, m.disk) && IsDisk(sb, n.disk)
    && FreeBlocks(sb, n.disk) + k == FreeBlocks(sb, m.disk) && Reaches(sb, m, n)
  }

  function MemOf(v: View): Mem {
    Mem(v.disk, v.inodes)
  }

  /** The blocks a file takes more when it is to reach end. */
  function Growth(size: nat, end: nat): nat {
    BlocksGrow(size, Max(size, end));
    BlocksFor(Max(size, end)) - BlocksFor(size)
  }

  lemma SpentNothing(sb: Super, m: Mem)
    requires IsDisk(sb, m.disk)
    ensures Spent(sb, m, m, 0)
  {
    ReachesSelf(sb, m);
  }

  lemma SpentTwice(sb: Super, m: Mem, n: Mem, q: Mem, j: nat, k: nat, sum: nat)
    requires Spent(sb, m, n, j) && Spent(sb, n, q, k) && sum == j + k
    ensures Spent(sb, m, q, sum)
  {
    hide Reaches, FreeBlocks;
    ReachesVia(sb, m, n, q);
  }

  lemma SpentLeaves(sb: Super, m: Mem, n: Mem, k: nat)
    requires Spent(sb, m, n, k)
    ensures IsDisk(sb, m.disk) && k <= FreeBlocks(sb, m.disk)
  {
  }

  lemma OneMove(sb: Super, m: Mem, n: Mem, move: Move)
    requires Moved(sb, m, n, move)
    ensures Reaches(sb, m, n)
  {
    hide Moved, Reaches;
    ReachesSelf(sb, m);
    ReachesBy(sb, m, m, n, move);
  }

  // ----- bmap -----

  lemma InodeGiven(sb: Super, d: Disk, ns: Inodes, o: Owners, ino: nat, k: nat, b: nat)
    requires Own(sb, d, ns, o) && ino in ns && k <= NDIRECT && ns[ino].addrs[k] == 0 && b < sb.size && !Used(sb, d, b)
    ensures Spent(sb, Mem(d, ns), Mem(Allocated(sb, d, b), ns[ino := SetAddr(ns[ino], k, b)]), 1)
  {
    hide Reaches, FreeBlocks;
    NewBlock(sb, d, ns, o, b);
    AllocatedBits(sb, d, b);
    FreeTaken(sb, d, Allocated(sb, d, b), b);
    OneMove(sb, Mem(d, ns), Mem(Allocated(sb, d, b), ns[ino := SetAddr(ns[ino], k, b)]), GiveInode(ino, k, b));
  }

  lemma EntryGiven(sb: Super, d: Disk, ns: Inodes, o: Owners, ino: nat, j: nat, b: nat)
    requires Own(sb, d, ns, o) && ino in ns && j < NINDIRECT && ns[ino].addrs[NDIRECT] != 0
    requires Addr(d, ns, Entry(ino, j)) == 0 && b < sb.size && !Used(sb, d, b)
    ensures ns[ino].addrs[NDIRECT] < sb.size
    ensures Spent(sb, Mem(d, ns), Mem(WithEntry(sb, d, ns[ino].addrs[NDIRECT], j, b), ns), 1)
  {
    hide Reaches, FreeBlocks;
    var ind := ns[ino].addrs[NDIRECT];
    NewBlock(sb, d, ns, o, b);
    OwnedIsData(sb, d, ns, o, Indirect(ino));
    AllocatedBits(sb, d, b);
    EntryWritten(sb, d, Allocated(sb, d, b), ind, j, b);
    FreeTaken(sb, d, WithEntry(sb, d, ind, j, b), b);
    OneMove(sb, Mem(d, ns), Mem(WithEntry(sb, d, ind, j, b), ns), GiveEntry(ino, j, b));
  }

  /** The indirect block is missing, and after it is there only the entry is. */
  lemma BothLacking(sb: Super, d: Disk, ns: Inodes, o: Owners, ino: nat, b: nat, j: nat)
    requires Own(sb, d, ns, o) && ino in ns && j < NINDIRECT && ns[ino].addrs[NDIRECT] == 0
    requires b < sb.size && !Used(sb, d, b)
    ensures Lacking(d, ns, ino, NDIRECT + j) == 2
    ensures var e, ms := Allocated(sb, d, b), ns[ino := SetAddr(ns[ino], NDIRECT, b)];
      IndirectsOk(e, ms) && Lacking(e, ms, ino, NDIRECT + j) == 1
  {
    hide Used;
    InodeAddrs(sb, d, ns, o, ino, NDIRECT, b, Entry(ino, j));
    NewBlock(sb, d, ns, o, b);
  }

  // ----- writei -----

  /** What one pass of writei lacks is what the file takes more. */
  lemma PassGrowth(sb: Super, v0: View, v: View, ino: nat, off0: nat, off: nat, src: seq<byte>, m: nat, next: nat)
    requires IndirectsOk(v0.disk, v0.inodes) && ino in v0.inodes && off0 <= off < next == off + m <= off0 + |src|
    requires Writing(sb, v0, v, ino, off0, off, src) && m <= BSIZE - off % BSIZE && next <= MAXFILE * BSIZE
    ensures IndirectsOk(v.disk, v.inodes) && ino in v.inodes
    ensures var size := v0.inodes[ino].size;
      Growth(size, next) == Growth(size, off) + Lacking(v.disk, v.inodes, ino, off / BSIZE)
  {
    hide BitsOk, Addr, BlocksFor;
    var size := v0.inodes[ino].size;
    LackingGrows(v.disk, v.inodes, ino, Max(size, off), off, m, next);
    assert Max(Max(size, off), next) == Max(size, next);
  }

  /** The copy of the bytes costs nothing. */
  lemma PutSpends(
      sb: Super, v0: View, v: View, ino: nat, off0: nat, off: nat, src: seq<byte>, w: View, a: nat, m: nat, x: View)
    requires IndirectsOk(v0.disk, v0.inodes) && ino in v0.inodes && off0 <= off < off + m <= off0 + |src|
    requires Writing(sb, v0, v, ino, off0, off, src) && off0 <= v0.inodes[ino].size
    requires m <= BSIZE - off % BSIZE && off + m <= MAXFILE * BSIZE
    requires AfterMap(sb, v, w, ino, off / BSIZE, a)
    requires a < |w.disk| && x == w.(disk := WithBytes(w.disk, a, off, off0, m, src))
    ensures Spent(sb, MemOf(w), MemOf(x), 0)
  {
    hide Reaches, FreeBlocks, Writing, AfterMap, OthersSame, MappedTo, ByteAt;
    MapStep(sb, v0, v, ino, off0, off, src, w, a, m);
    ReadyParts(sb, v0, w, ino, off0, off, m, src);
    SlotIsOwned(sb, w.disk, w.inodes, w.owner, BlockSlot(ino, off / BSIZE));
    FreeSame(sb, w.disk, x.disk);
    OneMove(sb, MemOf(w), MemOf(x), Put(ino, off / BSIZE, x.disk[a]));
  }

  /** One pass of writei: bmap and the copy. */
  lemma PassSpends(
      sb: Super, v0: View, v: View, ino: nat, off0: nat, off: nat, src: seq<byte>, w: View, a: nat, m: nat, next: nat,
      x: View)
    requires IndirectsOk(v0.disk, v0.inodes) && ino in v0.inodes && off0 <= off < next == off + m <= off0 + |src|
    requires Writing(sb, v0, v, ino, off0, off, src) && off0 <= v0.inodes[ino].size
    requires m <= BSIZE - off % BSIZE && next <= MAXFILE * BSIZE && AfterMap(sb, v, w, ino, off / BSIZE, a)
    requires a < |w.disk| && x == w.(disk := WithBytes(w.disk, a, off, off0, m, src))
    requires Spent(sb, MemOf(v0), MemOf(v), Growth(v0.inodes[ino].size, off))
    requires Spent(sb, MemOf(v), MemOf(w), Lacking(v.disk, v.inodes, ino, off / BSIZE))
    ensures Spent(sb, MemOf(v0), MemOf(x), Growth(v0.inodes[ino].size, next))
  {
    hide Spent, Growth, Lacking, AfterMap, BitsOk, Addr, WithBytes;
    var k := Lacking(v.disk, v.inodes, ino, off / BSIZE);
    PassGrowth(sb, v0, v, ino, off0, off, src, m, next);
    PutSpends(sb, v0, v, ino, off0, off, src, w, a, m, x);
    SpentTwice(sb, MemOf(v), MemOf(w), MemOf(x), k, 0, k);
    var size := v0.inodes[ino].size;
    SpentTwice(sb, MemOf(v0), MemOf(v), MemOf(x), Growth(size, off), k, Growth(size, next));
  }

  /** A pass that lacks more than is free is beyond what was free for the whole. */
  lemma PassLacks(sb: Super, v0: View, v: View, ino: nat, off0: nat, off: nat, src: seq<byte>, m: nat, next: nat)
    requires IndirectsOk(v0.disk, v0.inodes) && ino in v0.inodes && off0 <= off < next == off + m <= off0 + |src|
    requires Writing(sb, v0, v, ino, off0, off, src) && m <= BSIZE - off % BSIZE && next <= MAXFILE * BSIZE
    requires Spent(sb, MemOf(v0), MemOf(v), Growth(v0.inodes[ino].size, off))
    requires FreeBlocks(sb, v.disk) < Lacking(v.disk, v.inodes, ino, off / BSIZE)
    ensures FreeBlocks(sb, v0.disk) < Growth(v0.inodes[ino].size, next)
  {
    hide Growth, Lacking, BitsOk, Addr, FreeBlocks, Reaches, ByteAt;
    PassGrowth(sb, v0, v, ino, off0, off, src, m, next);
  }

  lemma GrowthMore(size: nat, m: nat, n: nat)
    requires m <= n
    ensures Growth(size, m) <= Growth(size, n)
    ensures m <= size ==> Growth(size, m) == 0
  {
    hide BlocksFor;
    BlocksGrow(Max(size, m), Max(size, n));
  }

  /** One write behind another. */
  lemma GrowthTwice(size: nat, mid: nat, end: nat)
    requires mid <= end
    ensures Growth(size, mid) + Growth(Max(size, mid), end) == Growth(size, end)
  {
    hide BlocksFor;
    assert Max(Max(size, mid), end) == Max(size, end);
  }

  lemma ReadyParts(sb: Super, v0: View, w: View, ino: nat, off0: nat, off: nat, m: nat, src: seq<byte>)
    requires IndirectsOk(v0.disk, v0.inodes) && ino in v0.inodes && off0 <= off < off + m <= off0 + |src|
    requires off + m <= MAXFILE * BSIZE && Ready(sb, v0, w, ino, off0, off, m, src)
    ensures Own(sb, w.disk, w.inodes, w.owner) && ino in w.inodes
    ensures IndirectsOk(w.disk, w.inodes) && BlockAddr(w.disk, w.inodes, ino, off / BSIZE) != 0
  {
  }

  /** Neither does the writing of the inode with its new size. */
  lemma SizeSpends(sb: Super, d: Disk, ns: Inodes, o: Owners, ino: nat, size: word)
    requires Own(sb, d, ns, o) && ino in ns && ino < sb.ninodes
    ensures var n := ns[ino].(size := size);
      Spent(sb, Mem(d, ns), Mem(WithDinode(sb, d, ino, n), ns[ino := n]), 0)
  {
    hide Reaches, FreeBlocks, Addr, BitsOk;
    var n := ns[ino].(size := size);
    var e, ms := WithDinode(sb, d, ino, n), ns[ino := n];
    InodePlace(sb, ino, ino);
    FreeSame(sb, d, e);
    OneMove(sb, Mem(d, ns), Mem(d, ms), SetFields(ino, n));
    assert IndirectsOk(d, ms);
    ReachesBy(sb, Mem(d, ns), Mem(d, ms), Mem(e, ms), Update(ino));
  }

  // ----- itrunc -----

  /** itrunc and its iupdate. */
  lemma TruncationReaches(sb: Super, d: Disk, ns: Inodes, o: Owners, ino: nat, e: Disk, f: Disk)
    requires Own(sb, d, ns, o) && ino in ns && ino < sb.ninodes && FreedTo(sb, d, o, ino, MAXFILE + 1, e)
    requires var ms := ns[ino := Emptied(ns[ino])]; f == WithDinode(sb, e, ino, ms[ino])
    ensures Reaches(sb, Mem(d, ns), Mem(f, ns[ino := Emptied(ns[ino])]))
  {
    hide Reaches, Addr, BitsOk, Names;
    var ms := ns[ino := Emptied(ns[ino])];
    forall b | 0 <= b < sb.size ensures Used(sb, e, b) <==> Used(sb, d, b) && !Names(d, ns, ino, b) {
      NamesIsOwns(sb, d, ns, o, ino, b);
    }
    OneMove(sb, Mem(d, ns), Mem(e, ms), Empty(ino));
    assert IndirectsOk(e, ms);
    ReachesBy(sb, Mem(d, ns), Mem(e, ms), Mem(f, ms), Update(ino));
  }
}
