/** What one bmap call and one pass of the read and write loops do to the file layer's
    state, and how many blocks a write enters in the log. */
module FileSteps {
  import opened Blocks
  import opened Bitmap
  import opened Ownership
  import opened Dinodes
  import opened FileData
  import opened Params

  const T_DEV := 3

  /** bytes put over a sequence at off, extending it if need be. */
  function Spliced(c: seq<byte>, off: nat, src: seq<byte>): (r: seq<byte>)
    requires off <= |c|
    ensures |r| == Max(|c|, off + |src|)
  {
    seq<byte>(Max(|c|, off + |src|), i requires 0 <= i < Max(|c|, off + |src|) =>
      if off <= i < off + |src| then src[i - off] else c[i])
  }

  predicate AllUsed(sb: Super, d: Disk)
    requires IsDisk(sb, d)
  {
    forall b | 0 <= b < sb.size :: Used(sb, d, b)
  }

  /** The indirect block of ino and the bitmap block of its bit. */
  function IndirectLog(sb: Super, ns: Inodes, ino: nat): set<nat>
    requires ino in ns
  {
    if ns[ino].addrs[NDIRECT] == 0 then {} else {ns[ino].addrs[NDIRECT] as nat, sb.Bblock(ns[ino].addrs[NDIRECT])}
  }

  predicate BelowSame(d: Disk, e: Disk, n: nat) {
    |e| == |d| && forall b | 0 <= b < n && b < |d| :: e[b] == d[b]
  }

  /** A state of the file layer: the logical disk, the inodes, and who owns which block. */
  datatype View = View(disk: Disk, inodes: Inodes, owner: Owners)

  /** Mapping block a of ino logs at most a, its bitmap block, and the same two of the indirect block. */
  ghost predicate LogAfterMap(sb: Super, l: set<nat>, l': set<nat>, ns: Inodes, ino: nat, a: nat)
    requires ino in ns
  {
    l' <= l + {a, sb.Bblock(a)} + IndirectLog(sb, ns, ino)
  }

  /** The indirect block first, then the entry. */
  lemma LogBoth(sb: Super, l: set<nat>, l1: set<nat>, l2: set<nat>, ns: Inodes, ino: nat, b: nat, a: nat)
    requires ino in ns && ns[ino].addrs[NDIRECT] == b != 0 && l1 == l + {sb.Bblock(b), b}
    requires LogAfterMap(sb, l1, l2, ns, ino, a)
    ensures LogAfterMap(sb, l, l2, ns, ino, a)
  {
  }

  /** What bmap has done when it had to allocate a for block bn of ino. */
  ghost predicate Extended(sb: Super, was: View, now: View, ino: nat, bn: nat, a: nat)
    requires IndirectsOk(was.disk, was.inodes) && ino in was.inodes && bn < MAXFILE
  {
    match (was, now) case (View(d, ns, o), View(e, ms, p)) =>
      && Own(sb, e, ms, p) && BelowSame(d, e, sb.bmapstart) && Grew(d, ns, o, e, ms, ino, bn, a)
      && a == BlockAddr(e, ms, ino, bn) && IndirectLog(sb, ns, ino) <= IndirectLog(sb, ms, ino)
  }

  lemma DirectExtended(sb: Super, d: Disk, ns: Inodes, o: Owners, ino: nat, bn: nat, b: nat)
    requires Own(sb, d, ns, o) && ino in ns && bn < NDIRECT && ns[ino].addrs[bn] == 0 && b < sb.size && !Used(sb, d, b)
    ensures Extended(sb, View(d, ns, o),
      View(Allocated(sb, d, b), ns[ino := SetAddr(ns[ino], bn, b)], o[b := Direct(ino, bn)]), ino, bn, b)
  {
    AllocInode(sb, d, ns, o, ino, bn, b);
    DirectGrew(sb, d, ns, o, ino, bn, b);
    NewBlock(sb, d, ns, o, b);
  }

  lemma IndirectAdded(sb: Super, d: Disk, ns: Inodes, o: Owners, ino: nat, b: nat, j: nat)
    requires Own(sb, d, ns, o) && ino in ns && j < NINDIRECT && ns[ino].addrs[NDIRECT] == 0 && b < sb.size
    requires !Used(sb, d, b)
    ensures b != 0 && Own(sb, Allocated(sb, d, b), ns[ino := SetAddr(ns[ino], NDIRECT, b)], o[b := Indirect(ino)])
    ensures Word(Allocated(sb, d, b)[b], j) == 0 && BelowSame(d, Allocated(sb, d, b), sb.bmapstart)
  {
    AllocInode(sb, d, ns, o, ino, NDIRECT, b);
    NewBlock(sb, d, ns, o, b);
    ZeroWord(j);
  }

  lemma UpdateBelow(d: Disk, e: Disk, a: nat, x: Block, n: nat)
    requires BelowSame(d, e, n) && n <= a < |e|
    ensures BelowSame(d, e[a := x], n)
  {
  }

  lemma EntryExtended(sb: Super, d: Disk, ns: Inodes, o: Owners, ino: nat, j: nat, b: nat)
    requires Own(sb, d, ns, o) && ino in ns && j < NINDIRECT && ns[ino].addrs[NDIRECT] != 0
    requires Addr(d, ns, Entry(ino, j)) == 0 && b < sb.size && !Used(sb, d, b)
    ensures ns[ino].addrs[NDIRECT] < sb.size
    ensures Extended(sb, View(d, ns, o),
      View(WithEntry(sb, d, ns[ino].addrs[NDIRECT], j, b), ns, o[b := Entry(ino, j)]), ino, NDIRECT + j, b)
  {
    AllocEntry(sb, d, ns, o, ino, j, b);
    EntryGrew(sb, d, ns, o, ino, j, b);
    NewBlock(sb, d, ns, o, b);
    OwnedIsData(sb, d, ns, o, Indirect(ino));
    var f, ind := Allocated(sb, d, b), ns[ino].addrs[NDIRECT];
    UpdateBelow(d, f, ind, SetWord(f[ind], j, b), sb.bmapstart);
    assert SlotOk(ns, BlockSlot(ino, NDIRECT + j));
  }

  lemma BothExtended(sb: Super, d: Disk, ns: Inodes, o: Owners, ino: nat, b: nat, e: Disk, p: Owners, bn: nat, a: nat)
    requires Own(sb, d, ns, o) && ino in ns && NDIRECT <= bn < MAXFILE && ns[ino].addrs[NDIRECT] == 0 && b < sb.size
    requires !Used(sb, d, b)
    requires var d1, ms := Allocated(sb, d, b), ns[ino := SetAddr(ns[ino], NDIRECT, b)];
      IndirectsOk(d1, ms) && Extended(sb, View(d1, ms, o[b := Indirect(ino)]), View(e, ms, p), ino, bn, a)
    ensures Extended(sb, View(d, ns, o), View(e, ns[ino := SetAddr(ns[ino], NDIRECT, b)], p), ino, bn, a)
  {
    IndirectThenEntry(sb, d, ns, o, ino, b, e, bn, a);
    NewBlock(sb, d, ns, o, b);
  }

  /** iupdate keeps ownership, reads back, and leaves every other inode on disk. */
  lemma InodeWritten(sb: Super, d: Disk, ns: Inodes, o: Owners, ino: nat, n: Inode)
    requires Own(sb, d, ns, o) && ino < sb.ninodes
    ensures var e := WithDinode(sb, d, ino, n);
      && Own(sb, e, ns, o) && (forall s | SlotOk(ns, s) :: Addr(e, ns, s) == Addr(d, ns, s))
      && (forall b | sb.bmapstart <= b < sb.size :: e[b] == d[b])
      && forall j | 0 <= j < sb.ninodes :: Dinode(sb, e, j) == if j == ino then n else Dinode(sb, d, j)
  {
    var e := WithDinode(sb, d, ino, n);
    InodePlace(sb, ino, ino);
    OwnFrame(sb, d, ns, o, e);
    forall j | 0 <= j < sb.ninodes ensures Dinode(sb, e, j) == if j == ino then n else Dinode(sb, d, j) {
      DinodeWritten(sb, d, ino, n, j);
    }
  }

  /** A block balloc returns is a data block that nothing owned, and allocating it leaves
      the metadata below the bitmap. */
  lemma NewBlock(sb: Super, d: Disk, ns: Inodes, owner: Owners, b: nat)
    requires Own(sb, d, ns, owner) && b < sb.size && !Used(sb, d, b)
    ensures sb.Nmeta() <= b && b !in owner && BelowSame(d, Allocated(sb, d, b), sb.bmapstart)
  {
    AllocatedBits(sb, d, b);
  }

  lemma BitPlace(sb: Super, k: nat, bi: nat)
    requires bi < BPB
    ensures (k * BPB + bi) / BPB == k && (k * BPB + bi) % BPB == bi && (k * BPB + bi) % 8 == bi % 8
  {
    assert k * BPB + bi == 8 * (512 * k) + bi;
  }

  /** Bit bi of bitmap block k is that of block k * BPB + bi. */
  lemma BitOfBlock(sb: Super, d: Disk, b: nat, k: nat, bi: nat)
    requires IsDisk(sb, d) && b == k * BPB && bi < BPB && b + bi < sb.size
    ensures sb.Bblock(b) == sb.Bblock(b + bi) < |d|
    ensures Used(sb, d, b + bi) <==> Bit(d[sb.Bblock(b)][bi / 8], bi % 8)
  {
    BitPlace(sb, k, bi);
  }

  lemma TakenBlock(sb: Super, d: Disk, b: nat, k: nat, bi: nat)
    requires IsDisk(sb, d) && b == k * BPB && bi < BPB && b + bi < sb.size
    ensures sb.Bblock(b) == sb.Bblock(b + bi) < |d|
    ensures Allocated(sb, d, b + bi)
      == PutByte(d, sb.Bblock(b), bi / 8, OrByte(d[sb.Bblock(b)][bi / 8], bi % 8))[b + bi := ZeroBlock()]
  {
    BitPlace(sb, k, bi);
  }

  // ----- writei -----

  /** len bytes of src from at put over b from position p. */
  function Patched(b: Block, p: nat, src: seq<byte>): (r: Block)
    requires p + |src| <= BSIZE
    ensures forall i | 0 <= i < BSIZE :: r[i] == if p <= i < p + |src| then src[i - p] else b[i]
  {
    b[..p] + src + b[p + |src|..]
  }

  /** writei has put src up to offset off: bytes off0..off are from src, all others
      below the old size are the old ones, and other files are untouched. */
  ghost predicate Writing(sb: Super, was: View, now: View, ino: nat, off0: nat, off: nat, src: seq<byte>)
    requires IndirectsOk(was.disk, was.inodes) && ino in was.inodes && off0 <= off <= off0 + |src|
  {
    match (was, now) case (View(d0, ns0, _), View(d, ns, o)) =>
      && Own(sb, d, ns, o) && ino in ns && MappedTo(d, ns, ino, Max(ns0[ino].size, off))
      && OthersSame(d0, ns0, d, ns, ino)
      && BelowSame(d0, d, sb.bmapstart) && ns[ino] == ns0[ino].(addrs := ns[ino].addrs)
      && (off <= ns0[ino].size ==> ns == ns0)
      && forall i | 0 <= i < Max(ns0[ino].size, off) ::
           ByteAt(d, ns, ino, i) == if off0 <= i < off then src[i - off0] else ByteAt(d0, ns0, ino, i)
  }

  lemma WriteStart(sb: Super, v: View, ino: nat, off: nat, src: seq<byte>)
    requires Own(sb, v.disk, v.inodes, v.owner) && ino in v.inodes && off <= v.inodes[ino].size
    requires Mapped(v.disk, v.inodes, ino)
    ensures Writing(sb, v, v, ino, off, off, src)
  {
  }

  /** The state after bmap for block bn: as before when it was mapped, else one block more. */
  ghost predicate AfterMap(sb: Super, was: View, now: View, ino: nat, bn: nat, a: nat)
    requires IndirectsOk(was.disk, was.inodes) && ino in was.inodes && bn < MAXFILE
  {
    match was case View(d, ns, _) =>
      if BlockAddr(d, ns, ino, bn) != 0 then a == BlockAddr(d, ns, ino, bn) && now == was
      else Extended(sb, was, now, ino, bn, a)
  }

  /** The block at off is mapped for a write of m bytes there. */
  ghost predicate Ready(sb: Super, was: View, now: View, ino: nat, off0: nat, off: nat, m: nat, src: seq<byte>)
    requires IndirectsOk(was.disk, was.inodes) && ino in was.inodes && off0 <= off < off + m <= off0 + |src|
    requires off + m <= MAXFILE * BSIZE
  {
    match (was, now) case (View(d0, ns0, _), View(e, ms, p)) =>
      && Own(sb, e, ms, p) && ino in ms && MappedTo(e, ms, ino, Max(ns0[ino].size, off + m))
      && OthersSame(d0, ns0, e, ms, ino)
      && BelowSame(d0, e, sb.bmapstart) && ms[ino] == ns0[ino].(addrs := ms[ino].addrs)
      && (off + m <= ns0[ino].size ==> ms == ns0) && BlockAddr(e, ms, ino, off / BSIZE) != 0
      && forall i | 0 <= i < Max(ns0[ino].size, off) ::
           ByteAt(e, ms, ino, i) == if off0 <= i < off then src[i - off0] else ByteAt(d0, ns0, ino, i)
  }

  /** What bmap changes of the file itself: the block is mapped, the bytes so far stay. */
  lemma MapBytes(
      sb: Super, v0: View, v: View, ino: nat, off0: nat, off: nat, src: seq<byte>, w: View, a: nat, m: nat)
    requires IndirectsOk(v0.disk, v0.inodes) && ino in v0.inodes && off0 <= off < off + m <= off0 + |src|
    requires Writing(sb, v0, v, ino, off0, off, src) && off0 <= v0.inodes[ino].size
    requires m <= BSIZE - off % BSIZE && off + m <= MAXFILE * BSIZE
    requires AfterMap(sb, v, w, ino, off / BSIZE, a)
    ensures IndirectsOk(w.disk, w.inodes) && ino in w.inodes
    ensures MappedTo(w.disk, w.inodes, ino, Max(v0.inodes[ino].size, off + m))
    ensures a == BlockAddr(w.disk, w.inodes, ino, off / BSIZE) != 0
    ensures forall i | 0 <= i < Max(v0.inodes[ino].size, off) ::
      ByteAt(w.disk, w.inodes, ino, i) == if off0 <= i < off then src[i - off0] else ByteAt(v0.disk, v0.inodes, ino, i)
  {
    var lim := Max(v0.inodes[ino].size, off);
    assert Max(lim, off + m) == Max(v0.inodes[ino].size, off + m);
    MappedForWrite(sb, v.disk, v.inodes, v.owner, w.disk, w.inodes, ino, off, m, a, lim);
  }

  /** What bmap leaves alone: the other files, the metadata, and all of a file that needs no new block. */
  lemma MapLeaves(
      sb: Super, v0: View, v: View, ino: nat, off0: nat, off: nat, src: seq<byte>, w: View, a: nat, m: nat)
    requires IndirectsOk(v0.disk, v0.inodes) && ino in v0.inodes && off0 <= off < off + m <= off0 + |src|
    requires Writing(sb, v0, v, ino, off0, off, src) && off0 <= v0.inodes[ino].size
    requires m <= BSIZE - off % BSIZE && off + m <= MAXFILE * BSIZE
    requires AfterMap(sb, v, w, ino, off / BSIZE, a)
    ensures Own(sb, w.disk, w.inodes, w.owner) && OthersSame(v0.disk, v0.inodes, w.disk, w.inodes, ino)
    ensures BelowSame(v0.disk, w.disk, sb.bmapstart) && ino in w.inodes
    ensures w.inodes[ino] == v0.inodes[ino].(addrs := w.inodes[ino].addrs)
    ensures off + m <= v0.inodes[ino].size ==> w.inodes == v0.inodes
  {
    var lim, bn := Max(v0.inodes[ino].size, off), off / BSIZE;
    MappedForWrite(sb, v.disk, v.inodes, v.owner, w.disk, w.inodes, ino, off, m, a, lim);
    OthersTransitive(v0.disk, v0.inodes, v.disk, v.inodes, w.disk, w.inodes, ino);
    if off + m <= v0.inodes[ino].size {
      assert BlockAddr(v.disk, v.inodes, ino, bn) != 0 by {
        assert bn * BSIZE < lim;
      }
    }
  }

  lemma MapStep(
      sb: Super, v0: View, v: View, ino: nat, off0: nat, off: nat, src: seq<byte>, w: View, a: nat, m: nat)
    requires IndirectsOk(v0.disk, v0.inodes) && ino in v0.inodes && off0 <= off < off + m <= off0 + |src|
    requires Writing(sb, v0, v, ino, off0, off, src) && off0 <= v0.inodes[ino].size
    requires m <= BSIZE - off % BSIZE && off + m <= MAXFILE * BSIZE
    requires AfterMap(sb, v, w, ino, off / BSIZE, a)
    ensures Ready(sb, v0, w, ino, off0, off, m, src)
    ensures IndirectsOk(w.disk, w.inodes) && ino in w.inodes && a == BlockAddr(w.disk, w.inodes, ino, off / BSIZE)
  {
    MapBytes(sb, v0, v, ino, off0, off, src, w, a, m);
    MapLeaves(sb, v0, v, ino, off0, off, src, w, a, m);
  }

  /** The disk after the copy of m bytes into block a, for file offset off. */
  function WithBytes(d: Disk, a: nat, off: nat, off0: nat, m: nat, src: seq<byte>): Disk
    requires a < |d| && off0 <= off && off + m <= off0 + |src| && m <= BSIZE - off % BSIZE
  {
    d[a := Patched(d[a], off % BSIZE, src[off - off0..off - off0 + m])]
  }

  lemma PatchStep(
      sb: Super, v0: View, w: View, ino: nat, off0: nat, off: nat, m: nat, src: seq<byte>, a: nat, x: View)
    requires IndirectsOk(v0.disk, v0.inodes) && ino in v0.inodes && off0 <= off < off + m <= off0 + |src|
    requires off + m <= MAXFILE * BSIZE && m <= BSIZE - off % BSIZE && Ready(sb, v0, w, ino, off0, off, m, src)
    requires IndirectsOk(w.disk, w.inodes) && ino in w.inodes && a == BlockAddr(w.disk, w.inodes, ino, off / BSIZE)
    requires a < |w.disk| && x == w.(disk := WithBytes(w.disk, a, off, off0, m, src))
    ensures Writing(sb, v0, x, ino, off0, off + m, src)
  {
    var e, f, ms := w.disk, x.disk, w.inodes;
    DataWritten(sb, e, ms, w.owner, ino, off / BSIZE, f, Max(v0.inodes[ino].size, off + m));
    OthersTransitive(v0.disk, v0.inodes, e, ms, f, ms, ino);
    UpdateBelow(v0.disk, e, a, f[a], sb.bmapstart);
    forall i | 0 <= i < Max(v0.inodes[ino].size, off + m)
      ensures ByteAt(f, ms, ino, i) == if off0 <= i < off + m then src[i - off0] else ByteAt(v0.disk, v0.inodes, ino, i)
    {
      PatchedByte(e[a], off, off0, m, src, i);
      assert i / BSIZE == off / BSIZE ==> ByteAt(e, ms, ino, i) == e[a][i % BSIZE];
    }
  }

  /** One pass of writei's loop: bmap, copy, log_write. */
  lemma WriteStep(
      sb: Super, v0: View, v: View, ino: nat, off0: nat, off: nat, src: seq<byte>, w: View, a: nat, m: nat, next: nat)
    returns (x: View)
    requires IndirectsOk(v0.disk, v0.inodes) && ino in v0.inodes && off0 <= off < next == off + m <= off0 + |src|
    requires Writing(sb, v0, v, ino, off0, off, src) && off0 <= v0.inodes[ino].size
    requires m <= BSIZE - off % BSIZE && off + m <= MAXFILE * BSIZE
    requires AfterMap(sb, v, w, ino, off / BSIZE, a)
    ensures a < |w.disk| && x == w.(disk := WithBytes(w.disk, a, off, off0, m, src))
    ensures Writing(sb, v0, x, ino, off0, next, src)
  {
    MapStep(sb, v0, v, ino, off0, off, src, w, a, m);
    ReadyBlock(sb, v0, w, ino, off0, off, m, src, a);
    x := w.(disk := WithBytes(w.disk, a, off, off0, m, src));
    PatchStep(sb, v0, w, ino, off0, off, m, src, a, x);
  }

  lemma ReadyBlock(sb: Super, v0: View, w: View, ino: nat, off0: nat, off: nat, m: nat, src: seq<byte>, a: nat)
    requires IndirectsOk(v0.disk, v0.inodes) && ino in v0.inodes && off0 <= off < off + m <= off0 + |src|
    requires off + m <= MAXFILE * BSIZE && Ready(sb, v0, w, ino, off0, off, m, src)
    requires IndirectsOk(w.disk, w.inodes) && ino in w.inodes && a == BlockAddr(w.disk, w.inodes, ino, off / BSIZE)
    ensures a < |w.disk|
  {
    SlotIsOwned(sb, w.disk, w.inodes, w.owner, BlockSlot(ino, off / BSIZE));
  }

  /** A block with a byte below the old size has an address. */
  lemma BelowIsMapped(sb: Super, v0: View, v: View, ino: nat, off0: nat, off: nat, src: seq<byte>)
    requires IndirectsOk(v0.disk, v0.inodes) && ino in v0.inodes && off0 <= off <= off0 + |src|
    requires Writing(sb, v0, v, ino, off0, off, src) && off < MAXFILE * BSIZE
    ensures IndirectsOk(v.disk, v.inodes) && ino in v.inodes
    ensures off < v0.inodes[ino].size ==> BlockAddr(v.disk, v.inodes, ino, off / BSIZE) != 0
  {
    assert off / BSIZE * BSIZE <= off;
  }

  lemma NextAt(at: nat, m: nat, left: nat)
    requires m == Min(left, BSIZE - at % BSIZE)
    ensures m == left || (at + m) % BSIZE == 0
  {
  }

  lemma PatchedByte(b: Block, off: nat, off0: nat, m: nat, src: seq<byte>, i: nat)
    requires off0 <= off && off + m <= off0 + |src| && m <= BSIZE - off % BSIZE
    ensures off <= i < off + m ==> i / BSIZE == off / BSIZE
    ensures i / BSIZE == off / BSIZE ==>
      Patched(b, off % BSIZE, src[off - off0..off - off0 + m])[i % BSIZE] ==
        if off <= i < off + m then src[i - off0] else b[i % BSIZE]
  {
    InBlock(i, off, m);
  }

  lemma InBlock(i: nat, off: nat, m: nat)
    requires m <= BSIZE - off % BSIZE
    ensures off <= i < off + m ==> i / BSIZE == off / BSIZE
    ensures i / BSIZE == off / BSIZE ==> i % BSIZE - off % BSIZE == i - off
  {
  }

  /** writei's error cases: past the end, wrapping round, or beyond the largest file. */
  predicate Refused(size: nat, off: word, n: nat) {
    off > size || Wrap(off + n) < off || off + n > MAXFILE * BSIZE
  }

  /** What a write of src at off has done: exactly those bytes, nothing of any other file, still mapped exactly. */
  ghost predicate Wrote(sb: Super, was: View, now: View, ino: nat, off: nat, src: seq<byte>)
    requires IndirectsOk(was.disk, was.inodes) && ino in was.inodes && off <= was.inodes[ino].size
  {
    match (was, now) case (View(d, ns, _), View(e, ms, p)) =>
      && Own(sb, e, ms, p) && ino in ms && ms[ino] == ns[ino].(size := ms[ino].size, addrs := ms[ino].addrs)
      && Mapped(e, ms, ino) && OthersSame(d, ns, e, ms, ino)
      && Content(e, ms, ino) == Spliced(Content(d, ns, ino), off, src)
  }

  /** After the last pass: the bytes are spliced in and, once the size is set when it grew,
      the file is mapped exactly. */
  lemma WriteDone(sb: Super, v0: View, v: View, ino: nat, off0: nat, src: seq<byte>, w: View, lim: nat)
    requires IsDisk(sb, v0.disk) && IndirectsOk(v0.disk, v0.inodes) && ino in v0.inodes
    requires off0 <= v0.inodes[ino].size && off0 + |src| <= MAXFILE * BSIZE
    requires lim == Max(v0.inodes[ino].size, off0 + |src|)
    requires Writing(sb, v0, v, ino, off0, off0 + |src|, src)
    requires |w.disk| == |v.disk| && forall b | sb.bmapstart <= b < sb.size :: w.disk[b] == v.disk[b]
    requires w.owner == v.owner && ino in v.inodes && w.inodes == v.inodes[ino := v.inodes[ino].(size := lim)]
    ensures Wrote(sb, v0, w, ino, off0, src)
  {
    var d, ns, e, ms := v.disk, v.inodes, w.disk, w.inodes;
    HeaderSet(sb, d, ns, v.owner, ino, ns[ino].(size := lim), e, lim);
    OthersTransitive(v0.disk, v0.inodes, d, ns, e, ms, ino);
    var c, r := Content(e, ms, ino), Spliced(Content(v0.disk, v0.inodes, ino), off0, src);
    forall i | 0 <= i < lim ensures c[i] == r[i] {
      assert c[i] == ByteAt(d, ns, ino, i);
      SplicedAt(Content(v0.disk, v0.inodes, ino), off0, src, i);
    }
  }

  lemma SameSize(ns: Inodes, ino: nat, size: word)
    requires ino in ns && ns[ino].size == size
    ensures ns[ino := ns[ino].(size := size)] == ns
  {
  }

  lemma SplicedAt(c: seq<byte>, off: nat, src: seq<byte>, i: nat)
    requires off <= |c| && i < Max(|c|, off + |src|)
    ensures Spliced(c, off, src)[i] == if off <= i < off + |src| then src[i - off] else c[i]
  {
  }

  /** Splicing piece after piece is splicing once. */
  lemma SpliceTwice(c: seq<byte>, off: nat, x: seq<byte>, y: seq<byte>)
    requires off <= |c|
    ensures Spliced(Spliced(c, off, x), off + |x|, y) == Spliced(c, off, x + y)
  {
  }

  lemma SpliceNothing(c: seq<byte>, off: nat)
    requires off <= |c|
    ensures Spliced(c, off, []) == c
  {
  }

  // ----- readi -----

  /** Unsigned 32-bit arithmetic. */
  function Wrap(x: nat): word {
    x % 0x1_0000_0000
  }

  function Min(x: int, y: int): int {
    if x < y then x else y
  }

  /** The part of a mapped block from offset at is that part of the file. */
  lemma SliceOfBlock(sb: Super, d: Disk, ns: Inodes, o: Owners, ino: nat, at: nat, m: nat)
    requires Owned(sb, d, ns, o) && ino in ns && Mapped(d, ns, ino) && at + m <= ns[ino].size
    requires 0 < m <= BSIZE - at % BSIZE
    ensures var a := BlockAddr(d, ns, ino, at / BSIZE);
      a != 0 && a < |d| && d[a][at % BSIZE..at % BSIZE + m] == Content(d, ns, ino)[at..at + m]
  {
    assert at / BSIZE * BSIZE < ns[ino].size;
    var a := BlockAddr(d, ns, ino, at / BSIZE);
    SlotIsOwned(sb, d, ns, o, BlockSlot(ino, at / BSIZE));
    var x, y := d[a][at % BSIZE..at % BSIZE + m], Content(d, ns, ino)[at..at + m];
    forall k | 0 <= k < m ensures x[k] == y[k] {
      InBlock(at + k, at, m);
      assert x[k] == d[a][at % BSIZE + k];
      assert y[k] == ByteAt(d, ns, ino, at + k) == d[a][(at + k) % BSIZE];
    }
  }

  lemma SliceGrows(c: seq<byte>, off: nat, at: nat, m: nat)
    requires off <= at && at + m <= |c|
    ensures c[off..at] + c[at..at + m] == c[off..at + m]
  {
  }

  // ----- transaction size -----

  /** The largest piece filewrite gives to writei. */
  const CHUNK := (LOGSIZE - 1 - 1 - 2) / 2 * 512

  /** Passes of writei's loop that take it from off0 to off. */
  function Passes(off0: nat, off: nat): int {
    if off <= off0 then 0 else (off - 1) / BSIZE - off0 / BSIZE + 1
  }

  /** The blocks in the log before writei, the data blocks it added, and the bitmap blocks for them. */
  datatype TxLog = TxLog(base: set<nat>, data: set<nat>, bits: set<nat>)

  /** The log holds at most one data block a pass, one bitmap block a pass but for a first
      pass that starts inside a block, and the indirect block with its bitmap block. */
  ghost predicate LogWithin(sb: Super, t: TxLog, l: set<nat>, ns: Inodes, ino: nat, off0: nat, off: nat)
    requires ino in ns
  {
    match t case TxLog(l0, D, B) =>
      && l <= l0 + D + B + IndirectLog(sb, ns, ino)
      && |D| <= Passes(off0, off) && |B| <= Passes(off0, off) - (if off0 % BSIZE != 0 && off > off0 then 1 else 0)
      && (sb.size < BPB ==> B <= {sb.bmapstart})
  }

  lemma PassCount(off0: nat, off: nat, m: nat)
    requires off0 <= off && (off == off0 || off % BSIZE == 0) && 0 < m <= BSIZE - off % BSIZE
    ensures Passes(off0, off + m) == Passes(off0, off) + 1
  {
    if off > off0 {
      assert (off - 1) / BSIZE == off / BSIZE - 1;
    }
    assert (off + m - 1) / BSIZE == off / BSIZE;
  }

  lemma OneBitmapBlock(sb: Super, a: nat)
    requires a < sb.size
    ensures sb.size < BPB ==> sb.Bblock(a) == sb.bmapstart
  {
  }

  lemma LogSets(
      l0: set<nat>, l: set<nat>, l': set<nat>, D: set<nat>, B: set<nat>, J: set<nat>, J': set<nat>, a: nat, c: nat)
    requires l <= l0 + D + B + J && l' <= l + {a, c} + J' && J <= J'
    ensures l' + {a} <= l0 + (D + {a}) + (B + {c}) + J' && |D + {a}| <= |D| + 1 && |B + {c}| <= |B| + 1
  {
  }

  lemma LogStep(
      sb: Super, t: TxLog, l: set<nat>, v: View, ino: nat, off0: nat, off: nat, lim: nat, w: View, a: nat,
      m: nat, next: nat, l': set<nat>)
    returns (u: TxLog)
    requires Own(sb, v.disk, v.inodes, v.owner) && ino in v.inodes && off / BSIZE < MAXFILE
    requires MappedTo(v.disk, v.inodes, ino, lim) && off <= lim && off0 <= off && (off == off0 || off % BSIZE == 0)
    requires 0 < m <= BSIZE - off % BSIZE && next == off + m && LogWithin(sb, t, l, v.inodes, ino, off0, off)
    requires AfterMap(sb, v, w, ino, off / BSIZE, a) && a < sb.size && ino in w.inodes
    requires BlockAddr(v.disk, v.inodes, ino, off / BSIZE) != 0 ==> l' == l
    requires BlockAddr(v.disk, v.inodes, ino, off / BSIZE) == 0 ==> LogAfterMap(sb, l, l', w.inodes, ino, a)
    ensures u.base == t.base && LogWithin(sb, u, l' + {a}, w.inodes, ino, off0, next)
  {
    PassCount(off0, off, m);
    OneBitmapBlock(sb, a);
    var bn := off / BSIZE;
    if BlockAddr(v.disk, v.inodes, ino, bn) == 0 {
      assert off % BSIZE == 0 by {
        assert bn * BSIZE >= lim;
      }
      assert off0 % BSIZE != 0 && off + m > off0 ==> off > off0;
      LogSets(t.base, l, l', t.data, t.bits,
        IndirectLog(sb, v.inodes, ino), IndirectLog(sb, w.inodes, ino), a, sb.Bblock(a));
      u := t.(data := t.data + {a}, bits := t.bits + {sb.Bblock(a)});
    } else {
      u := t.(data := t.data + {a});
      assert |t.data + {a}| <= |t.data| + 1;
    }
  }

  lemma {:induction false} SubsetSize(s: set<nat>, t: set<nat>)
    requires s <= t
    ensures |s| <= |t|
  {
    if s != {} {
      var x :| x in s;
      SubsetSize(s - {x}, t - {x});
    }
  }

  lemma OneMore(l: set<nat>, l': set<nat>, x: nat)
    requires l' == l || l' == l + {x}
    ensures l' <= l + {x}
  {
  }

  /** One writei of at most CHUNK bytes fits in the log: at most LOGSIZE blocks, and 17 when
      one bitmap block covers the disk. */
  lemma LogTotal(sb: Super, t: TxLog, l: set<nat>, ns: Inodes, ino: nat, off0: nat, n: nat, extra: nat, l': set<nat>)
    requires ino in ns && n <= CHUNK && LogWithin(sb, t, l, ns, ino, off0, off0 + n) && ns[ino].addrs[NDIRECT] < sb.size
    requires l' <= l + {extra}
    ensures |l' - t.base| <= LOGSIZE
    ensures sb.size < BPB ==> |l' - t.base| <= 17
  {
    var J := IndirectLog(sb, ns, ino);
    SubsetSize(l' - t.base, t.data + t.bits + J + {extra});
    SubsetSize(J, {ns[ino].addrs[NDIRECT] as nat} + {sb.Bblock(ns[ino].addrs[NDIRECT])});
    assert Passes(off0, off0 + n) <= 14 && (off0 % BSIZE == 0 ==> Passes(off0, off0 + n) <= 13);
    if sb.size < BPB {
      var K := {ns[ino].addrs[NDIRECT] as nat};
      SubsetSize(l' - t.base, t.data + {sb.bmapstart} + K + {extra});
    }
  }

  lemma DinodesSame(sb: Super, d: Disk, e: Disk)
    requires IsDisk(sb, d) && BelowSame(d, e, sb.bmapstart)
    ensures forall j | 0 <= j < sb.ninodes :: Dinode(sb, e, j) == Dinode(sb, d, j)
  {
    forall j | 0 <= j < sb.ninodes ensures Dinode(sb, e, j) == Dinode(sb, d, j) {
      DinodeFrame(sb, d, e, j);
    }
  }
}
