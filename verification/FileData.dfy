/** A file's bytes through its block map, and how allocation, block writes and
    truncation change them. */
module FileData {
  import opened Blocks
  import opened Bitmap
  import opened Ownership

  /** The slot of the bn-th block of a file. */
  function BlockSlot(ino: nat, bn: nat): Slot {
    if bn < NDIRECT then Direct(ino, bn) else Entry(ino, bn - NDIRECT)
  }

  function BlockAddr(d: Disk, ns: Inodes, ino: nat, bn: nat): word
    requires IndirectsOk(d, ns) && ino in ns && bn < MAXFILE
  {
    Addr(d, ns, BlockSlot(ino, bn))
  }

  /** Exactly the blocks that begin below lim are mapped, and the indirect block only when needed. */
  predicate MappedTo(d: Disk, ns: Inodes, ino: nat, lim: nat)
    requires IndirectsOk(d, ns) && ino in ns
  {
    && lim <= MAXFILE * BSIZE
    && (forall bn | 0 <= bn < MAXFILE :: BlockAddr(d, ns, ino, bn) != 0 <==> bn * BSIZE < lim)
    && (ns[ino].addrs[NDIRECT] != 0 <==> NDIRECT * BSIZE < lim)
  }

  /** Every block below ceil(size/BSIZE) is mapped and none above. */
  predicate Mapped(d: Disk, ns: Inodes, ino: nat)
    requires IndirectsOk(d, ns) && ino in ns
  {
    MappedTo(d, ns, ino, ns[ino].size)
  }

  /** Byte i of a file; bytes of unmapped blocks do not matter. */
  function ByteAt(d: Disk, ns: Inodes, ino: nat, i: nat): byte
    requires IndirectsOk(d, ns) && ino in ns
  {
    if i < MAXFILE * BSIZE && BlockAddr(d, ns, ino, i / BSIZE) as nat < |d|
    then d[BlockAddr(d, ns, ino, i / BSIZE)][i % BSIZE] else 0
  }

  /** The file as a byte sequence. */
  function Content(d: Disk, ns: Inodes, ino: nat): (c: seq<byte>)
    requires IndirectsOk(d, ns) && ino in ns
    ensures |c| == ns[ino].size
  {
    seq(ns[ino].size, i requires 0 <= i < ns[ino].size => ByteAt(d, ns, ino, i))
  }

  /** Nothing of any inode but ino has changed: neither its fields, nor a block it names, nor that block's data. */
  ghost predicate OthersSame(d: Disk, ns: Inodes, e: Disk, ms: Inodes, ino: nat)
    requires IndirectsOk(d, ns) && IndirectsOk(e, ms)
  {
    && |e| == |d| && ms.Keys == ns.Keys && (forall k | k in ns && k != ino :: ms[k] == ns[k])
    && forall s | SlotOk(ns, s) && s.ino != ino ::
         && Addr(e, ms, s) == Addr(d, ns, s)
         && (Addr(d, ns, s) != 0 && Addr(d, ns, s) as nat < |d| ==> e[Addr(d, ns, s)] == d[Addr(d, ns, s)])
  }

  lemma OthersTransitive(d: Disk, ns: Inodes, e: Disk, ms: Inodes, f: Disk, ls: Inodes, ino: nat)
    requires IndirectsOk(d, ns) && IndirectsOk(e, ms) && IndirectsOk(f, ls)
    requires OthersSame(d, ns, e, ms, ino) && OthersSame(e, ms, f, ls, ino)
    ensures OthersSame(d, ns, f, ls, ino)
  {
    forall s | SlotOk(ns, s) && s.ino != ino
      ensures Addr(f, ls, s) == Addr(d, ns, s)
      ensures Addr(d, ns, s) != 0 && Addr(d, ns, s) as nat < |d| ==> f[Addr(d, ns, s)] == d[Addr(d, ns, s)]
    {
      assert SlotOk(ms, s) && Addr(e, ms, s) == Addr(d, ns, s);
    }
  }

  /** Other files keep their contents and stay mapped. */
  lemma OtherContentSame(d: Disk, ns: Inodes, e: Disk, ms: Inodes, ino: nat, other: nat)
    requires IndirectsOk(d, ns) && IndirectsOk(e, ms) && OthersSame(d, ns, e, ms, ino)
    requires other in ns && other != ino && Mapped(d, ns, other)
    ensures Mapped(e, ms, other) && Content(e, ms, other) == Content(d, ns, other)
  {
    forall bn | 0 <= bn < MAXFILE ensures BlockAddr(e, ms, other, bn) == BlockAddr(d, ns, other, bn) {
      assert SlotOk(ns, BlockSlot(other, bn));
    }
    forall i | 0 <= i < ns[other].size ensures ByteAt(e, ms, other, i) == ByteAt(d, ns, other, i) {
      assert SlotOk(ns, BlockSlot(other, i / BSIZE));
      assert BlockAddr(d, ns, other, i / BSIZE) != 0;
    }
  }

  /** What bmap does to an unmapped block bn of ino: that slot (and, if needed, the
      indirect block) gets a fresh block; every other address and all data stay. */
  ghost predicate Grew(d: Disk, ns: Inodes, owner: Owners, e: Disk, ms: Inodes, ino: nat, bn: nat, a: nat)
    requires IndirectsOk(d, ns) && IndirectsOk(e, ms) && bn < MAXFILE
  {
    && |e| == |d| && ino in ns && ms.Keys == ns.Keys && (forall k | k in ns && k != ino :: ms[k] == ns[k])
    && ms[ino] == ns[ino].(addrs := ms[ino].addrs)
    && a !in owner && a < |e| && a != 0 && e[a] == ZeroBlock()
    && (forall c | c in owner && owner[c] != Indirect(ino) :: c < |d| && e[c] == d[c])
    && (bn < NDIRECT ==> ms[ino].addrs[NDIRECT] == ns[ino].addrs[NDIRECT])
    && (bn >= NDIRECT ==> ms[ino].addrs[NDIRECT] != 0)
    && forall s | SlotOk(ns, s) && !(bn >= NDIRECT && s == Indirect(ino)) ::
         Addr(e, ms, s) == if s == BlockSlot(ino, bn) then a else Addr(d, ns, s)
  }

  lemma DirectGrew(sb: Super, d: Disk, ns: Inodes, owner: Owners, ino: nat, bn: nat, b: nat)
    requires Own(sb, d, ns, owner) && ino in ns && bn < NDIRECT && ns[ino].addrs[bn] == 0
    requires b < sb.size && !Used(sb, d, b)
    ensures var e, ms := Allocated(sb, d, b), ns[ino := SetAddr(ns[ino], bn, b)];
      IndirectsOk(e, ms) && Grew(d, ns, owner, e, ms, ino, bn, b)
  {
    var e, ms := Allocated(sb, d, b), ns[ino := SetAddr(ns[ino], bn, b)];
    AllocatedBits(sb, d, b);
    InodeAddrs(sb, d, ns, owner, ino, bn, b, Indirect(ino));
    forall c | c in owner ensures c < |d| && e[c] == d[c] {
      assert c != b && sb.Nmeta() <= c;
    }
    forall s | SlotOk(ns, s) ensures Addr(e, ms, s) == if s == Direct(ino, bn) then b else Addr(d, ns, s) {
      InodeAddrs(sb, d, ns, owner, ino, bn, b, s);
    }
  }

  lemma EntryGrew(sb: Super, d: Disk, ns: Inodes, owner: Owners, ino: nat, j: nat, b: nat)
    requires Own(sb, d, ns, owner) && ino in ns && j < NINDIRECT && ns[ino].addrs[NDIRECT] != 0
    requires Addr(d, ns, Entry(ino, j)) == 0 && b < sb.size && !Used(sb, d, b)
    ensures ns[ino].addrs[NDIRECT] < sb.size
    ensures var e := WithEntry(sb, d, ns[ino].addrs[NDIRECT], j, b);
      IndirectsOk(e, ns) && Grew(d, ns, owner, e, ns, ino, NDIRECT + j, b)
  {
    var ind := ns[ino].addrs[NDIRECT];
    OwnedIsData(sb, d, ns, owner, Indirect(ino));
    assert ind in owner && owner[ind] == Indirect(ino) by {
      assert Addr(d, ns, Indirect(ino)) == ind;
    }
    AllocatedBits(sb, d, b);
    EntryWritten(sb, d, Allocated(sb, d, b), ind, j, b);
    var e := WithEntry(sb, d, ind, j, b);
    forall s | SlotOk(ns, s) ensures Addr(e, ns, s) == if s == Entry(ino, j) then b else Addr(d, ns, s) {
      EntryAddrs(sb, d, ns, owner, ino, j, b, e, s);
    }
  }

  /** The indirect block allocated first, then the entry. */
  lemma IndirectThenEntry(sb: Super, d: Disk, ns: Inodes, owner: Owners, ino: nat, b: nat, e: Disk, bn: nat, a: nat)
    requires Own(sb, d, ns, owner) && ino in ns && ns[ino].addrs[NDIRECT] == 0
    requires b < sb.size && !Used(sb, d, b) && NDIRECT <= bn < MAXFILE
    requires var d1, ms := Allocated(sb, d, b), ns[ino := SetAddr(ns[ino], NDIRECT, b)];
      && IndirectsOk(d1, ms) && IndirectsOk(e, ms) && Grew(d1, ms, owner[b := Indirect(ino)], e, ms, ino, bn, a)
    ensures Grew(d, ns, owner, e, ns[ino := SetAddr(ns[ino], NDIRECT, b)], ino, bn, a)
  {
    var d1, ms := Allocated(sb, d, b), ns[ino := SetAddr(ns[ino], NDIRECT, b)];
    AllocatedBits(sb, d, b);
    forall s | SlotOk(ns, s) && s != Indirect(ino)
      ensures Addr(e, ms, s) == if s == BlockSlot(ino, bn) then a else Addr(d, ns, s)
    {
      InodeAddrs(sb, d, ns, owner, ino, NDIRECT, b, s);
    }
    forall c | c in owner && owner[c] != Indirect(ino) ensures c < |d| && e[c] == d[c] {
      assert c in owner[b := Indirect(ino)] && d1[c] == d[c];
    }
  }

  /** Growing the map at the first unmapped block, when the file ends exactly there. */
  lemma GrewMaps(
      sb: Super, d: Disk, ns: Inodes, owner: Owners, e: Disk, ms: Inodes, ino: nat, bn: nat, a: nat, lim: nat,
      lim': nat)
    requires Owned(sb, d, ns, owner) && IndirectsOk(e, ms) && bn < MAXFILE && Grew(d, ns, owner, e, ms, ino, bn, a)
    requires MappedTo(d, ns, ino, lim) && lim == bn * BSIZE < lim' <= (bn + 1) * BSIZE
    ensures MappedTo(e, ms, ino, lim')
    ensures forall i | 0 <= i < lim :: ByteAt(e, ms, ino, i) == ByteAt(d, ns, ino, i)
    ensures OthersSame(d, ns, e, ms, ino)
  {
    forall k | 0 <= k < MAXFILE ensures BlockAddr(e, ms, ino, k) == if k == bn then a else BlockAddr(d, ns, ino, k) {
      assert SlotOk(ns, BlockSlot(ino, k));
    }
    forall i | 0 <= i < lim ensures ByteAt(e, ms, ino, i) == ByteAt(d, ns, ino, i) {
      assert BlockAddr(d, ns, ino, i / BSIZE) != 0;
      SlotIsOwned(sb, d, ns, owner, BlockSlot(ino, i / BSIZE));
    }
    forall s | SlotOk(ns, s) && s.ino != ino
      ensures Addr(e, ms, s) == Addr(d, ns, s)
      ensures Addr(d, ns, s) != 0 && Addr(d, ns, s) as nat < |d| ==> e[Addr(d, ns, s)] == d[Addr(d, ns, s)]
    {
      if Addr(d, ns, s) != 0 {
        SlotIsOwned(sb, d, ns, owner, s);
      }
    }
  }

  /** What bmap for the block at off leaves for a write of m bytes there: the block is
      mapped, bytes before the old end are as they were, other files are untouched. */
  lemma MappedForWrite(
      sb: Super, d: Disk, ns: Inodes, owner: Owners, e: Disk, ms: Inodes, ino: nat, off: nat, m: nat, a: nat, lim: nat)
    requires Owned(sb, d, ns, owner) && IndirectsOk(e, ms) && ino in ns && ino in ms
    requires MappedTo(d, ns, ino, lim) && off <= lim && 0 < m <= BSIZE - off % BSIZE && off + m <= MAXFILE * BSIZE
    requires
      if BlockAddr(d, ns, ino, off / BSIZE) != 0 then e == d && ms == ns
      else Grew(d, ns, owner, e, ms, ino, off / BSIZE, a)
    ensures MappedTo(e, ms, ino, Max(lim, off + m)) && BlockAddr(e, ms, ino, off / BSIZE) != 0
    ensures forall i | 0 <= i < lim :: ByteAt(e, ms, ino, i) == ByteAt(d, ns, ino, i)
    ensures OthersSame(d, ns, e, ms, ino)
  {
    var bn := off / BSIZE;
    if BlockAddr(d, ns, ino, bn) == 0 {
      GrewMaps(sb, d, ns, owner, e, ms, ino, bn, a, lim, off + m);
    } else {
      forall k | 0 <= k < MAXFILE ensures k * BSIZE < lim <==> k * BSIZE < Max(lim, off + m) {
        assert k <= bn || k >= bn + 1;
      }
    }
  }

  function Max(x: int, y: int): int {
    if x < y then y else x
  }

  /** New data in a block that holds a file's data moves no address and no bitmap bit. */
  lemma DataKeepsOwn(sb: Super, d: Disk, ns: Inodes, owner: Owners, a: nat, e: Disk)
    requires Own(sb, d, ns, owner) && a in owner && !owner[a].Indirect? && |e| == |d|
    requires forall c | 0 <= c < |d| && c != a :: e[c] == d[c]
    ensures Own(sb, e, ns, owner) && forall s | SlotOk(ns, s) :: Addr(e, ns, s) == Addr(d, ns, s)
  {
    assert sb.Nmeta() <= a;
    OwnFrame(sb, d, ns, owner, e);
  }

  lemma OneBlock(sb: Super, d: Disk, ns: Inodes, owner: Owners, ino: nat, bn: nat, k: nat)
    requires Owned(sb, d, ns, owner) && ino in ns && bn < MAXFILE && k < MAXFILE
    requires BlockAddr(d, ns, ino, bn) != 0 && BlockAddr(d, ns, ino, k) == BlockAddr(d, ns, ino, bn)
    ensures k == bn
  {
    SlotIsOwned(sb, d, ns, owner, BlockSlot(ino, bn));
    SlotIsOwned(sb, d, ns, owner, BlockSlot(ino, k));
  }

  /** New data in one mapped block of ino: ownership, every address, and every byte
      outside that block stay. */
  lemma DataWritten(sb: Super, d: Disk, ns: Inodes, owner: Owners, ino: nat, bn: nat, e: Disk, lim: nat)
    requires Own(sb, d, ns, owner) && ino in ns && bn < MAXFILE && BlockAddr(d, ns, ino, bn) != 0
    requires MappedTo(d, ns, ino, lim)
    requires |e| == |d| && forall c | 0 <= c < |d| && c != BlockAddr(d, ns, ino, bn) :: e[c] == d[c]
    ensures sb.Nmeta() <= BlockAddr(d, ns, ino, bn) < |e|
    ensures Own(sb, e, ns, owner) && MappedTo(e, ns, ino, lim) && OthersSame(d, ns, e, ns, ino)
    ensures forall i | 0 <= i < MAXFILE * BSIZE ::
      ByteAt(e, ns, ino, i) ==
        if i / BSIZE == bn then e[BlockAddr(d, ns, ino, bn)][i % BSIZE] else ByteAt(d, ns, ino, i)
  {
    var a := BlockAddr(d, ns, ino, bn);
    SlotIsOwned(sb, d, ns, owner, BlockSlot(ino, bn));
    DataKeepsOwn(sb, d, ns, owner, a, e);
    forall k | 0 <= k < MAXFILE ensures BlockAddr(e, ns, ino, k) == BlockAddr(d, ns, ino, k) {
      assert SlotOk(ns, BlockSlot(ino, k));
    }
    forall i | 0 <= i < MAXFILE * BSIZE
      ensures ByteAt(e, ns, ino, i) == if i / BSIZE == bn then e[a][i % BSIZE] else ByteAt(d, ns, ino, i)
    {
      if BlockAddr(d, ns, ino, i / BSIZE) == a {
        OneBlock(sb, d, ns, owner, ino, bn, i / BSIZE);
      }
    }
    forall s | SlotOk(ns, s) && s.ino != ino ensures Addr(d, ns, s) != a {
      if Addr(d, ns, s) != 0 {
        SlotIsOwned(sb, d, ns, owner, s);
      }
    }
  }

  /** A new header for ino moves no address and no byte; metadata writes below the bitmap neither. */
  lemma HeaderSet(sb: Super, d: Disk, ns: Inodes, owner: Owners, ino: nat, n: Inode, e: Disk, lim: nat)
    requires Own(sb, d, ns, owner) && ino in ns && n.addrs == ns[ino].addrs && MappedTo(d, ns, ino, lim) && |e| == |d|
    requires forall b | sb.bmapstart <= b < sb.size :: e[b] == d[b]
    ensures var ms := ns[ino := n];
      && Own(sb, e, ms, owner) && MappedTo(e, ms, ino, lim) && OthersSame(d, ns, e, ms, ino)
      && forall i | 0 <= i < lim :: ByteAt(e, ms, ino, i) == ByteAt(d, ns, ino, i)
  {
    var ms := ns[ino := n];
    OwnFrame(sb, d, ns, owner, e);
    forall s | SlotOk(ns, s) ensures Addr(e, ms, s) == Addr(d, ns, s) {
      assert Addr(e, ns, s) == Addr(d, ns, s);
    }
    forall s | SlotOk(ns, s) && s.ino != ino && Addr(d, ns, s) != 0 ensures e[Addr(d, ns, s)] == d[Addr(d, ns, s)] {
      SlotIsOwned(sb, d, ns, owner, s);
    }
    forall k | 0 <= k < MAXFILE ensures BlockAddr(e, ms, ino, k) == BlockAddr(d, ns, ino, k) {
      assert SlotOk(ns, BlockSlot(ino, k));
    }
    forall i | 0 <= i < lim ensures ByteAt(e, ms, ino, i) == ByteAt(d, ns, ino, i) {
      assert BlockAddr(d, ns, ino, i / BSIZE) != 0;
      SlotIsOwned(sb, d, ns, owner, BlockSlot(ino, i / BSIZE));
    }
  }

  lemma SlotIsOwned(sb: Super, d: Disk, ns: Inodes, owner: Owners, s: Slot)
    requires Owned(sb, d, ns, owner) && SlotOk(ns, s) && Addr(d, ns, s) != 0
    ensures Addr(d, ns, s) in owner && owner[Addr(d, ns, s)] == s && sb.Nmeta() <= Addr(d, ns, s) < sb.size
  {
  }
}
