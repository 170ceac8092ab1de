/** Which disk blocks belong to which slot of which inode, and how allocation and
    truncation move ownership together with the bitmap. */
module Ownership {
  import opened Blocks
  import opened Bitmap

  const NDIRECT := 12
  const NINDIRECT := NWORDS
  const MAXFILE := NDIRECT + NINDIRECT

  type short = x: int | 0 <= x < 0x1_0000

  /** The part of an inode that lives on disk, its shorts as bit patterns; typ 0 is free. */
  datatype RawInode = RawInode(typ: short, major: short, minor: short, nlink: short, size: word, addrs: seq<word>)
  type Inode = n: RawInode | |n.addrs| == NDIRECT + 1 witness RawInode(0, 0, 0, 0, 0, seq(NDIRECT + 1, i => 0))

  type Inodes = map<nat, Inode>

  /** A place that can name a data block: addrs[k], addrs[NDIRECT], or word j of the indirect block. */
  datatype Slot = Direct(ino: nat, k: nat) | Indirect(ino: nat) | Entry(ino: nat, j: nat)

  predicate SlotOk(ns: Inodes, slot: Slot) {
    && slot.ino in ns
    && match slot
       case Direct(_, k) => k < NDIRECT
       case Indirect(_) => true
       case Entry(_, j) => j < NINDIRECT
  }

  /** Indirect blocks lie on the disk. */
  predicate IndirectsOk(d: Disk, ns: Inodes) {
    forall ino | ino in ns :: ns[ino].addrs[NDIRECT] as nat < |d|
  }

  /** The block a slot names, 0 for none. */
  function Addr(d: Disk, ns: Inodes, slot: Slot): word
    requires IndirectsOk(d, ns) && SlotOk(ns, slot)
  {
    match slot
    case Direct(ino, k) => ns[ino].addrs[k]
    case Indirect(ino) => ns[ino].addrs[NDIRECT]
    case Entry(ino, j) => if ns[ino].addrs[NDIRECT] == 0 then 0 else Word(d[ns[ino].addrs[NDIRECT]], j)
  }

  type Owners = map<nat, Slot>

  /** Every block a slot names is a data block, owned by that slot and no other. */
  ghost predicate Owned(sb: Super, d: Disk, ns: Inodes, owner: Owners) {
    && IsDisk(sb, d) && IndirectsOk(d, ns)
    && (forall slot | SlotOk(ns, slot) && Addr(d, ns, slot) != 0 ::
          Addr(d, ns, slot) in owner && owner[Addr(d, ns, slot)] == slot)
    && (forall a | a in owner :: sb.Nmeta() <= a < sb.size && SlotOk(ns, owner[a]) && Addr(d, ns, owner[a]) == a)
  }

  /** The bitmap says exactly which blocks are metadata or owned. */
  ghost predicate BitsOk(sb: Super, d: Disk, owner: Owners)
    requires IsDisk(sb, d)
  {
    forall b {:trigger Used(sb, d, b)} | 0 <= b < sb.size :: Used(sb, d, b) <==> b < sb.Nmeta() || b in owner
  }

  ghost predicate Own(sb: Super, d: Disk, ns: Inodes, owner: Owners) {
    Owned(sb, d, ns, owner) && BitsOk(sb, d, owner)
  }

  /** The bitmap invariant in words: a data block's bit is set exactly when one slot
      names it, and then no other slot does. */
  lemma BitMeansOneOwner(sb: Super, d: Disk, ns: Inodes, owner: Owners, b: nat)
    requires Own(sb, d, ns, owner) && sb.Nmeta() <= b < sb.size
    ensures Used(sb, d, b) <==> exists slot :: SlotOk(ns, slot) && Addr(d, ns, slot) == b
    ensures forall s, t | SlotOk(ns, s) && SlotOk(ns, t) && Addr(d, ns, s) == b && Addr(d, ns, t) == b :: s == t
  {
    if Used(sb, d, b) {
      assert SlotOk(ns, owner[b]) && Addr(d, ns, owner[b]) == b;
    }
  }

  // ----- allocation into a slot -----

  function SetAddr(n: Inode, k: nat, a: word): (r: Inode)
    requires k <= NDIRECT
  {
    n.(addrs := n.addrs[k := a])
  }

  /** An owned block is a data block of the disk, not block 0 and not in the bitmap. */
  lemma OwnedIsData(sb: Super, d: Disk, ns: Inodes, owner: Owners, slot: Slot)
    requires Own(sb, d, ns, owner) && SlotOk(ns, slot) && Addr(d, ns, slot) != 0
    ensures sb.Nmeta() <= Addr(d, ns, slot) < sb.size && Used(sb, d, Addr(d, ns, slot))
  {
  }

  /** Changing blocks no indirect block is among changes no slot's address. */
  lemma AddrFrame(sb: Super, d: Disk, ns: Inodes, owner: Owners, e: Disk, slot: Slot)
    requires Owned(sb, d, ns, owner) && |e| == |d| && SlotOk(ns, slot)
    requires forall a | a in owner && owner[a].Indirect? :: e[a] == d[a]
    ensures IndirectsOk(e, ns) && Addr(e, ns, slot) == Addr(d, ns, slot)
  {
    if slot.Entry? && ns[slot.ino].addrs[NDIRECT] != 0 {
      assert Addr(d, ns, Indirect(slot.ino)) != 0;
    }
  }

  /** Ownership reads only the bitmap and the indirect blocks. */
  lemma OwnFrame(sb: Super, d: Disk, ns: Inodes, owner: Owners, e: Disk)
    requires Own(sb, d, ns, owner) && |e| == |d|
    requires forall b | sb.bmapstart <= b < sb.Nmeta() :: e[b] == d[b]
    requires forall a | a in owner && owner[a].Indirect? :: e[a] == d[a]
    ensures Own(sb, e, ns, owner) && forall s | SlotOk(ns, s) :: Addr(e, ns, s) == Addr(d, ns, s)
  {
    forall s | SlotOk(ns, s) ensures Addr(e, ns, s) == Addr(d, ns, s) {
      AddrFrame(sb, d, ns, owner, e, s);
    }
    UsedFrame(sb, d, e);
  }

  function InodeSlot(ino: nat, k: nat): Slot {
    if k < NDIRECT then Direct(ino, k) else Indirect(ino)
  }

  /** Giving addrs[k] a fresh block moves that slot's address and no other. */
  lemma InodeAddrs(sb: Super, d: Disk, ns: Inodes, owner: Owners, ino: nat, k: nat, b: nat, s: Slot)
    requires Own(sb, d, ns, owner) && ino in ns && k <= NDIRECT && ns[ino].addrs[k] == 0
    requires b < sb.size && !Used(sb, d, b) && SlotOk(ns, s)
    ensures var e, ms := Allocated(sb, d, b), ns[ino := SetAddr(ns[ino], k, b)];
      IndirectsOk(e, ms) && Addr(e, ms, s) == if s == InodeSlot(ino, k) then b else Addr(d, ns, s)
  {
    var e, ms := Allocated(sb, d, b), ns[ino := SetAddr(ns[ino], k, b)];
    AllocatedBits(sb, d, b);
    AddrFrame(sb, d, ns, owner, e, s);
    if s.Entry? && s.ino == ino && k == NDIRECT {
      ZeroWord(s.j);
      assert e[b] == ZeroBlock();
    }
  }

  /** bmap's allocation of a direct block or of the indirect block. */
  lemma AllocInode(sb: Super, d: Disk, ns: Inodes, owner: Owners, ino: nat, k: nat, b: nat)
    requires Own(sb, d, ns, owner) && ino in ns && k <= NDIRECT && ns[ino].addrs[k] == 0
    requires b < sb.size && !Used(sb, d, b)
    ensures Own(sb, Allocated(sb, d, b), ns[ino := SetAddr(ns[ino], k, b)], owner[b := InodeSlot(ino, k)])
  {
    var e, ms := Allocated(sb, d, b), ns[ino := SetAddr(ns[ino], k, b)];
    assert sb.Nmeta() <= b && b !in owner;
    AllocatedBits(sb, d, b);
    forall s | SlotOk(ms, s)
      ensures SlotOk(ns, s) && IndirectsOk(e, ms) &&
        Addr(e, ms, s) == if s == InodeSlot(ino, k) then b else Addr(d, ns, s)
    {
      InodeAddrs(sb, d, ns, owner, ino, k, b, s);
    }
    Reown(sb, d, ns, owner, e, ms, InodeSlot(ino, k), b);
  }

  /** Ownership after one slot has been given a fresh block and no other address moved. */
  lemma Reown(sb: Super, d: Disk, ns: Inodes, owner: Owners, e: Disk, ms: Inodes, slot: Slot, b: nat)
    requires Own(sb, d, ns, owner) && IsDisk(sb, e) && IndirectsOk(e, ms)
    requires ms.Keys == ns.Keys
    requires SlotOk(ns, slot) && Addr(d, ns, slot) == 0 && sb.Nmeta() <= b < sb.size && b !in owner
    requires forall s | SlotOk(ms, s) :: Addr(e, ms, s) == if s == slot then b else Addr(d, ns, s)
    requires forall c | 0 <= c < sb.size :: Used(sb, e, c) == (b == c || Used(sb, d, c))
    ensures Own(sb, e, ms, owner[b := slot])
  {
    var o := owner[b := slot];
    forall s | SlotOk(ms, s) && Addr(e, ms, s) != 0 ensures Addr(e, ms, s) in o && o[Addr(e, ms, s)] == s {
      NamedAfter(sb, d, ns, owner, e, ms, slot, b, s);
    }
    forall a | a in o ensures sb.Nmeta() <= a < sb.size && SlotOk(ms, o[a]) && Addr(e, ms, o[a]) == a {
      if a != b {
        assert SlotOk(ns, owner[a]) && Addr(d, ns, owner[a]) == a;
        assert owner[a] != slot;
      }
    }
  }

  lemma NamedAfter(sb: Super, d: Disk, ns: Inodes, owner: Owners, e: Disk, ms: Inodes, slot: Slot, b: nat, s: Slot)
    requires Owned(sb, d, ns, owner) && IndirectsOk(e, ms) && ms.Keys == ns.Keys && b !in owner
    requires SlotOk(ns, s) && Addr(e, ms, s) != 0 && Addr(e, ms, s) == if s == slot then b else Addr(d, ns, s)
    ensures Addr(e, ms, s) in owner[b := slot] && owner[b := slot][Addr(e, ms, s)] == s
  {
    if s != slot {
      assert Addr(d, ns, s) in owner && owner[Addr(d, ns, s)] == s;
    }
  }

  /** The disk after bmap has put b into word j of the indirect block. */
  function WithEntry(sb: Super, d: Disk, ind: nat, j: nat, b: word): Disk
    requires IsDisk(sb, d) && b < sb.size && ind < sb.size && j < NINDIRECT
  {
    var e := Allocated(sb, d, b);
    e[ind := SetWord(e[ind], j, b)]
  }

  /** Writing one entry moves that entry's address and no other. */
  lemma EntryAddrs(sb: Super, d: Disk, ns: Inodes, owner: Owners, ino: nat, j: nat, b: word, e: Disk, s: Slot)
    requires Owned(sb, d, ns, owner) && ino in ns && j < NINDIRECT && ns[ino].addrs[NDIRECT] != 0 && SlotOk(ns, s)
    requires |e| == |d| && e[ns[ino].addrs[NDIRECT]] == SetWord(d[ns[ino].addrs[NDIRECT]], j, b)
    requires forall a | a in owner && a != ns[ino].addrs[NDIRECT] :: e[a] == d[a]
    ensures IndirectsOk(e, ns) && Addr(e, ns, s) == if s == Entry(ino, j) then b else Addr(d, ns, s)
  {
    if s.Entry? && ns[s.ino].addrs[NDIRECT] != 0 {
      assert Addr(d, ns, Indirect(s.ino)) in owner && owner[Addr(d, ns, Indirect(s.ino))] == Indirect(s.ino);
      assert Addr(d, ns, Indirect(ino)) in owner && owner[Addr(d, ns, Indirect(ino))] == Indirect(ino);
    }
  }

  /** bmap's allocation of an entry of the indirect block. */
  lemma AllocEntry(sb: Super, d: Disk, ns: Inodes, owner: Owners, ino: nat, j: nat, b: nat)
    requires Own(sb, d, ns, owner) && ino in ns && j < NINDIRECT && ns[ino].addrs[NDIRECT] != 0
    requires Addr(d, ns, Entry(ino, j)) == 0 && b < sb.size && !Used(sb, d, b)
    ensures ns[ino].addrs[NDIRECT] < sb.size
    ensures Own(sb, WithEntry(sb, d, ns[ino].addrs[NDIRECT], j, b), ns, owner[b := Entry(ino, j)])
  {
    var ind := ns[ino].addrs[NDIRECT];
    OwnedIsData(sb, d, ns, owner, Indirect(ino));
    assert sb.Nmeta() <= b && b !in owner && ind in owner by {
      assert Addr(d, ns, Indirect(ino)) == ind;
    }
    AllocatedBits(sb, d, b);
    EntryWritten(sb, d, Allocated(sb, d, b), ind, j, b);
    var e := WithEntry(sb, d, ind, j, b);
    forall s | SlotOk(ns, s) ensures Addr(e, ns, s) == if s == Entry(ino, j) then b else Addr(d, ns, s) {
      EntryAddrs(sb, d, ns, owner, ino, j, b, e, s);
    }
    Reown(sb, d, ns, owner, e, ns, Entry(ino, j), b);
  }

  lemma EntryWritten(sb: Super, d: Disk, f: Disk, ind: nat, j: nat, b: nat)
    requires IsDisk(sb, d) && IsDisk(sb, f) && sb.Nmeta() <= b < sb.size && sb.Nmeta() <= ind < sb.size && ind != b
    requires j < NINDIRECT
    requires f == Allocated(sb, d, b) && SameButBitmap(sb, d[b := ZeroBlock()], f)
    requires forall c | 0 <= c < sb.size :: Used(sb, f, c) == (b == c || Used(sb, d, c))
    ensures var e := WithEntry(sb, d, ind, j, b);
      && e[ind] == SetWord(d[ind], j, b) && (forall a | sb.Nmeta() <= a < sb.size && a != b && a != ind :: e[a] == d[a])
      && forall c | 0 <= c < sb.size :: Used(sb, e, c) == (b == c || Used(sb, d, c))
  {
    var e := WithEntry(sb, d, ind, j, b);
    assert f[ind] == d[ind];
    forall c | 0 <= c < sb.size ensures Used(sb, e, c) == (b == c || Used(sb, d, c)) {
      UsedReadsBitmap(sb, f, e, c);
    }
  }
}
