/** Freeing every block of one inode, slot by slot. */
module Truncate {
  import opened Blocks
  import opened Bitmap
  import opened Ownership
  import opened FileData

  /** itrunc's order over the slots of an inode. */
  function Position(s: Slot): nat {
    match s
    case Direct(_, k) => k
    case Entry(_, j) => NDIRECT + j
    case Indirect(_) => MAXFILE
  }

  function SlotAt(ino: nat, p: nat): Slot {
    if p < MAXFILE then BlockSlot(ino, p) else Indirect(ino)
  }

  predicate Freed(owner: Owners, ino: nat, p: nat, b: nat) {
    b in owner && owner[b].ino == ino && Position(owner[b]) < p
  }

  /** The disk when the slots of ino before position p have been freed. */
  ghost predicate FreedTo(sb: Super, d: Disk, owner: Owners, ino: nat, p: nat, e: Disk)
    requires IsDisk(sb, d)
  {
    && SameButBitmap(sb, d, e)
    && forall b | 0 <= b < sb.size :: Used(sb, e, b) <==> Used(sb, d, b) && !Freed(owner, ino, p, b)
  }

  /** The next slot's block, if any, is still marked used, and clearing its bit moves on by one slot. */
  lemma FreeStep(sb: Super, d: Disk, ns: Inodes, owner: Owners, ino: nat, p: nat, e: Disk)
    requires Own(sb, d, ns, owner) && ino in ns && p <= MAXFILE && FreedTo(sb, d, owner, ino, p, e)
    ensures var a := Addr(d, ns, SlotAt(ino, p));
      if a == 0 then FreedTo(sb, d, owner, ino, p + 1, e)
      else a < sb.size && Used(sb, e, a) && FreedTo(sb, d, owner, ino, p + 1, MarkFree(sb, e, a))
  {
    var s := SlotAt(ino, p);
    var a := Addr(d, ns, s);
    assert SlotOk(ns, s) && Position(s) == p;
    forall b | b in owner ensures Freed(owner, ino, p + 1, b) <==> Freed(owner, ino, p, b) || b == a {
      assert Addr(d, ns, owner[b]) == b && SlotOk(ns, owner[b]);
      if owner[b].ino == ino && Position(owner[b]) == p {
        assert owner[b] == s;
      }
      assert a != 0 ==> owner[a] == s;
    }
    if a != 0 {
      assert a in owner && owner[a] == s;
      FreedBits(sb, e, a);
    }
  }

  function NoAddrs(): (a: seq<word>)
    ensures |a| == NDIRECT + 1
  {
    seq(NDIRECT + 1, i => 0)
  }

  function Emptied(n: Inode): Inode {
    n.(size := 0, addrs := NoAddrs())
  }

  function Without(owner: Owners, ino: nat): Owners {
    map b | b in owner && owner[b].ino != ino :: owner[b]
  }

  /** itrunc: the inode owns nothing, exactly its blocks became free, other files are untouched. */
  lemma TruncatedOwn(sb: Super, d: Disk, ns: Inodes, owner: Owners, ino: nat, e: Disk)
    requires Own(sb, d, ns, owner) && ino in ns && FreedTo(sb, d, owner, ino, MAXFILE + 1, e)
    ensures Own(sb, e, ns[ino := Emptied(ns[ino])], Without(owner, ino))
    ensures OthersSame(d, ns, e, ns[ino := Emptied(ns[ino])], ino)
  {
    var ms, o := ns[ino := Emptied(ns[ino])], Without(owner, ino);
    assert forall a | a in owner :: sb.Nmeta() <= a && e[a] == d[a];
    forall s | SlotOk(ns, s)
      ensures IndirectsOk(e, ms) && Addr(e, ms, s) == if s.ino == ino then 0 else Addr(d, ns, s)
    {
      AddrFrame(sb, d, ns, owner, e, s);
    }
    forall b | 0 <= b < sb.size ensures Used(sb, e, b) <==> b < sb.Nmeta() || b in o {
      if b in owner {
        assert Position(owner[b]) <= MAXFILE by {
          assert SlotOk(ns, owner[b]);
        }
      }
    }
  }

  /** itrunc under way: the slots before position p are freed, the direct ones among them zeroed. */
  ghost predicate Truncating(sb: Super, d: Disk, ns: Inodes, owner: Owners, ino: nat, p: nat, e: Disk, ms: Inodes)
    requires IsDisk(sb, d) && ino in ns
  {
    && FreedTo(sb, d, owner, ino, p, e) && ms.Keys == ns.Keys && ino in ms
    && (forall k | k in ns && k != ino :: ms[k] == ns[k])
    && ms[ino] == ns[ino].(addrs := ms[ino].addrs)
    && (forall k | 0 <= k < NDIRECT && k < p :: ms[ino].addrs[k] == 0)
    && (forall k | p <= k < NDIRECT :: ms[ino].addrs[k] == ns[ino].addrs[k])
    && (p <= MAXFILE ==> ms[ino].addrs[NDIRECT] == ns[ino].addrs[NDIRECT])
    && (p > MAXFILE ==> ms[ino].addrs[NDIRECT] == 0)
  }

  /** Without an indirect block nothing is left after the direct ones. */
  lemma NoIndirect(sb: Super, d: Disk, ns: Inodes, owner: Owners, ino: nat, e: Disk, ms: Inodes)
    requires Own(sb, d, ns, owner) && ino in ns && ns[ino].addrs[NDIRECT] == 0
    requires Truncating(sb, d, ns, owner, ino, NDIRECT, e, ms)
    ensures Truncating(sb, d, ns, owner, ino, MAXFILE + 1, e, ms)
  {
    forall b | b in owner ensures Freed(owner, ino, MAXFILE + 1, b) <==> Freed(owner, ino, NDIRECT, b) {
      assert SlotOk(ns, owner[b]) && Addr(d, ns, owner[b]) == b;
    }
  }

  /** The end of itrunc, up to and including its iupdate. */
  lemma AfterTrunc(sb: Super, d: Disk, ns: Inodes, owner: Owners, ino: nat, e: Disk, ms: Inodes)
    requires Own(sb, d, ns, owner) && ino in ns && ino < sb.ninodes
    requires Truncating(sb, d, ns, owner, ino, MAXFILE + 1, e, ms)
    ensures var ls := ms[ino := ms[ino].(size := 0)];
      && ls == ns[ino := Emptied(ns[ino])] && Own(sb, e, ls, Without(owner, ino)) && OthersSame(d, ns, e, ls, ino)
  {
    assert ms[ino].addrs == NoAddrs();
    TruncatedOwn(sb, d, ns, owner, ino, e);
  }

  lemma AfterUpdate(sb: Super, d: Disk, ns: Inodes, owner: Owners, ino: nat, e: Disk, ls: Inodes, f: Disk)
    requires Own(sb, d, ns, owner) && FreedTo(sb, d, owner, ino, MAXFILE + 1, e) && Own(sb, e, ls, Without(owner, ino))
    requires OthersSame(d, ns, e, ls, ino)
    requires |f| == |e| && (forall b | sb.bmapstart <= b < sb.size :: f[b] == e[b]) && IndirectsOk(f, ls)
    requires forall s | SlotOk(ls, s) :: Addr(f, ls, s) == Addr(e, ls, s)
    ensures OthersSame(d, ns, f, ls, ino)
    ensures forall b | 0 <= b < sb.size :: Used(sb, f, b) <==> Used(sb, d, b) && !(b in owner && owner[b].ino == ino)
  {
    forall s | SlotOk(ls, s) && s.ino != ino && Addr(e, ls, s) != 0 ensures f[Addr(e, ls, s)] == e[Addr(e, ls, s)] {
      SlotIsOwned(sb, e, ls, Without(owner, ino), s);
    }
    OthersTransitive(d, ns, e, ls, f, ls, ino);
    UsedFrame(sb, e, f);
    forall b | b in owner && owner[b].ino == ino ensures Freed(owner, ino, MAXFILE + 1, b) {
      assert SlotOk(ns, owner[b]);
    }
  }
}
