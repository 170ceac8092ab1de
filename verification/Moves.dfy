/** The single moves of the file layer's operations on the disk and on the inodes in
    memory, with no more than the tests the code makes, and what any run of them keeps. */
module Moves {
  import opened Blocks
  import opened Bitmap
  import opened Ownership
  import opened Dinodes
  import opened FileData
  import opened Truncate
  import opened FileSteps

  /** The disk as the cache reads it, and the inodes in memory. */
  datatype Mem = Mem(disk: Disk, inodes: Inodes)

  /** balloc into addrs[k], k up to NDIRECT, or into word j of the indirect block; data into
      a block of a file; an inode's other fields; iupdate; itrunc. */
  datatype Move =
    | GiveInode(ino: nat, k: nat, b: nat)
    | GiveEntry(ino: nat, j: nat, b: nat)
    | Put(ino: nat, bn: nat, data: Block)
    | SetFields(ino: nat, n: Inode)
    | Update(ino: nat)
    | Empty(ino: nat)

  /** Inode ino or its indirect block names block b. */
  ghost predicate Names(d: Disk, ns: Inodes, ino: nat, b: nat)
    requires IndirectsOk(d, ns)
  {
    b != 0 && exists slot :: SlotOk(ns, slot) && slot.ino == ino && Addr(d, ns, slot) == b
  }

  /** itrunc clears the bits of exactly the blocks the inode names. */
  ghost predicate Cleared(sb: Super, d: Disk, ns: Inodes, ino: nat, e: Disk)
    requires IsDisk(sb, d) && IndirectsOk(d, ns)
  {
    && SameButBitmap(sb, d, e)
    && forall b | 0 <= b < sb.size :: Used(sb, e, b) <==> Used(sb, d, b) && !Names(d, ns, ino, b)
  }

  ghost predicate Moved(sb: Super, m: Mem, n: Mem, move: Move) {
    match m case Mem(d, ns) =>
      && IsDisk(sb, d) && IndirectsOk(d, ns) && move.ino in ns
      && match move
         case GiveInode(ino, k, b) =>
           && k <= NDIRECT && ns[ino].addrs[k] == 0 && b < sb.size && !Used(sb, d, b)
           && n == Mem(Allocated(sb, d, b), ns[ino := SetAddr(ns[ino], k, b)])
         case GiveEntry(ino, j, b) =>
           && j < NINDIRECT && ns[ino].addrs[NDIRECT] != 0 && Word(d[ns[ino].addrs[NDIRECT]], j) == 0
           && b < sb.size && !Used(sb, d, b) && n == Mem(WithEntry(sb, d, ns[ino].addrs[NDIRECT], j, b), ns)
         case Put(ino, bn, data) =>
           && bn < MAXFILE && 0 != BlockAddr(d, ns, ino, bn) < |d|
           && n == Mem(d[BlockAddr(d, ns, ino, bn) := data], ns)
         case SetFields(ino, f) => f.addrs == ns[ino].addrs && n == Mem(d, ns[ino := f])
         case Update(ino) => ino < sb.ninodes && n == Mem(WithDinode(sb, d, ino, ns[ino]), ns)
         case Empty(ino) => n.inodes == ns[ino := Emptied(ns[ino])] && Cleared(sb, d, ns, ino, n.disk)
  }

  // ----- what every move keeps -----

  /** Each block the inodes name has one owner, and the bitmap agrees. */
  ghost predicate Owns(sb: Super, m: Mem) {
    exists owner :: Own(sb, m.disk, m.inodes, owner)
  }

  lemma MoveKeepsOwner(sb: Super, m: Mem, n: Mem, move: Move, o: Owners) returns (p: Owners)
    requires Moved(sb, m, n, move) && Own(sb, m.disk, m.inodes, o)
    ensures Own(sb, n.disk, n.inodes, p)
  {
    hide Own;
    var d, ns := m.disk, m.inodes;
    match move
    case GiveInode(ino, k, b) =>
      AllocInode(sb, d, ns, o, ino, k, b);
      p := o[b := InodeSlot(ino, k)];
    case GiveEntry(ino, j, b) =>
      AllocEntry(sb, d, ns, o, ino, j, b);
      p := o[b := Entry(ino, j)];
    case Put(ino, bn, _) =>
      p := o;
      PutKeepsOwn(sb, d, ns, o, ino, bn, n.disk);
    case SetFields(ino, f) =>
      p := o;
      FieldsKeepOwn(sb, d, ns, o, ino, f);
    case Update(ino) =>
      p := o;
      InodeWritten(sb, d, ns, o, ino, ns[ino]);
    case Empty(ino) =>
      p := Without(o, ino);
      EmptyKeepsOwn(sb, d, ns, o, ino, n.disk);
  }

  /** Data in a block of a file. */
  lemma PutKeepsOwn(sb: Super, d: Disk, ns: Inodes, o: Owners, ino: nat, bn: nat, e: Disk)
    requires Own(sb, d, ns, o) && ino in ns && bn < MAXFILE && BlockAddr(d, ns, ino, bn) != 0 && |e| == |d|
    requires forall c | 0 <= c < |d| && c != BlockAddr(d, ns, ino, bn) :: e[c] == d[c]
    ensures Own(sb, e, ns, o)
  {
    SlotIsOwned(sb, d, ns, o, BlockSlot(ino, bn));
    DataKeepsOwn(sb, d, ns, o, BlockAddr(d, ns, ino, bn), e);
  }

  /** Fields other than the addresses name no block. */
  lemma FieldsKeepOwn(sb: Super, d: Disk, ns: Inodes, o: Owners, ino: nat, f: Inode)
    requires Own(sb, d, ns, o) && ino in ns && f.addrs == ns[ino].addrs
    ensures Own(sb, d, ns[ino := f], o)
  {
    var ms := ns[ino := f];
    forall s | SlotOk(ms, s) ensures SlotOk(ns, s) && IndirectsOk(d, ms) && Addr(d, ms, s) == Addr(d, ns, s) {
    }
  }

  /** The blocks an inode names are those it owns. */
  lemma NamesIsOwns(sb: Super, d: Disk, ns: Inodes, o: Owners, ino: nat, b: nat)
    requires Owned(sb, d, ns, o) && ino in ns
    ensures Names(d, ns, ino, b) <==> b in o && o[b].ino == ino
    ensures Names(d, ns, ino, b) <==> Freed(o, ino, MAXFILE + 1, b)
  {
    if b in o {
      assert SlotOk(ns, o[b]) && Addr(d, ns, o[b]) == b;
    }
  }

  lemma EmptyKeepsOwn(sb: Super, d: Disk, ns: Inodes, o: Owners, ino: nat, e: Disk)
    requires Own(sb, d, ns, o) && ino in ns && Cleared(sb, d, ns, ino, e)
    ensures Own(sb, e, ns[ino := Emptied(ns[ino])], Without(o, ino))
  {
    hide Names;
    forall b | 0 <= b < sb.size ensures Used(sb, e, b) <==> Used(sb, d, b) && !Freed(o, ino, MAXFILE + 1, b) {
      NamesIsOwns(sb, d, ns, o, ino, b);
    }
    TruncatedOwn(sb, d, ns, o, ino, e);
  }

  lemma MoveKeepsOwns(sb: Super, m: Mem, n: Mem, move: Move)
    requires Owns(sb, m) && Moved(sb, m, n, move)
    ensures Owns(sb, n)
  {
    hide Own, Moved;
    var o :| Own(sb, m.disk, m.inodes, o);
    var p := MoveKeepsOwner(sb, m, n, move, o);
  }

  // ----- runs -----

  ghost predicate Path(sb: Super, ms: seq<Mem>, moves: seq<Move>) {
    |ms| == |moves| + 1 && forall i | 0 <= i < |moves| :: Moved(sb, ms[i], ms[i + 1], moves[i])
  }

  ghost predicate Reaches(sb: Super, m: Mem, n: Mem) {
    exists ms, moves :: Path(sb, ms, moves) && ms[0] == m && ms[|moves|] == n
  }

  lemma ReachesSelf(sb: Super, m: Mem)
    ensures Reaches(sb, m, m)
  {
    assert Path(sb, [m], []);
  }

  lemma ReachesBy(sb: Super, m: Mem, n: Mem, q: Mem, move: Move)
    requires Reaches(sb, m, n) && Moved(sb, n, q, move)
    ensures Reaches(sb, m, q)
  {
    hide Moved;
    var ms, moves :| Path(sb, ms, moves) && ms[0] == m && ms[|moves|] == n;
    var ls, more := ms + [q], moves + [move];
    forall i | 0 <= i < |more| ensures Moved(sb, ls[i], ls[i + 1], more[i]) {
      assert i < |moves| ==> Moved(sb, ms[i], ms[i + 1], moves[i]);
    }
    assert Path(sb, ls, more) && ls[0] == m && ls[|more|] == q;
  }

  lemma ReachesVia(sb: Super, m: Mem, n: Mem, q: Mem)
    requires Reaches(sb, m, n) && Reaches(sb, n, q)
    ensures Reaches(sb, m, q)
  {
    hide Moved, Reaches;
    var ms, moves := PathOf(sb, n, q);
    ReachesAlong(sb, m, ms, moves, |moves|);
  }

  lemma PathOf(sb: Super, m: Mem, n: Mem) returns (ms: seq<Mem>, moves: seq<Move>)
    requires Reaches(sb, m, n)
    ensures Path(sb, ms, moves) && ms[0] == m && ms[|moves|] == n
  {
    ms, moves :| Path(sb, ms, moves) && ms[0] == m && ms[|moves|] == n;
  }

  lemma {:induction false} ReachesAlong(sb: Super, m: Mem, ms: seq<Mem>, moves: seq<Move>, k: nat)
    requires Path(sb, ms, moves) && Reaches(sb, m, ms[0]) && k <= |moves|
    ensures Reaches(sb, m, ms[k])
  {
    hide Moved, Reaches;
    if k > 0 {
      ReachesAlong(sb, m, ms, moves, k - 1);
      assert Moved(sb, ms[k - 1], ms[k - 1 + 1], moves[k - 1]);
      ReachesBy(sb, m, ms[k - 1], ms[k], moves[k - 1]);
    }
  }

  lemma {:induction false} PathKeepsOwns(sb: Super, ms: seq<Mem>, moves: seq<Move>, k: nat)
    requires Path(sb, ms, moves) && Owns(sb, ms[0]) && k <= |moves|
    ensures Owns(sb, ms[k])
  {
    hide Moved, Owns;
    if k > 0 {
      PathKeepsOwns(sb, ms, moves, k - 1);
      assert Moved(sb, ms[k - 1], ms[k - 1 + 1], moves[k - 1]);
      MoveKeepsOwns(sb, ms[k - 1], ms[k], moves[k - 1]);
    }
  }

  /** Whatever moves are made, in whatever order: from a state in which each block named has
      one owner and the bitmap agrees they lead to such a state. */
  lemma RunKeepsOwns(sb: Super, m: Mem, n: Mem)
    requires Owns(sb, m) && Reaches(sb, m, n)
    ensures Owns(sb, n)
  {
    hide Owns, Reaches;
    var ms, moves := PathOf(sb, m, n);
    PathKeepsOwns(sb, ms, moves, |moves|);
  }

  lemma {:induction false} PathKeepsKeys(sb: Super, ms: seq<Mem>, moves: seq<Move>, k: nat)
    requires Path(sb, ms, moves) && k <= |moves|
    ensures ms[k].inodes.Keys == ms[0].inodes.Keys
  {
    if k > 0 {
      PathKeepsKeys(sb, ms, moves, k - 1);
      assert Moved(sb, ms[k - 1], ms[k - 1 + 1], moves[k - 1]);
    }
  }

  /** No move makes or loses an inode. */
  lemma RunKeepsKeys(sb: Super, m: Mem, n: Mem)
    requires Reaches(sb, m, n)
    ensures n.inodes.Keys == m.inodes.Keys
  {
    hide Moved, Reaches;
    var ms, moves := PathOf(sb, m, n);
    PathKeepsKeys(sb, ms, moves, |moves|);
  }
}
