/** The file layer's operations on the logical disk, one transaction at a time: the
    block allocator, the block map, truncation, byte reads and writes, and the
    splitting of a long write into transactions. */
module Fs {
  import opened Blocks
  import opened Bitmap
  import opened Ownership
  import opened Dinodes
  import opened FileData
  import opened Truncate
  import opened FileSteps
  import opened BlockCounts
  import opened Moves
  import opened Spending
  import opened Params

  class FileSys {
    const sb: Super
    var disk: Disk
    /** Current inodes; the copy on disk may lag behind until iupdate. */
    var inodes: Inodes
    ghost var owner: Owners
    /** Blocks that log_write has entered in the current transaction. */
    ghost var logged: set<nat>

    ghost function Now(): View
      reads this`disk, this`inodes, this`owner
    {
      View(disk, inodes, owner)
    }

    ghost function Core(): Mem
      reads this`disk, this`inodes
    {
      Mem(disk, inodes)
    }

    ghost predicate Valid()
      reads this`disk, this`inodes, this`owner
    {
      match Now()
      case View(d, ns, o) => Own(sb, d, ns, o) && forall ino | ino in ns :: ino < sb.ninodes
    }

    /** ino is a file that is not a device, with exactly the blocks its size needs. */
    ghost predicate Regular(ino: nat)
      reads this`disk, this`inodes, this`owner
    {
      match Now()
      case View(d, ns, o) => Valid() && ino in ns && ns[ino].typ != T_DEV && Mapped(d, ns, ino)
    }

    ghost predicate Synced(ino: nat)
      reads this`disk, this`inodes, this`owner
      requires Valid() && ino in inodes
    {
      Dinode(sb, disk, ino) == inodes[ino]
    }

    /** The start: the inodes are those on the disk, and the state is in order exactly when
        the disk holds a file system. */
    constructor Mount(sb: Super, disk: Disk)
      requires IsDisk(sb, disk)
      ensures this.sb == sb && Core() == Mem(disk, AllDinodes(sb, disk)) && logged == {}
      ensures Valid() <==> FsOk(sb, disk)
      ensures Valid() ==> forall ino | ino in inodes :: Synced(ino)
    {
      this.sb, this.disk, this.inodes, this.logged := sb, disk, AllDinodes(sb, disk), {};
      ghost var o: Owners := map[];
      if FsOk(sb, disk) {
        o :| Own(sb, disk, AllDinodes(sb, disk), o);
      }
      this.owner := o;
    }

    /** balloc; None is the panic "out of blocks". */
    method Balloc() returns (r: Option<nat>)
      requires IsDisk(sb, disk)
      modifies this`disk, this`logged
      ensures r.None? ==> disk == old(disk) && AllUsed(sb, disk) && logged == old(logged)
      ensures r.Some? ==> r.value < sb.size && !Used(sb, old(disk), r.value)
      ensures r.Some? ==> forall c | 0 <= c < r.value :: Used(sb, old(disk), c)
      ensures r.Some? ==>
        disk == Allocated(sb, old(disk), r.value) && logged == old(logged) + {sb.Bblock(r.value), r.value}
    {
      r := None;
      var b := 0;
      ghost var k := 0;
      while b < sb.size && r.None?
        invariant b == k * BPB && 0 <= k
        invariant r.None? ==> disk == old(disk) && logged == old(logged)
        invariant r.None? ==> forall c | 0 <= c < b && c < sb.size :: Used(sb, disk, c)
        invariant r.Some? ==> r.value < sb.size && !Used(sb, old(disk), r.value)
        invariant r.Some? ==> forall c | 0 <= c < r.value :: Used(sb, old(disk), c)
        invariant r.Some? ==> disk == Allocated(sb, old(disk), r.value)
        invariant r.Some? ==> logged == old(logged) + {sb.Bblock(r.value), r.value}
        decreases sb.size - b
      {
        r := BallocIn(b, k);
        b := b + BPB;
        k := k + 1;
      }
    }

    /** balloc's search of one bitmap block, that of block b, and its finding. */
    method BallocIn(b: nat, ghost k: nat) returns (r: Option<nat>)
      requires IsDisk(sb, disk) && b == k * BPB && b < sb.size
      requires forall c | 0 <= c < b :: Used(sb, disk, c)
      modifies this`disk, this`logged
      ensures r.None? ==> disk == old(disk) && logged == old(logged)
      ensures r.None? ==> forall c | 0 <= c < b + BPB && c < sb.size :: Used(sb, disk, c)
      ensures r.Some? ==> r.value < sb.size && !Used(sb, old(disk), r.value)
      ensures r.Some? ==> forall c | 0 <= c < r.value :: Used(sb, old(disk), c)
      ensures r.Some? ==>
        disk == Allocated(sb, old(disk), r.value) && logged == old(logged) + {sb.Bblock(r.value), r.value}
    {
      var bi := 0;
      while bi < BPB && b + bi < sb.size
        invariant 0 <= bi <= BPB && disk == old(disk) && logged == old(logged)
        invariant forall c | 0 <= c < b + bi && c < sb.size :: Used(sb, disk, c)
      {
        BitOfBlock(sb, disk, b, k, bi);
        if !Bit(disk[sb.Bblock(b)][bi / 8], bi % 8) {
          Take(b, k, bi);
          return Some(b + bi);
        }
        bi := bi + 1;
      }
      return None;
    }

    /** balloc's marking and zeroing of block b + bi, with b the first of its bitmap block. */
    method Take(b: nat, ghost k: nat, bi: nat)
      requires IsDisk(sb, disk) && b == k * BPB && bi < BPB && b + bi < sb.size
      modifies this`disk, this`logged
      ensures disk == Allocated(sb, old(disk), b + bi) && logged == old(logged) + {sb.Bblock(b + bi), b + bi}
    {
      TakenBlock(sb, disk, b, k, bi);
      var x := disk[sb.Bblock(b)][bi / 8];
      disk := PutByte(disk, sb.Bblock(b), bi / 8, OrByte(x, bi % 8));
      logged := logged + {sb.Bblock(b)};
      disk := disk[b + bi := ZeroBlock()];
      logged := logged + {b + bi};
    }

    /** bfree; the result says whether it panicked with "freeing free block". */
    method Bfree(b: nat) returns (panicked: bool)
      requires IsDisk(sb, disk) && b < sb.size
      modifies this`disk, this`logged
      ensures panicked <==> !Used(sb, old(disk), b)
      ensures disk == if panicked then old(disk) else MarkFree(sb, old(disk), b)
      ensures logged == if panicked then old(logged) else old(logged) + {sb.Bblock(b)}
    {
      var bi := b % BPB;
      var x := disk[sb.Bblock(b)][bi / 8];
      assert bi % 8 == b % 8 by {
        BitPlace(sb, b / BPB, bi);
      }
      if !Bit(x, bi % 8) {
        return true;
      }
      disk := PutByte(disk, sb.Bblock(b), bi / 8, ClearByte(x, bi % 8));
      logged := logged + {sb.Bblock(b)};
      return false;
    }

    /** iupdate. */
    method Iupdate(ino: nat)
      requires Valid() && ino in inodes
      modifies this`disk, this`logged
      ensures Valid() && disk == WithDinode(sb, old(disk), ino, inodes[ino]) && logged == old(logged) + {sb.Iblock(ino)}
      ensures forall s | SlotOk(inodes, s) :: Addr(disk, inodes, s) == Addr(old(disk), inodes, s)
      ensures forall b | sb.bmapstart <= b < sb.size :: disk[b] == old(disk)[b]
      ensures Synced(ino)
      ensures forall j | 0 <= j < sb.ninodes && j != ino :: Dinode(sb, disk, j) == Dinode(sb, old(disk), j)
    {
      InodeWritten(sb, disk, inodes, owner, ino, inodes[ino]);
      disk := disk[sb.Iblock(ino) := PutWords(disk[sb.Iblock(ino)], ino % IPB * DWORDS, Packed(inodes[ino]))];
      logged := logged + {sb.Iblock(ino)};
    }

    /** bmap: the address of block bn, allocated if there is none. None is a panic. */
    method Bmap(ino: nat, bn: nat) returns (r: Option<word>)
      requires Valid() && ino in inodes
      modifies this
      ensures r.None? <==>
        bn >= MAXFILE || FreeBlocks(sb, old(disk)) < Lacking(old(disk), old(inodes), ino, bn)
      ensures r.Some? ==> bn < MAXFILE && Valid()
      ensures r.Some? ==> Spent(sb, old(Core()), Core(), Lacking(old(disk), old(inodes), ino, bn))
      ensures r.Some? ==> AfterMap(sb, old(Now()), Now(), ino, bn, r.value)
      ensures r.Some? && BlockAddr(old(disk), old(inodes), ino, bn) != 0 ==> logged == old(logged)
      ensures r.Some? && BlockAddr(old(disk), old(inodes), ino, bn) == 0 ==>
        LogAfterMap(sb, old(logged), logged, inodes, ino, r.value)
    {
      hide BitsOk, FreeBlocks, Reaches, Grew;
      ghost var d, ns, o := disk, inodes, owner;
      if bn < NDIRECT {
        SpentNothing(sb, Core());
        NoneFree(sb, disk);
        if inodes[ino].addrs[bn] == 0 {
          var b := Balloc();
          if b.None? {
            return None;
          }
          inodes := inodes[ino := SetAddr(inodes[ino], bn, b.value)];
          owner := owner[b.value := Direct(ino, bn)];
          DirectExtended(sb, d, ns, o, ino, bn, b.value);
          InodeGiven(sb, d, ns, o, ino, bn, b.value);
        }
        return Some(inodes[ino].addrs[bn]);
      }
      if bn >= MAXFILE {
        return None;
      }
      r := BmapIndirect(ino, bn);
    }

    /** bmap beyond the direct blocks. */
    method BmapIndirect(ino: nat, bn: nat) returns (r: Option<word>)
      requires Valid() && ino in inodes && NDIRECT <= bn < MAXFILE
      modifies this
      ensures r.None? <==> FreeBlocks(sb, old(disk)) < Lacking(old(disk), old(inodes), ino, bn)
      ensures r.Some? ==> Valid()
      ensures r.Some? ==> Spent(sb, old(Core()), Core(), Lacking(old(disk), old(inodes), ino, bn))
      ensures r.Some? ==> AfterMap(sb, old(Now()), Now(), ino, bn, r.value)
      ensures r.Some? && BlockAddr(old(disk), old(inodes), ino, bn) != 0 ==> logged == old(logged)
      ensures r.Some? && BlockAddr(old(disk), old(inodes), ino, bn) == 0 ==>
        LogAfterMap(sb, old(logged), logged, inodes, ino, r.value)
    {
      hide BitsOk, FreeBlocks, Reaches, Grew;
      ghost var d, ns, o, l := disk, inodes, owner, logged;
      var j := bn - NDIRECT;
      if inodes[ino].addrs[NDIRECT] != 0 {
        r := BmapEntry(ino, j);
        return;
      }
      NoneFree(sb, disk);
      var b := Balloc();
      if b.None? {
        return None;
      }
      inodes := inodes[ino := SetAddr(inodes[ino], NDIRECT, b.value)];
      owner := owner[b.value := Indirect(ino)];
      IndirectAdded(sb, d, ns, o, ino, b.value, j);
      InodeGiven(sb, d, ns, o, ino, NDIRECT, b.value);
      BothLacking(sb, d, ns, o, ino, b.value, j);
      ghost var l1, m1 := logged, Core();
      r := BmapEntry(ino, j);
      if r.Some? {
        SpentTwice(sb, Mem(d, ns), m1, Core(), 1, 1, 2);
        BothExtended(sb, d, ns, o, ino, b.value, disk, owner, bn, r.value);
        LogBoth(sb, l, l1, logged, inodes, ino, b.value, r.value);
      }
    }

    /** bmap of word j of an indirect block that is there. */
    method BmapEntry(ino: nat, j: nat) returns (r: Option<word>)
      requires Valid() && ino in inodes && j < NINDIRECT && inodes[ino].addrs[NDIRECT] != 0
      modifies this
      ensures r.None? <==> FreeBlocks(sb, old(disk)) < Lacking(old(disk), old(inodes), ino, NDIRECT + j)
      ensures r.Some? ==> Valid() && inodes == old(inodes)
      ensures r.Some? ==> Spent(sb, old(Core()), Core(), Lacking(old(disk), old(inodes), ino, NDIRECT + j))
      ensures r.Some? ==> AfterMap(sb, old(Now()), Now(), ino, NDIRECT + j, r.value)
      ensures r.Some? && BlockAddr(old(disk), old(inodes), ino, NDIRECT + j) != 0 ==> logged == old(logged)
      ensures r.Some? && BlockAddr(old(disk), old(inodes), ino, NDIRECT + j) == 0 ==>
        LogAfterMap(sb, old(logged), logged, inodes, ino, r.value)
    {
      hide BitsOk, FreeBlocks, Reaches, Grew;
      ghost var d, o := disk, owner;
      SpentNothing(sb, Core());
      NoneFree(sb, disk);
      var ind := inodes[ino].addrs[NDIRECT];
      var a := Word(disk[ind], j);
      if a == 0 {
        var b := Balloc();
        if b.None? {
          return None;
        }
        a := b.value;
        EntryExtended(sb, d, inodes, o, ino, j, a);
        EntryGiven(sb, d, inodes, o, ino, j, a);
        disk := disk[ind := SetWord(disk[ind], j, a)];
        logged := logged + {ind};
        owner := owner[a := Entry(ino, j)];
      }
      return Some(a);
    }

    /** itrunc. bfree never panics in it. */
    method Itrunc(ino: nat)
      requires Valid() && ino in inodes
      modifies this
      ensures Valid() && inodes == old(inodes)[ino := Emptied(old(inodes)[ino])] && Synced(ino)
      ensures forall b | 0 <= b < sb.size ::
        Used(sb, disk, b) <==> Used(sb, old(disk), b) && !(b in old(owner) && old(owner)[b].ino == ino)
      ensures OthersSame(old(disk), old(inodes), disk, inodes, ino)
      ensures forall j | 0 <= j < sb.ninodes && j != ino :: Dinode(sb, disk, j) == Dinode(sb, old(disk), j)
      ensures Reaches(sb, old(Core()), Core())
    {
      hide Addr, BitsOk, Reaches, Dinode;
      ghost var d, ns, o := disk, inodes, owner;
      FreeDirect(ino);
      var ind := inodes[ino].addrs[NDIRECT];
      if ind != 0 {
        FreeIndirect(ino, d, ns);
      } else {
        NoIndirect(sb, d, ns, o, ino, disk, inodes);
      }
      AfterTrunc(sb, d, ns, o, ino, disk, inodes);
      inodes := inodes[ino := inodes[ino].(size := 0)];
      owner := Without(o, ino);
      ghost var e := disk;
      DinodesFrame(sb, d, e);
      Iupdate(ino);
      AfterUpdate(sb, d, ns, o, ino, e, inodes, disk);
      TruncationReaches(sb, d, ns, o, ino, e, disk);
    }

    /** itrunc's loop over the direct blocks. */
    method FreeDirect(ino: nat)
      requires Valid() && ino in inodes
      modifies this`disk, this`inodes, this`logged
      ensures Truncating(sb, old(disk), old(inodes), owner, ino, NDIRECT, disk, inodes)
    {
      ghost var d, ns := disk, inodes;
      var i := 0;
      while i < NDIRECT
        invariant 0 <= i <= NDIRECT && Truncating(sb, d, ns, owner, ino, i, disk, inodes)
      {
        FreeStep(sb, d, ns, owner, ino, i, disk);
        assert SlotAt(ino, i) == Direct(ino, i);
        if inodes[ino].addrs[i] != 0 {
          var panicked := Bfree(inodes[ino].addrs[i]);
          assert !panicked;
          inodes := inodes[ino := SetAddr(inodes[ino], i, 0)];
        }
        i := i + 1;
      }
    }

    /** One pass of that loop, for word j of the indirect block. */
    method FreeEntry(ino: nat, j: nat, a: word, ghost d: Disk, ghost ns: Inodes, ghost p: nat, ghost q: nat)
      requires Own(sb, d, ns, owner) && ino in ns && j < NINDIRECT && p == NDIRECT + j && q == p + 1
      requires a == Addr(d, ns, Entry(ino, j)) && Truncating(sb, d, ns, owner, ino, p, disk, inodes)
      modifies this`disk, this`logged
      ensures Truncating(sb, d, ns, owner, ino, q, disk, inodes)
    {
      FreeStep(sb, d, ns, owner, ino, p, disk);
      assert SlotAt(ino, p) == Entry(ino, j);
      if a != 0 {
        var panicked := Bfree(a);
        assert !panicked;
      }
    }

    /** itrunc's loop over the entries of the indirect block, and the freeing of that block. */
    method FreeIndirect(ino: nat, ghost d: Disk, ghost ns: Inodes)
      requires Own(sb, d, ns, owner) && ino in ns && ns[ino].addrs[NDIRECT] != 0
      requires Truncating(sb, d, ns, owner, ino, NDIRECT, disk, inodes)
      modifies this`disk, this`inodes, this`logged
      ensures Truncating(sb, d, ns, owner, ino, MAXFILE + 1, disk, inodes)
    {
      OwnedIsData(sb, d, ns, owner, Indirect(ino));
      var ind := inodes[ino].addrs[NDIRECT];
      var bp := disk[ind];
      assert bp == d[ind];
      var j := 0;
      while j < NINDIRECT
        invariant 0 <= j <= NINDIRECT
        invariant Truncating(sb, d, ns, owner, ino, NDIRECT + j, disk, inodes)
      {
        var next := j + 1;
        FreeEntry(ino, j, Word(bp, j), d, ns, NDIRECT + j, NDIRECT + next);
        j := next;
      }
      FreeStep(sb, d, ns, owner, ino, MAXFILE, disk);
      var panicked := Bfree(ind);
      assert !panicked;
      inodes := inodes[ino := SetAddr(inodes[ino], NDIRECT, 0)];
    }

    /** readi of a regular file: the return value and the bytes copied out. */
    method Readi(ino: nat, off: word, n: word) returns (r: int, dst: seq<byte>)
      requires Regular(ino)
      modifies this
      ensures Now() == old(Now()) && logged == old(logged)
      ensures r == -1 <==> off > inodes[ino].size || Wrap(off + n) < off
      ensures r == -1 ==> dst == []
      ensures r != -1 ==> r == Min(n, inodes[ino].size - off) && dst == Content(disk, inodes, ino)[off..off + r]
    {
      if off > inodes[ino].size || Wrap(off + n) < off {
        return -1, [];
      }
      var m0: nat := n;
      if Wrap(off + n) > inodes[ino].size {
        m0 := inodes[ino].size - off;
      }
      dst := ReadBlocks(ino, off, m0);
      r := m0;
    }

    /** readi's loop. */
    method ReadBlocks(ino: nat, off: nat, n: nat) returns (dst: seq<byte>)
      requires Regular(ino) && off + n <= inodes[ino].size
      modifies this
      ensures Now() == old(Now()) && logged == old(logged)
      ensures dst == Content(disk, inodes, ino)[off..off + n]
    {
      var at, tot := off, 0;
      dst := [];
      ghost var c, v := Content(disk, inodes, ino), Now();
      while tot < n
        invariant 0 <= tot <= n && at == off + tot
        invariant Now() == v && logged == old(logged)
        invariant dst == c[off..at]
      {
        var m := Min(n - tot, BSIZE - at % BSIZE);
        SliceOfBlock(sb, disk, inodes, owner, ino, at, m);
        SliceGrows(c, off, at, m);
        var a := Bmap(ino, at / BSIZE);
        dst := dst + disk[a.value][at % BSIZE..at % BSIZE + m];
        tot, at := tot + m, at + m;
      }
    }

    /** writei of a regular file. None is the panic "out of blocks": the file would take more
        blocks than are free. */
    method Writei(ino: nat, off: word, src: seq<byte>) returns (r: Option<int>)
      requires Regular(ino) && |src| < 0x1_0000_0000
      modifies this
      ensures r.None? <==>
        !Refused(old(inodes)[ino].size, off, |src|) &&
        FreeBlocks(sb, old(disk)) < Growth(old(inodes)[ino].size, off + |src|)
      ensures r == Some(-1) <==> Refused(old(inodes)[ino].size, off, |src|)
      ensures r == Some(-1) ==>
        disk == old(disk) && inodes == old(inodes) && owner == old(owner) && logged == old(logged)
      ensures r.Some? && r != Some(-1) ==> r == Some(|src|) && Regular(ino)
      ensures r.Some? && r != Some(-1) ==> Wrote(sb, old(Now()), Now(), ino, off, src)
      ensures r.Some? && r != Some(-1) ==>
        Spent(sb, old(Core()), Core(), Growth(old(inodes)[ino].size, off + |src|))
      ensures r.Some? && old(Synced(ino)) ==> Synced(ino)
      ensures r.Some? ==> forall j | 0 <= j < sb.ninodes && j != ino :: Dinode(sb, disk, j) == Dinode(sb, old(disk), j)
      ensures r.Some? && |src| <= CHUNK ==>
        |logged - old(logged)| <= LOGSIZE && (sb.size < BPB ==> |logged - old(logged)| <= 17)
    {
      hide BitsOk, Addr, ByteAt, OthersSame, FreeBlocks, Growth, Spent, Writing;
      if off > inodes[ino].size || Wrap(off + |src|) < off {
        return Some(-1);
      }
      if Wrap(off + |src|) > MAXFILE * BSIZE {
        return Some(-1);
      }
      ghost var v0 := Now();
      WriteStart(sb, Now(), ino, off, src);
      var ok, t := WriteBlocks(ino, off, src);
      if !ok {
        return None;
      }
      ghost var m, grown := Core(), Growth(v0.inodes[ino].size, off + |src|);
      WriteSize(ino, off, src, v0, t);
      SpentTwice(sb, MemOf(v0), m, Core(), grown, 0, grown);
      return Some(|src|);
    }

    /** writei's loop; false is a panic in balloc. */
    method WriteBlocks(ino: nat, off: nat, src: seq<byte>) returns (ok: bool, ghost t: TxLog)
      requires Valid() && ino in inodes && off <= inodes[ino].size && off + |src| <= MAXFILE * BSIZE
      requires Writing(sb, Now(), Now(), ino, off, off, src)
      modifies this
      ensures ok <==> Growth(old(inodes)[ino].size, off + |src|) <= FreeBlocks(sb, old(disk))
      ensures ok ==> Spent(sb, old(Core()), Core(), Growth(old(inodes)[ino].size, off + |src|))
      ensures ok ==> Valid() && Writing(sb, old(Now()), Now(), ino, off, off + |src|, src)
      ensures ok ==> t.base == old(logged) && ino in inodes && LogWithin(sb, t, logged, inodes, ino, off, off + |src|)
    {
      hide BitsOk, Addr, ByteAt, Growth, Spent, IndirectLog;
      ghost var v0 := Now();
      ghost var size: nat := v0.inodes[ino].size;
      t := TxLog(logged, {}, {});
      var at: nat, tot := off, 0;
      SpentNothing(sb, Core());
      GrowthMore(size, off, off);
      while tot < |src|
        invariant 0 <= tot <= |src| && at == off + tot && Valid() && inodes.Keys == v0.inodes.Keys
        invariant Writing(sb, v0, Now(), ino, off, at, src) && Spent(sb, MemOf(v0), Core(), Growth(size, at))
        invariant at == off || at % BSIZE == 0 || tot == |src|
        invariant t.base == old(logged) && ino in inodes && LogWithin(sb, t, logged, inodes, ino, off, at)
      {
        var m := Min(|src| - tot, BSIZE - at % BSIZE);
        var next := at + m;
        ok, t := WriteBlock(ino, at, src, tot, m, v0, off, t, next);
        if !ok {
          GrowthMore(size, next, off + |src|);
          return;
        }
        NextAt(at, m, |src| - tot);
        tot, at := tot + m, next;
      }
      SpentLeaves(sb, MemOf(v0), Core(), Growth(size, at));
      ok := true;
    }

    /** One pass of writei's loop: bmap, copy of m bytes, log_write; false is a panic in
        balloc. */
    method WriteBlock(
        ino: nat, at: nat, src: seq<byte>, tot: nat, m: nat, ghost v0: View, ghost off: nat, ghost t: TxLog,
        ghost next: nat)
      returns (ok: bool, ghost u: TxLog)
      requires IsDisk(sb, v0.disk) && IndirectsOk(v0.disk, v0.inodes) && ino in v0.inodes
      requires off <= v0.inodes[ino].size && v0.inodes.Keys == inodes.Keys
      requires at == off + tot && 0 < m && tot + m <= |src| && m <= BSIZE - at % BSIZE && off + |src| <= MAXFILE * BSIZE
      requires Valid() && Writing(sb, v0, Now(), ino, off, at, src)
      requires (at == off || at % BSIZE == 0) && next == at + m
      requires LogWithin(sb, t, logged, inodes, ino, off, at)
      requires Spent(sb, MemOf(v0), Core(), Growth(v0.inodes[ino].size, at))
      modifies this
      ensures !ok ==> FreeBlocks(sb, v0.disk) < Growth(v0.inodes[ino].size, next)
      ensures ok ==> Spent(sb, MemOf(v0), Core(), Growth(v0.inodes[ino].size, next))
      ensures ok ==> ino in inodes && Writing(sb, v0, Now(), ino, off, next, src)
      ensures ok ==> u.base == t.base && LogWithin(sb, u, logged, inodes, ino, off, next)
      ensures ok ==> Valid() && inodes.Keys == old(inodes.Keys)
    {
      u := t;
      ghost var v, l := Now(), logged;
      hide BitsOk, Addr, Spent, Growth, Lacking, FreeBlocks;
      var a := Bmap(ino, at / BSIZE);
      if a.None? {
        PassLacks(sb, v0, v, ino, off, at, src, m, next);
        return false, u;
      }
      ghost var w := Now();
      ghost var x := WriteStep(sb, v0, v, ino, off, at, src, w, a.value, m, next);
      PassSpends(sb, v0, v, ino, off, at, src, w, a.value, m, next, x);
      u := LogStep(sb, t, l, v, ino, off, at, Max(v0.inodes[ino].size, at), w, a.value, m, next, logged);
      CopyIn(a.value, at, off, src, tot, m);
      assert Now() == x;
      ok := true;
    }

    /** memmove into the block, and log_write. */
    method CopyIn(a: nat, at: nat, ghost off: nat, src: seq<byte>, tot: nat, m: nat)
      requires a < |disk| && at == off + tot && tot + m <= |src| && m <= BSIZE - at % BSIZE
      modifies this`disk, this`logged
      ensures disk == WithBytes(old(disk), a, at, off, m, src) && logged == old(logged) + {a}
    {
      assert src[at - off..at - off + m] == src[tot..tot + m];
      disk := disk[a := Patched(disk[a], at % BSIZE, src[tot..tot + m])];
      logged := logged + {a};
    }

    /** The end of writei: the size is set and the inode written back if the file has grown. */
    method WriteSize(ino: nat, off: nat, src: seq<byte>, ghost v0: View, ghost t: TxLog)
      requires IsDisk(sb, v0.disk) && IndirectsOk(v0.disk, v0.inodes) && ino in v0.inodes && off <= v0.inodes[ino].size
      requires off + |src| <= MAXFILE * BSIZE
      requires Valid() && Writing(sb, v0, Now(), ino, off, off + |src|, src)
      requires LogWithin(sb, t, logged, inodes, ino, off, off + |src|)
      modifies this
      ensures Spent(sb, old(Core()), Core(), 0)
      ensures Wrote(sb, v0, Now(), ino, off, src) && Valid()
      ensures Dinode(sb, v0.disk, ino) == v0.inodes[ino] ==> Synced(ino)
      ensures forall j | 0 <= j < sb.ninodes && j != ino :: Dinode(sb, disk, j) == Dinode(sb, v0.disk, j)
      ensures |src| <= CHUNK ==> |logged - t.base| <= LOGSIZE && (sb.size < BPB ==> |logged - t.base| <= 17)
    {
      hide BitsOk, Addr, Spent, ByteAt, IndirectLog, LogWithin, MappedTo;
      ghost var v, l := Now(), logged;
      SpentNothing(sb, Core());
      DinodesSame(sb, v0.disk, disk);
      ghost var lim := Max(v0.inodes[ino].size, off + |src|);
      if |src| > 0 && off + |src| > inodes[ino].size {
        SetSize(ino, off + |src|);
      } else {
        SameSize(v.inodes, ino, lim);
      }
      WriteDone(sb, v0, v, ino, off, src, Now(), lim);
      if |src| <= CHUNK {
        OneMore(l, logged, sb.Iblock(ino));
        LogTotal(sb, t, l, v.inodes, ino, off, |src|, sb.Iblock(ino), logged);
      }
    }

    /** ip->size = size; iupdate(ip). */
    method SetSize(ino: nat, size: word)
      requires Valid() && ino in inodes && MappedTo(disk, inodes, ino, size)
      modifies this
      ensures Valid()
      ensures Now() == View(WithDinode(sb, old(disk), ino, old(inodes)[ino].(size := size)),
        old(inodes)[ino := old(inodes)[ino].(size := size)], old(owner))
      ensures forall b | sb.bmapstart <= b < sb.size :: disk[b] == old(disk)[b]
      ensures Synced(ino) && logged == old(logged) + {sb.Iblock(ino)}
      ensures Spent(sb, old(Core()), Core(), 0)
      ensures forall j | 0 <= j < sb.ninodes && j != ino :: Dinode(sb, disk, j) == Dinode(sb, old(disk), j)
    {
      HeaderSet(sb, disk, inodes, owner, ino, inodes[ino].(size := size), disk, size);
      SizeSpends(sb, disk, inodes, owner, ino, size);
      inodes := inodes[ino := inodes[ino].(size := size)];
      Iupdate(ino);
    }

    /** end_op: the transaction is committed; log_write would have panicked had it not fitted. */
    method EndOp()
      requires |logged| <= LOGSIZE
      modifies this`logged
      ensures logged == {}
    {
      logged := {};
    }
  }
}
