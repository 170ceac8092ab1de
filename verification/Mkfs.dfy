/** The image builder, up to the state the kernel starts in. */
module Mkfs {
  import opened Blocks
  import opened Bitmap
  import opened Ownership
  import opened Dinodes
  import opened FileData
  import opened BlockCounts
  import opened FileSteps
  import opened Fs
  import opened Names
  import opened Directories
  import opened Drafts

  const T_FILE := 2

  /** n more bytes for a file of the given size: no larger than a file can be, and enough blocks. */
  predicate Room(sb: Super, free: nat, size: nat, n: nat) {
    size + n <= MAXFILE * BSIZE && free + BlocksFor(size + n) <= Limit(sb) + BlocksFor(size)
  }

  /** Too few blocks for what comes next are too few for all. */
  lemma NoRoom(sb: Super, free0: nat, free: nat, size: nat, n: nat, off: nat, next: nat)
    requires free + BlocksFor(size) == free0 + BlocksFor(off) && free + BlocksAt(off) > Limit(sb)
    requires BlocksFor(next) == BlocksFor(off) + BlocksAt(off) && next <= size + n
    ensures !Room(sb, free0, size, n)
  {
    BlocksGrow(next, size + n);
  }

  class Image {
    const sb: Super
    var disk: Disk
    var freeblock: nat
    var freeinode: nat
    ghost var inodes: Inodes
    ghost var owner: Owners

    ghost function Now(): Draft
      reads this`disk, this`freeblock, this`inodes, this`owner
    {
      Draft(disk, freeblock, inodes, owner)
    }

    /** The mapping part of iappend's loop, for a file mapped up to off: the address of the
        block at off, counted off if it has none; false when the image, or its one bitmap
        block, has too few blocks left. */
    method Map(ino: nat, din: Inode, fbn: nat, ghost off: nat) returns (ok: bool, x: nat, dout: Inode)
      requires DraftOk(sb, Now()) && ino in inodes && inodes[ino] == din && fbn == off / BSIZE < MAXFILE
      requires MappedTo(Seen(sb, Now()).disk, inodes, ino, off)
      modifies this`disk, this`freeblock, this`inodes, this`owner
      ensures ok <==> old(freeblock) + BlocksAt(off) <= Limit(sb)
      ensures ok ==> freeblock == old(freeblock) + BlocksAt(off)
      ensures ok ==> DraftOk(sb, Now()) && ino in inodes && inodes[ino] == dout
      ensures ok ==> AfterMap(sb, Seen(sb, old(Now())), Seen(sb, Now()), ino, fbn, x)
    {
      hide BitsOk, Blank, Front, Extended, MappedTo;
      dout, x, ok := din, 0, true;
      ghost var g := Now();
      BlocksMissing(Seen(sb, g).disk, inodes, ino, off, fbn);
      if fbn >= NDIRECT {
        if dout.addrs[NDIRECT] == 0 {
          ok, x, dout := MapFresh(ino, din, fbn - NDIRECT);
        } else {
          ok, x := MapWord(ino, din, fbn - NDIRECT);
        }
        return;
      }
      if dout.addrs[fbn] == 0 {
        if Full(sb, freeblock) {
          return false, 0, dout;
        }
        CountIntoInode(sb, g, ino, fbn);
        dout := SetAddr(dout, fbn, freeblock);
        inodes, owner, freeblock := inodes[ino := dout], owner[freeblock := Direct(ino, fbn)], freeblock + 1;
        assert Now() == WithDirect(g, ino, fbn);
      }
      x := dout.addrs[fbn];
    }

    /** The same beyond the direct blocks with the indirect block there, for word j of it. */
    method MapWord(ino: nat, din: Inode, j: nat) returns (ok: bool, x: nat)
      requires DraftOk(sb, Now()) && ino in inodes && inodes[ino] == din && j < NINDIRECT && din.addrs[NDIRECT] != 0
      modifies this`disk, this`freeblock, this`owner
      ensures var unmapped := Addr(Seen(sb, old(Now())).disk, inodes, Entry(ino, j)) == 0;
        && (ok <==> !unmapped || !Full(sb, old(freeblock)))
        && (ok ==> freeblock == old(freeblock) + if unmapped then 1 else 0)
      ensures ok ==> DraftOk(sb, Now()) && AfterMap(sb, Seen(sb, old(Now())), Seen(sb, Now()), ino, NDIRECT + j, x)
    {
      ghost var g := Now();
      EntryWord(sb, g, ino, j);
      var ind := din.addrs[NDIRECT];
      x, ok := Word(disk[ind], j), true;
      if x == 0 {
        if Full(sb, freeblock) {
          return false, 0;
        }
        CountIntoEntry(sb, g, ino, j);
        x := freeblock;
        disk := disk[ind := SetWord(disk[ind], j, x)];
        owner, freeblock := owner[x := Entry(ino, j)], freeblock + 1;
        assert Now() == WithNewEntry(g, ino, j);
      }
    }

    /** The same with the indirect block to be counted off first. */
    method MapFresh(ino: nat, din: Inode, j: nat) returns (ok: bool, x: nat, dout: Inode)
      requires DraftOk(sb, Now()) && ino in inodes && inodes[ino] == din && j < NINDIRECT && din.addrs[NDIRECT] == 0
      modifies this`disk, this`freeblock, this`inodes, this`owner
      ensures ok <==> old(freeblock) + 2 <= Limit(sb)
      ensures ok ==> freeblock == old(freeblock) + 2
      ensures ok ==> DraftOk(sb, Now()) && ino in inodes && inodes[ino] == dout
      ensures ok ==> AfterMap(sb, Seen(sb, old(Now())), Seen(sb, Now()), ino, NDIRECT + j, x)
    {
      hide BitsOk, Blank, Front, Extended;
      ghost var g := Now();
      if Full(sb, freeblock) {
        return false, 0, din;
      }
      CountIndirect(sb, g, ino, j);
      dout := SetAddr(din, NDIRECT, freeblock);
      inodes, owner, freeblock := inodes[ino := dout], owner[freeblock := Indirect(ino)], freeblock + 1;
      var ind := dout.addrs[NDIRECT];
      x := Word(disk[ind], j);
      if Full(sb, freeblock) {
        return false, 0, dout;
      }
      CountBoth(sb, g, ino, j);
      x := freeblock;
      disk := disk[ind := SetWord(disk[ind], j, x)];
      owner, freeblock := owner[x := Entry(ino, j)], freeblock + 1;
      assert Now() == WithNewEntry(WithIndirect(g, ino), ino, j);
      ok := true;
    }

    /** iappend's loop at offset off: what is in place, what it took, and, if the rest of the
        last block was zero before, that it still is. */
    ghost predicate Appending(
        v0: View, ino: nat, din: Inode, off0: nat, off: nat, xp: seq<byte>, free0: nat, tail: bool)
      requires IndirectsOk(v0.disk, v0.inodes) && ino in v0.inodes && off0 <= off <= off0 + |xp|
      reads this`disk, this`freeblock, this`inodes, this`owner
    {
      && DraftOk(sb, Now()) && ino in inodes && inodes[ino] == din && off <= MAXFILE * BSIZE
      && Writing(sb, v0, Seen(sb, Now()), ino, off0, off, xp)
      && freeblock + BlocksFor(off0) == free0 + BlocksFor(off)
      && IndirectsOk(Seen(sb, Now()).disk, inodes) && (tail ==> TailZero(Seen(sb, Now()).disk, inodes, ino, off))
    }

    /** iappend; false when it gives up: beyond the largest file, or out of blocks. */
    method Iappend(ino: nat, xp: seq<byte>) returns (ok: bool)
      requires DraftOk(sb, Now()) && ino in inodes && ino < sb.ninodes && Dinode(sb, disk, ino) == inodes[ino]
      requires Mapped(Marked(sb, disk, freeblock), inodes, ino)
      modifies this`disk, this`freeblock, this`inodes, this`owner
      ensures ok <==> Room(sb, old(freeblock), old(inodes)[ino].size, |xp|)
      ensures ok ==> Appended(sb, old(Now()), Now(), ino, old(inodes)[ino].size, xp)
    {
      hide Blank, Front, Writing, Dinode, Bitmap.Used, BitsOk, Addr, TailZero;
      ghost var v0, free0 := Seen(sb, Now()), freeblock;
      var din := Dinode(sb, disk, ino);
      var off: nat, off0, end := din.size, din.size, din.size + |xp|;
      ghost var tail := TailZero(v0.disk, v0.inodes, ino, off0);
      WriteStart(sb, v0, ino, off, xp);
      while off < end
        invariant off0 <= off <= end && Appending(v0, ino, din, off0, off, xp, free0, tail)
      {
        var fbn := off / BSIZE;
        if fbn >= MAXFILE {
          return false;
        }
        var next := off + Min(end - off, (fbn + 1) * BSIZE - off);
        ok, din := AppendBlock(ino, din, v0, off0, off, next, xp, free0, tail);
        if !ok {
          return;
        }
        off := next;
      }
      AppendDone(ino, v0, off0, end, xp, din, free0, tail);
      MarkedDinodes(sb, old(disk), free0);
      ok := true;
    }

    /** One pass of iappend's loop, for the bytes off .. next - 1 of the file. */
    method AppendBlock(
        ino: nat, din: Inode, ghost v0: View, off0: nat, off: nat, next: nat, xp: seq<byte>, ghost free0: nat,
        ghost tail: bool)
      returns (ok: bool, dout: Inode)
      requires IndirectsOk(v0.disk, v0.inodes) && ino in v0.inodes && off0 == v0.inodes[ino].size
      requires off0 <= off < next <= off0 + |xp| && next - off <= BSIZE - off % BSIZE && off / BSIZE < MAXFILE
      requires Appending(v0, ino, din, off0, off, xp, free0, tail)
      modifies this`disk, this`freeblock, this`inodes, this`owner
      ensures ok ==> Appending(v0, ino, dout, off0, next, xp, free0, tail)
      ensures !ok ==> !Room(sb, free0, off0, |xp|)
    {
      ghost var v, free := Seen(sb, Now()), freeblock;
      var n1 := next - off;
      BlocksNext(off, n1, next);
      var x;
      ok, x, dout := Map(ino, din, off / BSIZE, off);
      if ok {
        PutBytes(ino, v0, v, off0, off, next, xp, x, n1);
        assert tail ==> TailZero(Seen(sb, Now()).disk, inodes, ino, next);
      } else {
        NoRoom(sb, free0, free, off0, |xp|, off, next);
      }
    }

    /** rsect, bcopy, wsect of a block that holds file data. */
    method PutBytes(
        ino: nat, ghost v0: View, ghost v: View, off0: nat, off: nat, next: nat, xp: seq<byte>, x: nat, n1: nat)
      requires DraftOk(sb, Now()) && IndirectsOk(v0.disk, v0.inodes) && ino in v0.inodes && off0 == v0.inodes[ino].size
      requires off0 <= off < next == off + n1 <= off0 + |xp| && n1 <= BSIZE - off % BSIZE && next <= MAXFILE * BSIZE
      requires Writing(sb, v0, v, ino, off0, off, xp) && AfterMap(sb, v, Seen(sb, Now()), ino, off / BSIZE, x)
      modifies this`disk
      ensures DraftOk(sb, Now()) && Writing(sb, v0, Seen(sb, Now()), ino, off0, next, xp)
      ensures ino in inodes && IndirectsOk(Seen(sb, Now()).disk, inodes)
      ensures IndirectsOk(v.disk, v.inodes) && ino in v.inodes
      ensures TailZero(v.disk, v.inodes, ino, off) ==> TailZero(Seen(sb, Now()).disk, inodes, ino, next)
    {
      hide BitsOk, Addr, Blank, Front, TailZero, AfterMap;
      ghost var g := Now();
      ghost var h := PutInDraft(sb, g, v0, v, ino, off0, off, xp, x, n1, next);
      disk := disk[x := Patched(disk[x], off % BSIZE, xp[off - off0..off - off0 + n1])];
      assert Now() == h;
      AppendTail(sb, v0, v, ino, off0, off, xp, Seen(sb, g), x, n1, next, Seen(sb, h));
    }

    /** The end of iappend: the size is set and the inode written. */
    method AppendDone(
        ino: nat, ghost v0: View, ghost off0: nat, end: nat, ghost xp: seq<byte>, din: Inode, ghost free0: nat,
        ghost tail: bool)
      requires IsDisk(sb, v0.disk) && IndirectsOk(v0.disk, v0.inodes) && ino in v0.inodes && off0 == v0.inodes[ino].size
      requires end == off0 + |xp| && ino < sb.ninodes && Appending(v0, ino, din, off0, end, xp, free0, tail)
      modifies this`disk, this`inodes
      ensures DraftOk(sb, Now()) && ino in inodes && Wrote(sb, v0, Seen(sb, Now()), ino, off0, xp)
      ensures IndirectsOk(Seen(sb, Now()).disk, inodes) && (tail ==> TailZero(Seen(sb, Now()).disk, inodes, ino, end))
      ensures forall j | 0 <= j < sb.ninodes ::
        Dinode(sb, disk, j) == if j == ino then inodes[j] else Dinode(sb, v0.disk, j)
    {
      hide BitsOk, Addr, Blank, Front, Wrote, Writing, TailZero, Dinode, WithDinode, Own;
      ghost var h := AppendInDraft(sb, Now(), v0, ino, off0, xp, end);
      var dout := din.(size := end);
      inodes := inodes[ino := dout];
      disk := WithDinode(sb, disk, ino, dout);
      assert Now() == h;
    }

    /** ialloc: the next inode, of the given type, empty. */
    method Ialloc(typ: short) returns (inum: nat)
      requires DraftOk(sb, Now()) && freeinode < sb.ninodes && freeinode in inodes && inodes[freeinode] == NoInode()
      modifies this`disk, this`inodes, this`freeinode
      ensures inum == old(freeinode) && freeinode == inum + 1 && Alloced(sb, old(Now()), Now(), inum, typ)
    {
      inum := freeinode;
      ghost var h := AllocInDraft(sb, Now(), inum, typ);
      freeinode := freeinode + 1;
      disk := WithDinode(sb, disk, inum, NewInode(typ));
      inodes := inodes[inum := NewInode(typ)];
      assert Now() == h;
    }

    /** The end of main: the root's size is rounded up, and the bitmap written; false if it
        does not fit in one block. */
    method Finish(root: nat) returns (ok: bool)
      requires DraftOk(sb, Now()) && root in inodes && root < sb.ninodes && Dinode(sb, disk, root) == inodes[root]
      requires Mapped(Seen(sb, Now()).disk, inodes, root)
      modifies this`disk, this`inodes
      ensures ok <==> freeblock < BPB
      ensures ok ==> RootRounded(sb, Seen(sb, old(Now())), View(disk, inodes, owner), root) && Front(sb, disk)
      ensures ok ==> forall j | 0 <= j < sb.ninodes ::
        Dinode(sb, disk, j) == if j == root then inodes[j] else Dinode(sb, old(disk), j)
    {
      hide BitsOk, Addr, Blank, Dinode, TailZero, Front;
      var din := Dinode(sb, disk, root);
      ghost var h := RoundInDraft(sb, Now(), root, din.size);
      var off := Rounded(din.size);
      disk := WithDinode(sb, disk, root, din.(size := off));
      inodes := inodes[root := din.(size := off)];
      assert Now() == h;
      ghost var d := disk;
      ok := Balloc(freeblock);
      if ok {
        FrontStays(sb, d, disk);
      }
    }

    /** balloc: the bitmap block, built bit by bit. */
    method Balloc(used: nat) returns (ok: bool)
      requires IsDisk(sb, disk)
      modifies this`disk
      ensures ok <==> used < BPB
      ensures disk == if ok then Marked(sb, old(disk), used) else old(disk)
    {
      if used >= BPB {
        return false;
      }
      var buf := ZeroBlock();
      var i := 0;
      while i < used
        invariant 0 <= i <= used && buf == FirstBits(i)
      {
        buf := buf[i / 8 := OrByte(buf[i / 8], i % 8)];
        i := i + 1;
      }
      disk := disk[sb.bmapstart := buf];
      return true;
    }

    /** An iappend to the root directory. */
    method Add(root: nat, xp: seq<byte>, ghost dir: seq<byte>, ghost files: seq<seq<byte>>) returns (ok: bool)
      requires root == 1 && Building(sb, Now(), dir, files)
      modifies this`disk, this`freeblock, this`inodes, this`owner
      ensures ok <==> Room(sb, old(freeblock), |dir|, |xp|)
      ensures ok ==> Building(sb, Now(), dir + xp, files)
    {
      hide Own, Blank, Front, Dinode, TailZero, Built, Wrote;
      ghost var g := Now();
      RootReady(sb, g, dir, files);
      ok := Iappend(root, xp);
      if ok {
        RootAppended(sb, g, Now(), dir, files, xp);
      }
    }

    /** The root directory and its two links. */
    method AddRoot(dot: seq<byte>, dotdot: seq<byte>, ghost names: seq<seq<byte>>) returns (ok: bool)
      requires Tidy(sb, Now()) && freeinode == 1 && 2 <= sb.ninodes && freeblock == sb.Nmeta()
      requires forall i | 0 <= i < sb.ninodes :: inodes[i] == NoInode()
      requires |dot| == DIRSIZ && |dotdot| == DIRSIZ && NamesOk(names)
      modifies this`disk, this`freeblock, this`inodes, this`owner, this`freeinode
      ensures freeinode == 2
      ensures ok <==> sb.Nmeta() + 1 <= Limit(sb)
      ensures ok ==> Building(sb, Now(), DirBytes(dot, dotdot, names, 0), [])
    {
      hide Own, Blank, Front, Dinode, Built;
      ghost var g := Now();
      var root := Ialloc(T_DIR);
      RootAdded(sb, g, Now());
      ok := Add(root, Dirent(root, dot), [], []);
      if ok {
        ghost var first := [] + Dirent(root, dot);
        assert first == Dirent(root, dot);
        ok := Add(root, Dirent(root, dotdot), first, []);
      }
    }

    /** One file of main's loop. */
    method AddFile(ghost dir: seq<byte>, ghost files: seq<seq<byte>>, name: seq<byte>, bytes: seq<byte>)
      returns (ok: bool)
      requires Building(sb, Now(), dir, files) && |name| == DIRSIZ && |dir| + DESIZE <= MAXFILE * BSIZE
      requires freeinode == 2 + |files| < sb.ninodes <= 0x1_0000
      modifies this`disk, this`freeblock, this`inodes, this`owner, this`freeinode
      ensures freeinode == old(freeinode) + 1
      ensures ok <==> |bytes| <= MAXFILE * BSIZE && UsedBy(sb, |dir| + DESIZE, files + [bytes]) <= Limit(sb)
      ensures ok ==> Building(sb, Now(), dir + Dirent(2 + |files|, name), files + [bytes])
    {
      hide Tidy, Built, FileBlocks;
      var inum := AddInode(dir, files);
      FileBlocksMore(files, bytes);
      FileBlocksMore(files, []);
      ok := Add(1, Dirent(inum, name), dir, files + [[]]);
      if ok {
        ghost var entries := dir + Dirent(inum, name);
        ok := AddBytes(inum, bytes, entries, files);
      }
    }

    /** ialloc of a file. */
    method AddInode(ghost dir: seq<byte>, ghost files: seq<seq<byte>>) returns (inum: nat)
      requires Building(sb, Now(), dir, files) && freeinode == 2 + |files| < sb.ninodes
      modifies this`disk, this`inodes, this`freeinode
      ensures inum == 2 + |files| && freeinode == inum + 1 && Building(sb, Now(), dir, files + [[]])
    {
      ghost var g := Now();
      NextInode(sb, g, dir, files);
      inum := Ialloc(T_FILE);
      InodeAdded(sb, g, Now(), dir, files, inum);
    }

    /** main's copying of one file into the image. */
    method AddBytes(inum: nat, bytes: seq<byte>, ghost dir: seq<byte>, ghost files: seq<seq<byte>>) returns (ok: bool)
      requires inum == 2 + |files| && Building(sb, Now(), dir, files + [[]])
      modifies this`disk, this`freeblock, this`inodes, this`owner
      ensures ok <==> |bytes| <= MAXFILE * BSIZE && UsedBy(sb, |dir|, files + [bytes]) <= Limit(sb)
      ensures ok ==> Building(sb, Now(), dir, files + [bytes])
    {
      hide Tidy, Built;
      var done := 0;
      assert bytes[..0] == [];
      while done < |bytes|
        invariant 0 <= done <= |bytes| && Building(sb, Now(), dir, files + [bytes[..done]])
      {
        var next := done + Min(|bytes| - done, BSIZE);
        ok := AddPart(inum, bytes, dir, files, done, next);
        if !ok {
          return;
        }
        done := next;
      }
      assert bytes[..done] == bytes;
      BuildingFits(sb, Now(), dir, files + [bytes]);
      assert (files + [bytes])[|files|] == bytes;
      ok := true;
    }

    /** One buffer of that copying. */
    method AddPart(
        inum: nat, bytes: seq<byte>, ghost dir: seq<byte>, ghost files: seq<seq<byte>>, done: nat, next: nat)
      returns (ok: bool)
      requires inum == 2 + |files| && done < next <= |bytes| && Building(sb, Now(), dir, files + [bytes[..done]])
      modifies this`disk, this`freeblock, this`inodes, this`owner
      ensures ok ==> Building(sb, Now(), dir, files + [bytes[..next]])
      ensures !ok ==> |bytes| > MAXFILE * BSIZE || UsedBy(sb, |dir|, files + [bytes]) > Limit(sb)
    {
      hide Building, Own, Blank, Front, Dinode, TailZero, Wrote, FileBlocks;
      ghost var g, last := Now(), bytes[..done];
      var part := bytes[done..next];
      FileReady(sb, g, dir, files, last, inum);
      ok := Iappend(inum, part);
      if ok {
        FileAppended(sb, g, Now(), dir, files, last, inum, part);
        PrefixGrows(bytes, done, next);
      } else {
        FileBlocksMore(files, bytes);
        BlocksGrow(next, |bytes|);
      }
    }

    /** main's loop over the files. */
    method AddFiles(dot: seq<byte>, dotdot: seq<byte>, names: seq<seq<byte>>, files: seq<seq<byte>>) returns (ok: bool)
      requires |dot| == DIRSIZ && |dotdot| == DIRSIZ && NamesOk(names) && |names| == |files|
      requires freeinode == 2 && sb.ninodes == NINODES && Building(sb, Now(), DirBytes(dot, dotdot, names, 0), [])
      modifies this`disk, this`freeblock, this`inodes, this`owner, this`freeinode
      ensures ok <==> Sizes(files) && UsedBy(sb, DESIZE * (2 + |files|), files) <= Limit(sb)
      ensures ok ==> Building(sb, Now(), DirBytes(dot, dotdot, names, |names|), files)
    {
      hide Tidy, Built;
      var k := 0;
      assert files[..0] == [];
      while k < |names|
        invariant 0 <= k <= |names| && freeinode == 2 + k
        invariant Building(sb, Now(), DirBytes(dot, dotdot, names, k), files[..k])
      {
        var next := k + 1;
        FilesNext(files, k, next);
        ok := AddFile(DirBytes(dot, dotdot, names, k), files[..k], names[k], files[k]);
        if !ok {
          FilesGrow(sb, files, next);
          return;
        }
        k := next;
      }
      assert files[..k] == files;
      BuildingFits(sb, Now(), DirBytes(dot, dotdot, names, |names|), files);
      ok := true;
    }

    /** main's last steps, on the root. */
    method Close(ghost dir: seq<byte>, ghost files: seq<seq<byte>>) returns (ok: bool)
      requires Building(sb, Now(), dir, files)
      modifies this`disk, this`inodes
      ensures ok <==> UsedBy(sb, |dir|, files) < BPB
      ensures ok ==> ImageOk(sb, View(disk, inodes, owner), dir, files) && Front(sb, disk)
      ensures ok ==> forall j | 0 <= j < sb.ninodes :: Dinode(sb, disk, j) == inodes[j]
    {
      hide Own, Blank, Dinode, TailZero, Built, Front;
      ghost var g := Now();
      RootReady(sb, g, dir, files);
      ok := Finish(1);
      if ok {
        Finished(sb, Seen(sb, g), View(disk, inodes, owner), dir, files);
      }
    }

    /** The blank image with its superblock. */
    constructor (size: nat, nlog: nat)
      requires Layout(size, nlog).Ok() && Layout(size, nlog).Nmeta() <= BPB
      ensures sb == Layout(size, nlog) && freeinode == 1 && freeblock == sb.Nmeta()
      ensures Tidy(sb, Now()) && forall i | 0 <= i < sb.ninodes :: inodes[i] == NoInode()
    {
      var lay := Layout(size, nlog);
      sb := lay;
      var zeroed: Disk := seq(size, i => ZeroBlock());
      var words: seq<word> := [size, size - lay.Nmeta(), NINODES, nlog, 2, lay.inodestart, lay.bmapstart];
      disk := zeroed[1 := PutWords(ZeroBlock(), 0, words)];
      freeblock := lay.Nmeta();
      freeinode := 1;
      inodes := NoInodes(NINODES);
      owner := map[];
      new;
      hide Tidy;
      BlankIsTidy(sb, disk);
    }
  }

  lemma BlankIsTidy(sb: Super, d: Disk)
    requires sb.Ok() && sb.inodestart >= 2 && sb.ninodes == NINODES && sb.Nmeta() <= BPB && |d| == sb.size
    requires d == seq(sb.size, i => ZeroBlock())[1 := PutWords(ZeroBlock(), 0, SuperWords(sb))]
    ensures Tidy(sb, Draft(d, sb.Nmeta(), NoInodes(NINODES), map[]))
  {
    hide Front, Blank;
    FrontAtStart(sb, d);
    BlankFrom(d, 2, sb.bmapstart);
    BlankFrom(d, 2, sb.Nmeta());
    EmptyOwn(sb, d, NoInodes(NINODES));
    forall i | 0 <= i < sb.ninodes ensures Dinode(sb, d, i) == NoInode() {
      BlankAt(d, 2, sb.Iblock(i));
      ZeroDinode(sb, d, i);
    }
  }

  lemma BlankFrom(d: Disk, from: nat, to: nat)
    requires Blank(d, from) && from <= to
    ensures Blank(d, to)
  {
  }

  lemma BlankAt(d: Disk, from: nat, b: nat)
    requires Blank(d, from) && from <= b < |d|
    ensures d[b] == ZeroBlock()
  {
  }

  /** Bytes written where a tail is zero leave the rest of the block zero. */
  lemma AppendTail(
      sb: Super, v0: View, v: View, ino: nat, off0: nat, off: nat, src: seq<byte>, w: View, a: nat, m: nat, next: nat,
      x: View)
    requires IndirectsOk(v0.disk, v0.inodes) && ino in v0.inodes && off0 <= off < next == off + m <= off0 + |src|
    requires Writing(sb, v0, v, ino, off0, off, src) && off0 == v0.inodes[ino].size
    requires m <= BSIZE - off % BSIZE && next <= MAXFILE * BSIZE && AfterMap(sb, v, w, ino, off / BSIZE, a)
    requires a < |w.disk| && x == w.(disk := WithBytes(w.disk, a, off, off0, m, src))
    requires IndirectsOk(x.disk, x.inodes) && ino in x.inodes
    ensures IndirectsOk(v.disk, v.inodes) && ino in v.inodes
    ensures TailZero(v.disk, v.inodes, ino, off) ==> TailZero(x.disk, x.inodes, ino, next)
  {
    if TailZero(v.disk, v.inodes, ino, off) {
      TailStep(sb, v0, v, ino, off0, off, src, w, a, m, next, x);
    }
  }

  // ----- whole steps on drafts -----

  /** What an iappend that goes through does. */
  ghost predicate Appended(sb: Super, g: Draft, h: Draft, ino: nat, size: nat, xp: seq<byte>)
    requires DraftOk(sb, g) && ino in g.inodes && size == g.inodes[ino].size
  {
    match h case Draft(_, free, ms, _) =>
      && DraftOk(sb, h) && ino in ms && free + BlocksFor(size) == g.freeblock + BlocksFor(size + |xp|)
      && Wrote(sb, Seen(sb, g), Seen(sb, h), ino, size, xp)
      && (TailZero(Seen(sb, g).disk, g.inodes, ino, size) ==> TailZero(Seen(sb, h).disk, ms, ino, size + |xp|))
      && forall j | 0 <= j < sb.ninodes :: Dinode(sb, h.disk, j) == if j == ino then ms[j] else Dinode(sb, g.disk, j)
  }

  /** What ialloc does. */
  ghost predicate Alloced(sb: Super, g: Draft, h: Draft, inum: nat, typ: short)
    requires DraftOk(sb, g)
  {
    match h case Draft(_, free, ms, _) =>
      && DraftOk(sb, h) && ms == g.inodes[inum := NewInode(typ)] && free == g.freeblock
      && OthersSame(Seen(sb, g).disk, g.inodes, Seen(sb, h).disk, ms, inum) && Mapped(Seen(sb, h).disk, ms, inum)
      && forall j | 0 <= j < sb.ninodes :: Dinode(sb, h.disk, j) == if j == inum then ms[j] else Dinode(sb, g.disk, j)
  }

  /** Between two steps of main: the draft is in order and every inode is on disk. */
  ghost predicate Tidy(sb: Super, g: Draft) {
    match g
    case Draft(d, n, ns, o) =>
      && DraftOk(sb, g) && (forall i :: i in ns <==> 0 <= i < sb.ninodes)
      && forall i | 0 <= i < sb.ninodes :: Dinode(sb, d, i) == ns[i]
  }

  /** The same with what has been built so far and the blocks it has taken. */
  ghost predicate Building(sb: Super, g: Draft, dir: seq<byte>, files: seq<seq<byte>>) {
    match g
    case Draft(_, free, _, _) =>
      Tidy(sb, g) && Built(sb, Seen(sb, g), dir, files) && free == UsedBy(sb, |dir|, files)
  }

  lemma TidyAfter(sb: Super, g: Draft, h: Draft, ino: nat)
    requires Tidy(sb, g) && DraftOk(sb, h) && h.inodes.Keys == g.inodes.Keys && ino in h.inodes
    requires forall j | 0 <= j < sb.ninodes ::
      Dinode(sb, h.disk, j) == if j == ino then h.inodes[j] else Dinode(sb, g.disk, j)
    requires forall j | j in g.inodes && j != ino :: h.inodes[j] == g.inodes[j]
    ensures Tidy(sb, h)
  {
    assert forall i :: i in h.inodes <==> i in h.inodes.Keys;
  }

  /** An iappend to the root, or to the newest file. */
  lemma RootReady(sb: Super, g: Draft, dir: seq<byte>, files: seq<seq<byte>>)
    requires Building(sb, g, dir, files)
    ensures DraftOk(sb, g) && 1 in g.inodes && 1 < sb.ninodes && Dinode(sb, g.disk, 1) == g.inodes[1]
    ensures IndirectsOk(Seen(sb, g).disk, g.inodes) && Mapped(Seen(sb, g).disk, g.inodes, 1)
    ensures g.inodes[1].size == |dir|
  {
    BuiltRoot(sb, Seen(sb, g), dir, files);
  }

  lemma RootAppended(sb: Super, g: Draft, h: Draft, dir: seq<byte>, files: seq<seq<byte>>, xp: seq<byte>)
    requires Building(sb, g, dir, files) && DraftOk(sb, g) && 1 in g.inodes && g.inodes[1].size == |dir|
    requires Appended(sb, g, h, 1, |dir|, xp)
    ensures Building(sb, h, dir + xp, files)
  {
    BuiltRoot(sb, Seen(sb, g), dir, files);
    BuiltEntry(sb, Seen(sb, g), Seen(sb, h), dir, files, xp);
    TidyAfter(sb, g, h, 1);
  }

  lemma FileReady(sb: Super, g: Draft, dir: seq<byte>, files: seq<seq<byte>>, last: seq<byte>, ino: nat)
    requires Building(sb, g, dir, files + [last]) && ino == 2 + |files|
    ensures DraftOk(sb, g) && ino in g.inodes && ino < sb.ninodes && Dinode(sb, g.disk, ino) == g.inodes[ino]
    ensures IndirectsOk(Seen(sb, g).disk, g.inodes) && Mapped(Seen(sb, g).disk, g.inodes, ino)
    ensures g.inodes[ino].size == |last| && g.freeblock == UsedBy(sb, |dir|, files) + BlocksFor(|last|)
  {
    LastFile(sb, Seen(sb, g), dir, files, last);
    FileBlocksMore(files, last);
  }

  lemma FileAppended(
      sb: Super, g: Draft, h: Draft, dir: seq<byte>, files: seq<seq<byte>>, last: seq<byte>, ino: nat, xp: seq<byte>)
    requires Building(sb, g, dir, files + [last]) && ino == 2 + |files|
    requires DraftOk(sb, g) && ino in g.inodes && g.inodes[ino].size == |last| && Appended(sb, g, h, ino, |last|, xp)
    ensures Building(sb, h, dir, files + [last + xp])
  {
    hide BitsOk, Addr, Blank, Front, Dinode, TailZero, Built, Content;
    BuiltBytes(sb, Seen(sb, g), Seen(sb, h), dir, files, last, xp, ino);
    TidyAfter(sb, g, h, ino);
    FileBlocksMore(files, last);
    FileBlocksMore(files, last + xp);
  }

  lemma NextInode(sb: Super, g: Draft, dir: seq<byte>, files: seq<seq<byte>>)
    requires Building(sb, g, dir, files) && 2 + |files| < sb.ninodes
    ensures DraftOk(sb, g) && 2 + |files| in g.inodes && g.inodes[2 + |files|] == NoInode()
  {
  }

  lemma InodeAdded(sb: Super, g: Draft, h: Draft, dir: seq<byte>, files: seq<seq<byte>>, ino: nat)
    requires Building(sb, g, dir, files) && ino == 2 + |files| < sb.ninodes && DraftOk(sb, g)
    requires Alloced(sb, g, h, ino, T_FILE)
    ensures Building(sb, h, dir, files + [[]])
  {
    hide Blank, Front, Dinode, OthersSame, Mapped, Built;
    BuiltInode(sb, Seen(sb, g), Seen(sb, h), dir, files, ino);
    TidyAfter(sb, g, h, ino);
    FileBlocksMore(files, []);
  }

  lemma RootAdded(sb: Super, g: Draft, h: Draft)
    requires Tidy(sb, g) && DraftOk(sb, g) && 2 <= sb.ninodes && g.freeblock == sb.Nmeta()
    requires forall i | 0 <= i < sb.ninodes :: g.inodes[i] == NoInode()
    requires Alloced(sb, g, h, 1, T_DIR)
    ensures Building(sb, h, [], [])
  {
    hide BitsOk, Addr, Blank, Front, Dinode, OthersSame;
    Started(sb, Seen(sb, h));
    TidyAfter(sb, g, h, 1);
  }

  /** What is built fits, and so does the newest file. */
  lemma BuildingFits(sb: Super, g: Draft, dir: seq<byte>, files: seq<seq<byte>>)
    requires Building(sb, g, dir, files)
    ensures UsedBy(sb, |dir|, files) <= Limit(sb)
    ensures forall k | 0 <= k < |files| :: |files[k]| <= MAXFILE * BSIZE
  {
    forall k | 0 <= k < |files| ensures |files[k]| <= MAXFILE * BSIZE {
      assert HoldsFile(Seen(sb, g).disk, g.inodes, 2 + k, files[k]);
    }
  }

  // ----- what has been built -----

  predicate NamesOk(names: seq<seq<byte>>) {
    |names| <= NINODES - 2 && forall k | 0 <= k < |names| :: |names[k]| == DIRSIZ
  }

  predicate Sizes(files: seq<seq<byte>>) {
    forall k | 0 <= k < |files| :: |files[k]| <= MAXFILE * BSIZE
  }

  /** The blocks of all files. */
  function FileBlocks(files: seq<seq<byte>>): nat {
    if files == [] then 0 else FileBlocks(files[..|files| - 1]) + BlocksFor(|files[|files| - 1]|)
  }

  /** The blocks of the metadata, of a directory of n bytes, and of the files. */
  function UsedBy(sb: Super, n: nat, files: seq<seq<byte>>): nat {
    sb.Nmeta() + BlocksFor(n) + FileBlocks(files)
  }

  lemma FileBlocksMore(files: seq<seq<byte>>, last: seq<byte>)
    ensures FileBlocks(files + [last]) == FileBlocks(files) + BlocksFor(|last|)
  {
    assert (files + [last])[..|files|] == files;
  }

  lemma FilesNext(files: seq<seq<byte>>, k: nat, next: nat)
    requires k < |files| && next == k + 1
    ensures files[..k] + [files[k]] == files[..next]
  {
  }

  /** Too many blocks for the first files are too many for all. */
  lemma {:induction false} FilesGrow(sb: Super, files: seq<seq<byte>>, k: nat)
    requires k <= |files|
    ensures UsedBy(sb, DESIZE * (2 + k), files[..k]) <= UsedBy(sb, DESIZE * (2 + |files|), files)
    decreases |files| - k
  {
    if k < |files| {
      FilesNext(files, k, k + 1);
      FileBlocksMore(files[..k], files[k]);
      BlocksGrow(DESIZE * (2 + k), DESIZE * (2 + (k + 1)));
      FilesGrow(sb, files, k + 1);
    } else {
      assert files[..k] == files;
    }
  }

  /** The root directory with the entries of the first n files. */
  function DirBytes(dot: seq<byte>, dotdot: seq<byte>, names: seq<seq<byte>>, n: nat): (b: seq<byte>)
    requires |dot| == DIRSIZ && |dotdot| == DIRSIZ && n <= |names| && NamesOk(names)
    ensures |b| == DESIZE * (2 + n)
  {
    if n == 0 then Dirent(1, dot) + Dirent(1, dotdot)
    else DirBytes(dot, dotdot, names, n - 1) + Dirent(1 + n, names[n - 1])
  }

  lemma PrefixGrows(b: seq<byte>, i: nat, j: nat)
    requires i <= j <= |b|
    ensures b[..i] + b[i..j] == b[..j]
  {
  }

  /** The files built so far: directory bytes in the root, zeros behind them in its last
      block, and file k in inode 2 + k. */
  ghost predicate Built(sb: Super, v: View, dir: seq<byte>, files: seq<seq<byte>>) {
    match v case View(d, ns, o) =>
      && Own(sb, d, ns, o) && (forall i :: i in ns <==> 0 <= i < sb.ninodes) && |files| + 2 <= sb.ninodes
      && ns[0] == NoInode() && ns[1].typ == T_DIR && ns[1].nlink == 1 && Mapped(d, ns, 1) && Content(d, ns, 1) == dir
      && TailZero(d, ns, 1, |dir|)
      && (forall k | 0 <= k < |files| :: HoldsFile(d, ns, 2 + k, files[k]))
      && forall i | 2 + |files| <= i < sb.ninodes :: ns[i] == NoInode()
  }

  /** Inode i is a file with one link and these bytes. */
  ghost predicate HoldsFile(d: Disk, ns: Inodes, i: nat, bytes: seq<byte>) {
    && IndirectsOk(d, ns) && i in ns && ns[i].typ == T_FILE && ns[i].nlink == 1 && Mapped(d, ns, i)
    && Content(d, ns, i) == bytes
  }

  lemma OtherFileSame(d: Disk, ns: Inodes, e: Disk, ms: Inodes, ino: nat, i: nat, bytes: seq<byte>)
    requires HoldsFile(d, ns, i, bytes) && i != ino && IndirectsOk(e, ms) && OthersSame(d, ns, e, ms, ino)
    ensures HoldsFile(e, ms, i, bytes)
  {
    OtherContentSame(d, ns, e, ms, ino, i);
  }

  lemma BuiltRoot(sb: Super, v: View, dir: seq<byte>, files: seq<seq<byte>>)
    requires Built(sb, v, dir, files)
    ensures IndirectsOk(v.disk, v.inodes) && 1 in v.inodes && v.inodes[1].size == |dir| && 1 < sb.ninodes
    ensures Mapped(v.disk, v.inodes, 1) && TailZero(v.disk, v.inodes, 1, |dir|)
  {
  }

  /** Appending to the root directory. */
  lemma BuiltEntry(sb: Super, v: View, w: View, dir: seq<byte>, files: seq<seq<byte>>, xp: seq<byte>)
    requires Built(sb, v, dir, files) && IndirectsOk(v.disk, v.inodes) && 1 in v.inodes && v.inodes[1].size == |dir|
    requires Wrote(sb, v, w, 1, |dir|, xp) && TailZero(w.disk, w.inodes, 1, |dir| + |xp|)
    ensures Built(sb, w, dir + xp, files)
  {
    hide BitsOk, Addr, Mapped, TailZero;
    assert Spliced(dir, |dir|, xp) == dir + xp;
    forall k | 0 <= k < |files| ensures HoldsFile(w.disk, w.inodes, 2 + k, files[k]) {
      OtherFileSame(v.disk, v.inodes, w.disk, w.inodes, 1, 2 + k, files[k]);
    }
  }

  lemma LastFile(sb: Super, v: View, dir: seq<byte>, files: seq<seq<byte>>, last: seq<byte>)
    requires Built(sb, v, dir, files + [last])
    ensures 2 + |files| in v.inodes && 2 + |files| < sb.ninodes && Own(sb, v.disk, v.inodes, v.owner)
    ensures Mapped(v.disk, v.inodes, 2 + |files|) && v.inodes[2 + |files|].size == |last|
  {
    assert (files + [last])[|files|] == last;
    assert HoldsFile(v.disk, v.inodes, 2 + |files|, last);
  }

  /** Appending to the newest file. */
  lemma BuiltBytes(
      sb: Super, v: View, w: View, dir: seq<byte>, files: seq<seq<byte>>, last: seq<byte>, xp: seq<byte>, ino: nat)
    requires Built(sb, v, dir, files + [last]) && ino == 2 + |files| && ino in v.inodes && IndirectsOk(v.disk, v.inodes)
    requires v.inodes[ino].size == |last| && Wrote(sb, v, w, ino, |last|, xp)
    ensures Built(sb, w, dir, files + [last + xp])
  {
    hide BitsOk, Addr, Mapped, TailZero;
    var was, now := files + [last], files + [last + xp];
    assert was[|files|] == last && HoldsFile(v.disk, v.inodes, ino, last) && Spliced(last, |last|, xp) == last + xp;
    OtherContentSame(v.disk, v.inodes, w.disk, w.inodes, ino, 1);
    OtherTailSame(v.disk, v.inodes, w.disk, w.inodes, ino, 1);
    forall k | 0 <= k < |now| ensures HoldsFile(w.disk, w.inodes, 2 + k, now[k]) {
      if k < |files| {
        assert was[k] == now[k];
        OtherFileSame(v.disk, v.inodes, w.disk, w.inodes, ino, 2 + k, was[k]);
      }
    }
  }

  /** A new inode is an empty file. */
  lemma BuiltInode(sb: Super, v: View, w: View, dir: seq<byte>, files: seq<seq<byte>>, ino: nat)
    requires Built(sb, v, dir, files) && ino == 2 + |files| < sb.ninodes && Own(sb, w.disk, w.inodes, w.owner)
    requires w.inodes == v.inodes[ino := NewInode(T_FILE)]
    requires IndirectsOk(v.disk, v.inodes) && OthersSame(v.disk, v.inodes, w.disk, w.inodes, ino)
    requires Mapped(w.disk, w.inodes, ino)
    ensures Built(sb, w, dir, files + [[]])
  {
    var now := files + [[]];
    OtherContentSame(v.disk, v.inodes, w.disk, w.inodes, ino, 1);
    OtherTailSame(v.disk, v.inodes, w.disk, w.inodes, ino, 1);
    assert Content(w.disk, w.inodes, ino) == [];
    forall k | 0 <= k < |now| ensures HoldsFile(w.disk, w.inodes, 2 + k, now[k]) {
      if k < |files| {
        OtherFileSame(v.disk, v.inodes, w.disk, w.inodes, ino, 2 + k, files[k]);
      }
    }
  }

  /** The root just allocated: an empty directory and no files. */
  lemma Started(sb: Super, v: View)
    requires Own(sb, v.disk, v.inodes, v.owner) && (forall i :: i in v.inodes <==> 0 <= i < sb.ninodes)
    requires 2 <= sb.ninodes
    requires v.inodes[0] == NoInode() && v.inodes[1] == NewInode(T_DIR) && Mapped(v.disk, v.inodes, 1)
    requires forall i | 2 <= i < sb.ninodes :: v.inodes[i] == NoInode()
    ensures Built(sb, v, [], [])
  {
    assert Content(v.disk, v.inodes, 1) == [];
  }

  /** The root with its size rounded up, and nothing else changed. */
  ghost predicate RootRounded(sb: Super, v: View, w: View, root: nat)
    requires IndirectsOk(v.disk, v.inodes) && root in v.inodes
  {
    match w case View(e, ms, o) =>
      var size := v.inodes[root].size;
      && Own(sb, e, ms, o) && Rounded(size) < 0x1_0000_0000
      && ms == v.inodes[root := v.inodes[root].(size := Rounded(size))]
      && OthersSame(v.disk, v.inodes, e, ms, root) && (Mapped(e, ms, root) <==> size % BSIZE != 0)
      && (forall i | 0 <= i < size :: ByteAt(e, ms, root, i) == ByteAt(v.disk, v.inodes, root, i))
      && (TailZero(v.disk, v.inodes, root, size) ==> TailZero(e, ms, root, size))
  }

  lemma Finished(sb: Super, v: View, w: View, dir: seq<byte>, files: seq<seq<byte>>)
    requires Built(sb, v, dir, files) && IndirectsOk(v.disk, v.inodes) && 1 in v.inodes && RootRounded(sb, v, w, 1)
    ensures ImageOk(sb, w, dir, files)
  {
    forall k | 0 <= k < |files| ensures HoldsFile(w.disk, w.inodes, 2 + k, files[k]) {
      OtherFileSame(v.disk, v.inodes, w.disk, w.inodes, 1, 2 + k, files[k]);
    }
    RootBytes(v, w, dir);
  }

  lemma RootBytes(v: View, w: View, dir: seq<byte>)
    requires IndirectsOk(v.disk, v.inodes) && IndirectsOk(w.disk, w.inodes) && 1 in v.inodes && 1 in w.inodes
    requires Content(v.disk, v.inodes, 1) == dir && w.inodes[1].size == Rounded(|dir|) && |dir| <= MAXFILE * BSIZE
    requires forall i | 0 <= i < |dir| :: ByteAt(w.disk, w.inodes, 1, i) == ByteAt(v.disk, v.inodes, 1, i)
    requires TailZero(w.disk, w.inodes, 1, |dir|)
    ensures RootHolds(Content(w.disk, w.inodes, 1), dir)
  {
    var c := Content(w.disk, w.inodes, 1);
    assert |dir| == v.inodes[1].size;
    forall i | 0 <= i < |dir| ensures i < |c| && c[i] == dir[i] {
      assert c[i] == ByteAt(w.disk, w.inodes, 1, i) && dir[i] == Content(v.disk, v.inodes, 1)[i];
    }
    if |dir| % BSIZE != 0 {
      forall i | |dir| <= i < |c| ensures c[i] == 0 {
        RoundedEnd(|dir|);
        assert c[i] == ByteAt(w.disk, w.inodes, 1, i);
      }
    }
  }

  lemma RoundedEnd(n: nat)
    requires n % BSIZE != 0
    ensures Rounded(n) == BlockEnd(n) && (n <= MAXFILE * BSIZE ==> Rounded(n) <= MAXFILE * BSIZE)
  {
    Ceiling(n / BSIZE, n % BSIZE);
  }

  /** The directory's bytes and, unless they end on a block boundary, zeros up to the next one. */
  predicate RootHolds(c: seq<byte>, dir: seq<byte>) {
    && |dir| <= |c| == Rounded(|dir|) && (forall i | 0 <= i < |dir| :: c[i] == dir[i])
    && (|dir| % BSIZE != 0 ==> forall i | |dir| <= i < |c| :: c[i] == 0)
  }

  /** The finished image: ownership and bitmap agree, every file is one and has its bytes,
      the root is a directory with its entries, and it is mapped as the kernel wants it
      exactly when they do not end on a block boundary. */
  ghost predicate ImageOk(sb: Super, v: View, dir: seq<byte>, files: seq<seq<byte>>) {
    match v case View(d, ns, o) =>
      && Own(sb, d, ns, o) && (forall i :: i in ns <==> 0 <= i < sb.ninodes) && |files| + 2 <= sb.ninodes
      && ns[0] == NoInode() && ns[1].typ == T_DIR && ns[1].nlink == 1 && (Mapped(d, ns, 1) <==> |dir| % BSIZE != 0)
      && RootHolds(Content(d, ns, 1), dir)
      && (forall k | 0 <= k < |files| :: HoldsFile(d, ns, 2 + k, files[k]))
      && forall i | 2 + |files| <= i < sb.ninodes :: ns[i] == NoInode()
  }

  /** The files fit: none larger than a file can be, blocks for all of them in the image,
      and a bit in the one bitmap block for each block used and one more. */
  predicate FilesFit(size: nat, nlog: nat, files: seq<seq<byte>>) {
    var sb := Layout(size, nlog);
    var used := UsedBy(sb, DESIZE * (2 + |files|), files);
    Sizes(files) && used <= Limit(sb) && used < BPB
  }

  /** main: the root with its two links, then every file with its entry in the root and its
      bytes read BSIZE at a time; None exactly when the files do not fit. */
  method Build(
      size: nat, nlog: nat, dot: seq<byte>, dotdot: seq<byte>, names: seq<seq<byte>>, files: seq<seq<byte>>)
    returns (r: Option<Image>)
    requires Layout(size, nlog).Ok() && Layout(size, nlog).Nmeta() <= BPB
    requires |dot| == DIRSIZ && |dotdot| == DIRSIZ && NamesOk(names) && |names| == |files|
    ensures r.Some? <==> FilesFit(size, nlog, files)
    ensures r.Some? ==> fresh(r.value) && r.value.sb == Layout(size, nlog) && |r.value.disk| == size
    ensures r.Some? ==> Front(r.value.sb, r.value.disk)
    ensures r.Some? ==>
      ImageOk(r.value.sb, View(r.value.disk, r.value.inodes, r.value.owner),
        DirBytes(dot, dotdot, names, |names|), files)
    ensures r.Some? ==>
      forall j | 0 <= j < r.value.sb.ninodes :: Dinode(r.value.sb, r.value.disk, j) == r.value.inodes[j]
  {
    var img := new Image(size, nlog);
    ghost var sb := img.sb;
    var ok := img.AddRoot(dot, dotdot, names);
    if !ok {
      return None;
    }
    ok := img.AddFiles(dot, dotdot, names, files);
    if !ok {
      return None;
    }
    ok := img.Close(DirBytes(dot, dotdot, names, |names|), files);
    return if ok then Some(img) else None;
  }

  /** The kernel's start state: what mkfs built, with the inodes read from it. Every file
      is a regular one for the file layer. */
  method BuildAndMount(
      size: nat, nlog: nat, dot: seq<byte>, dotdot: seq<byte>, names: seq<seq<byte>>, files: seq<seq<byte>>)
    returns (r: Option<FileSys>)
    requires Layout(size, nlog).Ok() && Layout(size, nlog).Nmeta() <= BPB
    requires |dot| == DIRSIZ && |dotdot| == DIRSIZ && NamesOk(names) && |names| == |files|
    ensures r.Some? <==> FilesFit(size, nlog, files)
    ensures r.Some? ==>
      && fresh(r.value) && r.value.sb == Layout(size, nlog) && r.value.Valid() && r.value.logged == {}
      && forall ino | ino in r.value.inodes :: r.value.Synced(ino)
    ensures r.Some? ==> ImageOk(r.value.sb, r.value.Now(), DirBytes(dot, dotdot, names, |names|), files)
    ensures r.Some? ==> forall i | 2 <= i < 2 + |files| :: r.value.Regular(i)
  {
    hide BitsOk, Addr, Front, Dinode, Content, Mapped, RootHolds, HoldsFile, FilesFit;
    var img := Build(size, nlog, dot, dotdot, names, files);
    if img.None? {
      return None;
    }
    var image := img.value;
    InodesRead(image.sb, image.disk, image.inodes);
    assert Own(image.sb, image.disk, AllDinodes(image.sb, image.disk), image.owner);
    SuperIsRead(image.sb, image.disk);
    var sb := ReadSuper(image.disk[1]);
    var fs := new FileSys.Mount(sb, image.disk);
    AnyOwner(fs.sb, fs.disk, fs.inodes, image.owner, fs.owner, DirBytes(dot, dotdot, names, |names|), files);
    FilesAreRegular(fs.sb, fs.Now(), DirBytes(dot, dotdot, names, |names|), files);
    return Some(fs);
  }

  lemma InodesRead(sb: Super, d: Disk, ns: Inodes)
    requires IsDisk(sb, d) && (forall i :: i in ns <==> 0 <= i < sb.ninodes)
    requires forall i | 0 <= i < sb.ninodes :: Dinode(sb, d, i) == ns[i]
    ensures AllDinodes(sb, d) == ns
  {
  }

  lemma AnyOwner(sb: Super, d: Disk, ns: Inodes, o: Owners, p: Owners, dir: seq<byte>, files: seq<seq<byte>>)
    requires ImageOk(sb, View(d, ns, o), dir, files) && Own(sb, d, ns, p)
    ensures ImageOk(sb, View(d, ns, p), dir, files)
  {
    hide BitsOk, Addr, Mapped, HoldsFile, Content;
  }

  lemma FilesAreRegular(sb: Super, v: View, dir: seq<byte>, files: seq<seq<byte>>)
    requires ImageOk(sb, v, dir, files)
    ensures IndirectsOk(v.disk, v.inodes)
    ensures forall i | 2 <= i < 2 + |files| ::
      i in v.inodes && v.inodes[i].typ != T_DEV && Mapped(v.disk, v.inodes, i)
  {
    forall i | 2 <= i < 2 + |files| ensures i in v.inodes && v.inodes[i].typ != T_DEV && Mapped(v.disk, v.inodes, i) {
      assert HoldsFile(v.disk, v.inodes, 2 + (i - 2), files[i - 2]);
    }
  }
}
