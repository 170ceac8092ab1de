/** The disk as mkfs lays it out and the kernel first finds it: what lies where, and what
    recovery and everything after it make of a built image. */
module FirstBoot {
  import opened Blocks
  import opened Bitmap
  import opened Ownership
  import opened Dinodes
  import opened LogSpec
  import opened Names
  import opened Drafts
  import opened Mkfs
  import opened Durable
  import Machine = LogMachine

  /** initlog's reading of the superblock: logstart, nlog, size. */
  function ReadLog(b: Block): Geometry {
    Geometry(Word(b, 4), Word(b, 3), Word(b, 0))
  }

  datatype Area = BootBlock | SuperBlock | TheLog | InodeBlocks | BitmapBlocks | DataBlocks

  predicate In(g: Geometry, sb: Super, a: Area, b: nat) {
    match a
    case BootBlock => b == 0
    case SuperBlock => b == 1
    case TheLog => g.start <= b < g.start + g.size
    case InodeBlocks => sb.inodestart <= b < sb.bmapstart
    case BitmapBlocks => sb.bmapstart <= b < sb.Nmeta()
    case DataBlocks => sb.Nmeta() <= b < sb.size
  }

  /** Every block of the image is in one area and no other. */
  lemma OneArea(size: nat, nlog: nat, b: nat)
    requires Layout(size, nlog).Ok() && b < size
    ensures exists a :: In(Geometry(2, nlog, size), Layout(size, nlog), a, b)
    ensures forall a, c | In(Geometry(2, nlog, size), Layout(size, nlog), a, b)
      && In(Geometry(2, nlog, size), Layout(size, nlog), c, b) :: a == c
  {
    var g, sb := Geometry(2, nlog, size), Layout(size, nlog);
    if b == 0 {
      assert In(g, sb, BootBlock, b);
    } else if b == 1 {
      assert In(g, sb, SuperBlock, b);
    } else if b < 2 + nlog {
      assert In(g, sb, TheLog, b);
    } else if b < sb.bmapstart {
      assert In(g, sb, InodeBlocks, b);
    } else if b < sb.Nmeta() {
      assert In(g, sb, BitmapBlocks, b);
    } else {
      assert In(g, sb, DataBlocks, b);
    }
  }

  /** Inodes and bitmap bits lie in their areas, and the log's area is what recovery takes for the log. */
  lemma PlacesAreInAreas(size: nat, nlog: nat)
    requires Layout(size, nlog).Ok()
    ensures var g, sb := Geometry(2, nlog, size), Layout(size, nlog);
      && (forall i | 0 <= i < sb.ninodes :: In(g, sb, InodeBlocks, sb.Iblock(i)))
      && (forall b | 0 <= b < sb.size :: In(g, sb, BitmapBlocks, sb.Bblock(b)))
      && (forall b | 0 <= b < sb.size :: In(g, sb, TheLog, b) <==> !g.Home(b))
  {
    var sb := Layout(size, nlog);
    forall i | 0 <= i < sb.ninodes ensures sb.inodestart <= sb.Iblock(i) < sb.bmapstart {
      InodePlace(sb, i, i);
    }
    forall b | 0 <= b < sb.size ensures sb.Bblock(b) < sb.Nmeta() {
      assert b / BPB <= sb.size / BPB;
    }
  }

  /** The log of mkfs's layout lies before the inodes. */
  lemma LogIsBefore(size: nat, nlog: nat)
    requires Layout(size, nlog).Ok() && 0 < nlog && size < 0x8000_0000
    ensures LogBefore(Geometry(2, nlog, size), Layout(size, nlog))
  {
  }

  /** What the kernel finds in front of the inodes: the log where the layout has it, empty, so
      that a recovery changes nothing. */
  lemma FoundAtBoot(size: nat, nlog: nat, d: Disk)
    requires Layout(size, nlog).Ok() && 0 < nlog && size < 0x8000_0000 && |d| == size && Front(Layout(size, nlog), d)
    ensures ReadSuper(d[1]) == Layout(size, nlog) && ReadLog(d[1]) == Geometry(2, nlog, size)
    ensures var g := Geometry(2, nlog, size);
      g.Ok() && HeadOk(g, d) && HeadCount(g, d) == 0 && Recovered(g, d) == d
  {
    var g := Geometry(2, nlog, size);
    ZeroWord(0);
    assert d[2] == ZeroBlock();
    SetZero();
  }

  lemma SetZero()
    ensures SetWord(ZeroBlock(), 0, 0) == ZeroBlock()
  {
    var s := WordBytes(0);
    assert s == [0, 0, 0, 0];
    assert SetWord(ZeroBlock(), 0, 0) == ZeroBlock()[..0] + s + ZeroBlock()[4..];
  }

  /** mkfs and then the kernel's boot: the image is a file system, the log lies before its
      inodes, and recovery leaves the image as it was built. */
  method BuildAndRecover(
      size: nat, nlog: nat, dot: seq<byte>, dotdot: seq<byte>, names: seq<seq<byte>>, files: seq<seq<byte>>)
    returns (r: Option<Image>, g: Geometry)
    requires Layout(size, nlog).Ok() && Layout(size, nlog).Nmeta() <= BPB && 0 < nlog && size < 0x8000_0000
    requires |dot| == DIRSIZ && |dotdot| == DIRSIZ && NamesOk(names) && |names| == |files|
    ensures r.Some? <==> FilesFit(size, nlog, files)
    ensures r.Some? ==> g == Geometry(2, nlog, size) && LogBefore(g, r.value.sb) && r.value.sb == Layout(size, nlog)
    ensures r.Some? ==> FsOk(r.value.sb, r.value.disk) && Front(r.value.sb, r.value.disk)
    ensures r.Some? ==> HeadOk(g, r.value.disk) && Recovered(g, r.value.disk) == r.value.disk
  {
    hide BitsOk, Addr, Front, Dinode, Recovered, FilesFit, RootHolds, HoldsFile;
    r := Build(size, nlog, dot, dotdot, names, files);
    g := Geometry(2, nlog, size);
    if r.Some? {
      var image := r.value;
      FoundAtBoot(size, nlog, image.disk);
      g := ReadLog(image.disk[1]);
      InodesRead(image.sb, image.disk, image.inodes);
      LogIsBefore(size, nlog);
    }
  }

  /** From a built image on: after any run in which only moves of file operations change the
      contents between two commits, with any crashes, a recovery leaves a file system, if the
      log cannot be overrun. */
  lemma EveryRunFromImage(
      size: nat, nlog: nat, d: Disk, states: seq<Machine.State>, steps: seq<Machine.Step>, k: nat)
    requires Layout(size, nlog).Ok() && 0 < nlog && size < 0x8000_0000 && |d| == size
    requires Front(Layout(size, nlog), d) && FsOk(Layout(size, nlog), d)
    requires Machine.Roomy(ReadLog(d[1])) && Machine.Run(ReadLog(d[1]), states, steps) && states[0].disk == d
    requires k < |states| && Machine.Sized(ReadLog(d[1]), states, steps)
    requires OnlyFileRuns(ReadLog(d[1]), ReadSuper(d[1]), states, steps)
    ensures ReadLog(d[1]).Ok() && |states[k].disk| == size
    ensures HeadOk(ReadLog(d[1]), states[k].disk)
    ensures FsOk(ReadSuper(d[1]), Recovered(ReadLog(d[1]), states[k].disk))
  {
    FoundAtBoot(size, nlog, d);
    LogIsBefore(size, nlog);
    RecoveryLeavesFs(Geometry(2, nlog, size), Layout(size, nlog), states, steps, k);
  }
}
