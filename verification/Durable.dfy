/** The file system on the log: what a crash at any moment leaves of it. */
module Durable {
  import opened Blocks
  import opened Bitmap
  import opened Ownership
  import opened Dinodes
  import opened LogSpec
  import opened Moves
  import opened Spending
  import opened Fs
  import Machine = LogMachine

  /** mkfs's layout: the log lies before the inodes. */
  predicate LogBefore(g: Geometry, sb: Super) {
    g.Ok() && sb.Ok() && g.start + g.size <= sb.inodestart && g.disksize == sb.size
  }

  /** The home blocks decide. */
  lemma HomeDecides(g: Geometry, sb: Super, d: Disk, e: Disk)
    requires LogBefore(g, sb) && SameHome(g, d, e) && FsOk(sb, d)
    ensures FsOk(sb, e)
  {
    assert forall b | sb.inodestart <= b < sb.size :: g.Home(b) && e[b] == d[b];
    var ns := AllDinodes(sb, d);
    var owner :| Own(sb, d, ns, owner);
    SameDinodes(sb, d, e);
    OwnFrame(sb, d, ns, owner, e);
  }

  lemma SameDinodes(sb: Super, d: Disk, e: Disk)
    requires IsDisk(sb, d) && IsDisk(sb, e) && forall b | sb.inodestart <= b < sb.size :: e[b] == d[b]
    ensures AllDinodes(sb, e) == AllDinodes(sb, d)
  {
    forall i: nat | i < sb.ninodes ensures Dinode(sb, e, i) == Dinode(sb, d, i) {
      InodePlace(sb, i, i);
    }
  }

  /** The contents of all blocks at the last commit before state k. */
  ghost function ContentsAt(g: Geometry, states: seq<Machine.State>, steps: seq<Machine.Step>, k: nat): (d: Disk)
    requires Machine.Sized(g, states, steps) && k <= |steps|
    ensures |d| == g.disksize
  {
    seq<Block>(g.disksize, b requires 0 <= b < g.disksize => Machine.Committed(g, states, steps, k, b))
  }

  /** Recovery after a crash at any moment of any run leaves a file system exactly when the
      contents at the last commit were one. */
  lemma RecoveryExactly(g: Geometry, sb: Super, states: seq<Machine.State>, steps: seq<Machine.Step>, k: nat)
    requires LogBefore(g, sb) && Machine.Roomy(g) && Machine.Run(g, states, steps) && k < |states|
    ensures Machine.Sized(g, states, steps) && HeadOk(g, states[k].disk)
    ensures FsOk(sb, Recovered(g, states[k].disk)) <==> FsOk(sb, ContentsAt(g, states, steps, k))
  {
    Machine.CrashAtomicity(g, states, steps, k);
    var d, e := Recovered(g, states[k].disk), ContentsAt(g, states, steps, k);
    assert SameHome(g, d, e) && SameHome(g, e, d);
    if FsOk(sb, d) {
      HomeDecides(g, sb, d, e);
    }
    if FsOk(sb, e) {
      HomeDecides(g, sb, e, d);
    }
  }

  // ----- runs of file operations -----

  /** The kernel's state when it has read every inode of the disk. */
  function Started(sb: Super, d: Disk): Mem
    requires IsDisk(sb, d)
  {
    Mem(d, AllDinodes(sb, d))
  }

  /** From d the moves of file operations lead to e, and no inode is left to be written. */
  ghost predicate FileRun(g: Geometry, sb: Super, d: Disk, e: Disk) {
    IsDisk(sb, d) && exists n: Mem ::
      Reaches(sb, Started(sb, d), n) && IsDisk(sb, n.disk) && n == Started(sb, n.disk) && SameHome(g, n.disk, e)
  }

  /** Such a run leads from a file system to a file system. */
  lemma FileRunKeepsFs(g: Geometry, sb: Super, d: Disk, e: Disk)
    requires LogBefore(g, sb) && FsOk(sb, d) && FileRun(g, sb, d, e)
    ensures FsOk(sb, e)
  {
    hide Own, Reaches, SameHome;
    var n: Mem :|
      Reaches(sb, Started(sb, d), n) && IsDisk(sb, n.disk) && n == Started(sb, n.disk) && SameHome(g, n.disk, e);
    RunKeepsOwns(sb, Started(sb, d), n);
    HomeDecides(g, sb, n.disk, e);
  }

  /** Moves that change and write one inode are such a run. */
  lemma MovesAreRun(g: Geometry, sb: Super, d: Disk, n: Mem, ino: nat)
    requires g.disksize == sb.size && IsDisk(sb, d) && IsDisk(sb, n.disk) && Reaches(sb, Started(sb, d), n)
    requires ino in n.inodes && ino < sb.ninodes && Dinode(sb, n.disk, ino) == n.inodes[ino]
    requires forall i | 0 <= i < sb.ninodes && i != ino && i in n.inodes :: n.inodes[i] == AllDinodes(sb, d)[i]
    requires forall i | 0 <= i < sb.ninodes && i != ino :: Dinode(sb, n.disk, i) == Dinode(sb, d, i)
    ensures n == Started(sb, n.disk) && FileRun(g, sb, d, n.disk)
  {
    hide Reaches, Dinode;
    RunKeepsKeys(sb, Started(sb, d), n);
    forall i ensures i in n.inodes <==> 0 <= i < sb.ninodes {
      assert i in n.inodes.Keys <==> i in AllDinodes(sb, d).Keys;
    }
    assert n.inodes == AllDinodes(sb, n.disk);
  }

  /** writei, from a state with every inode on disk, is such a run. */
  method WriteIsRun(g: Geometry, fs: FileSys, ino: nat, off: word, src: seq<byte>) returns (r: Option<int>)
    requires g.disksize == fs.sb.size && fs.Regular(ino) && |src| < 0x1_0000_0000
    requires IsDisk(fs.sb, fs.disk) && fs.Core() == Started(fs.sb, fs.disk)
    modifies fs
    ensures r.Some? && r != Some(-1) ==> FileRun(g, fs.sb, old(fs.disk), fs.disk)
    ensures r.Some? && r != Some(-1) ==> IsDisk(fs.sb, fs.disk) && fs.Core() == Started(fs.sb, fs.disk)
  {
    ghost var d := fs.disk;
    r := fs.Writei(ino, off, src);
    if r.Some? && r != Some(-1) {
      MovesAreRun(g, fs.sb, d, fs.Core(), ino);
    }
  }

  /** And so is itrunc. */
  method TruncIsRun(g: Geometry, fs: FileSys, ino: nat)
    requires g.disksize == fs.sb.size && fs.Valid() && ino in fs.inodes
    requires IsDisk(fs.sb, fs.disk) && fs.Core() == Started(fs.sb, fs.disk)
    modifies fs
    ensures FileRun(g, fs.sb, old(fs.disk), fs.disk)
    ensures IsDisk(fs.sb, fs.disk) && fs.Core() == Started(fs.sb, fs.disk)
  {
    ghost var d := fs.disk;
    fs.Itrunc(ino);
    MovesAreRun(g, fs.sb, d, fs.Core(), ino);
  }

  ghost predicate OnlyFileRuns(g: Geometry, sb: Super, states: seq<Machine.State>, steps: seq<Machine.Step>)
    requires Machine.Sized(g, states, steps)
  {
    forall k | 0 < k <= |steps| && steps[k - 1].WriteHead? ::
      FileRun(g, sb, ContentsAt(g, states, steps, k - 1), ContentsAt(g, states, steps, k))
  }

  /** After any run in which only moves of file operations change the contents between two
      commits, with any crashes, from any file system on disk, a recovery leaves a file system:
      the blocks its inodes name have one owner each, and the bitmap on it agrees. */
  lemma RecoveryLeavesFs(g: Geometry, sb: Super, states: seq<Machine.State>, steps: seq<Machine.Step>, k: nat)
    requires LogBefore(g, sb) && Machine.Roomy(g) && Machine.Run(g, states, steps) && k < |states|
    requires Machine.Sized(g, states, steps) && FsOk(sb, states[0].disk) && OnlyFileRuns(g, sb, states, steps)
    ensures HeadOk(g, states[k].disk) && FsOk(sb, Recovered(g, states[k].disk))
  {
    RecoveryExactly(g, sb, states, steps, k);
    CommittedIsFs(g, sb, states, steps, k);
  }

  lemma {:induction false} CommittedIsFs(
      g: Geometry, sb: Super, states: seq<Machine.State>, steps: seq<Machine.Step>, k: nat)
    requires LogBefore(g, sb) && Machine.Sized(g, states, steps) && k < |states|
    requires FsOk(sb, states[0].disk) && OnlyFileRuns(g, sb, states, steps)
    ensures FsOk(sb, ContentsAt(g, states, steps, k))
  {
    hide FsOk, FileRun, ContentsAt;
    if k == 0 {
      ContentsAtStart(g, states, steps);
    } else {
      CommittedIsFs(g, sb, states, steps, k - 1);
      if steps[k - 1].WriteHead? {
        FileRunKeepsFs(g, sb, ContentsAt(g, states, steps, k - 1), ContentsAt(g, states, steps, k));
      } else {
        ContentsStay(g, states, steps, k);
      }
    }
  }

  lemma ContentsAtStart(g: Geometry, states: seq<Machine.State>, steps: seq<Machine.Step>)
    requires Machine.Sized(g, states, steps)
    ensures ContentsAt(g, states, steps, 0) == states[0].disk
  {
  }

  lemma ContentsStay(g: Geometry, states: seq<Machine.State>, steps: seq<Machine.Step>, k: nat)
    requires Machine.Sized(g, states, steps) && 0 < k <= |steps| && !steps[k - 1].WriteHead?
    ensures ContentsAt(g, states, steps, k) == ContentsAt(g, states, steps, k - 1)
  {
    var d, e := ContentsAt(g, states, steps, k - 1), ContentsAt(g, states, steps, k);
    forall b | 0 <= b < g.disksize ensures e[b] == d[b] {
    }
  }
}
