/** Open files: reads and writes at the file offset, a long write cut into transactions. */
module Files {
  import opened Blocks
  import opened Bitmap
  import opened Ownership
  import opened FileData
  import opened FileSteps
  import opened BlockCounts
  import opened Moves
  import opened Spending
  import opened Fs

  /** How many bytes filewrite puts into a file of the given size: all, or the whole pieces that fit. */
  function Accepted(size: nat, off: nat, n: int): (k: nat)
    ensures k <= Max(n, 0)
  {
    if n <= 0 || off > size || off > MAXFILE * BSIZE then 0
    else if off + n <= MAXFILE * BSIZE then n
    else (MAXFILE * BSIZE - off) / CHUNK * CHUNK
  }

  /** The bytes in p full pieces. */
  function Pieces(p: nat): nat {
    if p == 0 then 0 else Pieces(p - 1) + CHUNK
  }

  lemma {:induction false} PiecesTimes(p: nat)
    ensures Pieces(p) == p * CHUNK
  {
    if p > 0 {
      PiecesTimes(p - 1);
    }
  }

  /** Where filewrite's loop stops on writei's refusal. */
  lemma Stopped(size: nat, now: nat, off: nat, n: int, i: nat, p: nat)
    requires i == Pieces(p) && i < n && size <= MAXFILE * BSIZE && now <= MAXFILE * BSIZE && off + i < 0x1_0000_0000
    requires if off > size then i == 0 else off + i <= now
    requires Refused(now, off + i, Min(n - i, CHUNK))
    ensures i == Accepted(size, off, n)
  {
    PiecesTimes(p);
    if off <= size {
      Quotient(MAXFILE * BSIZE - off, p);
    }
  }

  /** Where it ends otherwise: with every byte accepted. */
  lemma Ended(size: nat, off: nat, n: int, i: nat)
    requires size <= MAXFILE * BSIZE && i <= Max(n, 0)
    requires i == Accepted(size, off, n) || (i >= n && (i > 0 ==> off + i <= MAXFILE * BSIZE && off <= size))
    ensures i == Accepted(size, off, n)
  {
  }

  /** Where k accepted bytes end; past the end of the file none ever are. */
  function End(size: nat, off: nat, k: nat): nat {
    if off <= size then off + k else size
  }

  /** A piece that is not refused ends within what is accepted. */
  lemma PieceFits(size: nat, now: nat, off: nat, n: int, i: nat, p: nat, next: nat)
    requires i == Pieces(p) && i < n && size <= MAXFILE * BSIZE && off + i < 0x1_0000_0000
    requires if off > size then i == 0 && now == size else now == Max(size, off + i)
    requires next == i + Min(n - i, CHUNK) && !Refused(now, off + i, next - i)
    ensures off <= size && next <= Accepted(size, off, n)
  {
    PiecesTimes(p);
    if off + n > MAXFILE * BSIZE {
      PieceCount(MAXFILE * BSIZE - off, p);
    }
  }

  lemma PieceCount(x: nat, p: nat)
    requires p * CHUNK + CHUNK <= x
    ensures p * CHUNK + CHUNK <= x / CHUNK * CHUNK
  {
    assert CHUNK == 6656;
  }

  /** A piece that lacks blocks lacks them for the whole. */
  lemma PieceLacks(
      sb: Super, v0: View, m: Mem, size: nat, now: nat, off0: nat, n: int, i: nat, p: nat, next: nat)
    requires i == Pieces(p) && i < n && size <= MAXFILE * BSIZE && off0 + i < 0x1_0000_0000
    requires if off0 > size then i == 0 && now == size else now == Max(size, off0 + i)
    requires next == i + Min(n - i, CHUNK) && !Refused(now, off0 + i, next - i)
    requires Spent(sb, MemOf(v0), m, Growth(size, End(size, off0, i)))
    requires FreeBlocks(sb, m.disk) < Growth(now, off0 + next)
    ensures IsDisk(sb, v0.disk) && FreeBlocks(sb, v0.disk) < Growth(size, End(size, off0, Accepted(size, off0, n)))
  {
    hide Growth, FreeBlocks, Reaches, Accepted;
    PieceFits(size, now, off0, n, i, p, next);
    GrowthTwice(size, off0 + i, off0 + next);
    GrowthMore(size, off0 + next, off0 + Accepted(size, off0, n));
  }

  lemma PieceSpends(
      sb: Super, v0: View, m: Mem, q: Mem, size: nat, now: nat, off0: nat, i: nat, next: nat)
    requires off0 <= size && now == Max(size, off0 + i) && i <= next
    requires Spent(sb, MemOf(v0), m, Growth(size, End(size, off0, i))) && Spent(sb, m, q, Growth(now, off0 + next))
    ensures Spent(sb, MemOf(v0), q, Growth(size, End(size, off0, next)))
  {
    hide Growth, Spent;
    GrowthTwice(size, off0 + i, off0 + next);
    SpentTwice(sb, MemOf(v0), m, q, Growth(size, off0 + i), Growth(now, off0 + next), Growth(size, off0 + next));
  }

  lemma Quotient(x: nat, p: nat)
    requires p * CHUNK <= x < p * CHUNK + CHUNK
    ensures x / CHUNK == p
  {
    assert CHUNK == 6656;
  }

  /** The file layer after k bytes of addr were accepted at off; past the end of the file none ever are. */
  ghost predicate FileWritten(sb: Super, was: View, now: View, ino: nat, off: nat, addr: seq<byte>, k: nat)
    requires IndirectsOk(was.disk, was.inodes) && ino in was.inodes && k <= |addr|
  {
    match was case View(_, ns, _) =>
      if off <= ns[ino].size then Wrote(sb, was, now, ino, off, addr[..k]) else now == was && k == 0
  }

  /** Two writes, the second where the first ended, are one write of both. */
  lemma WroteTwice(
      sb: Super, v0: View, v: View, w: View, ino: nat, off: nat, at: nat, addr: seq<byte>, i: nat, j: nat,
      src: seq<byte>)
    requires IndirectsOk(v0.disk, v0.inodes) && ino in v0.inodes && i <= j <= |addr| && src == addr[i..j]
    requires at == off + i
    requires FileWritten(sb, v0, v, ino, off, addr, i)
    requires IndirectsOk(v.disk, v.inodes) && ino in v.inodes && at <= v.inodes[ino].size
    requires Wrote(sb, v, w, ino, at, src)
    ensures FileWritten(sb, v0, w, ino, off, addr, j)
  {
    hide BitsOk, Addr, ByteAt, Mapped, Spliced;
    assert off <= v0.inodes[ino].size;
    OthersTransitive(v0.disk, v0.inodes, v.disk, v.inodes, w.disk, w.inodes, ino);
    SpliceTwice(Content(v0.disk, v0.inodes, ino), off, addr[..i], src);
    assert addr[..i] + src == addr[..j];
  }

  /** The size of the file then. */
  lemma SizeNow(sb: Super, v0: View, v: View, ino: nat, off: nat, addr: seq<byte>, k: nat)
    requires IndirectsOk(v0.disk, v0.inodes) && ino in v0.inodes && k <= |addr|
    requires FileWritten(sb, v0, v, ino, off, addr, k) && ino in v.inodes
    ensures var size := v0.inodes[ino].size;
      if off > size then k == 0 && v.inodes[ino].size == size else v.inodes[ino].size == Max(size, off + k)
  {
    hide BitsOk, Addr, ByteAt;
  }

  lemma WroteNothing(sb: Super, v: View, ino: nat, off: nat, addr: seq<byte>)
    requires Own(sb, v.disk, v.inodes, v.owner) && ino in v.inodes && Mapped(v.disk, v.inodes, ino)
    ensures FileWritten(sb, v, v, ino, off, addr, 0)
  {
    if off <= v.inodes[ino].size {
      SpliceNothing(Content(v.disk, v.inodes, ino), off);
      assert addr[..0] == [];
    }
  }

  class File {
    const ip: nat
    const readable: bool
    const writable: bool
    var off: word

    /** fileread of a regular file. */
    method Read(fs: FileSys, n: word) returns (r: int, dst: seq<byte>)
      requires fs.Regular(ip)
      modifies this, fs
      ensures fs.Now() == old(fs.Now())
      ensures !readable || off < old(off) ==> r == -1
      ensures r == -1 ==> dst == [] && off == old(off)
      ensures r != -1 ==>
        && old(off) <= old(off) + r <= fs.inodes[ip].size && off == old(off) + r
        && dst == Content(fs.disk, fs.inodes, ip)[old(off)..off]
      ensures readable && old(off) <= fs.inodes[ip].size && Wrap(old(off) + n) >= old(off) ==>
        r == Min(n, fs.inodes[ip].size - old(off))
    {
      if !readable {
        return -1, [];
      }
      r, dst := fs.Readi(ip, off, n);
      if r > 0 {
        off := off + r;
      }
    }

    /** filewrite of a regular file: pieces of at most CHUNK bytes, each its own transaction.
        None is the panic "out of blocks": the file would take more blocks than are free. */
    method Write(fs: FileSys, addr: seq<byte>, n: int) returns (r: Option<int>)
      requires fs.Regular(ip)
      requires n <= |addr| && fs.logged == {}
      modifies this, fs
      ensures !writable ==> r == Some(-1) && off == old(off) && fs.Now() == old(fs.Now())
      ensures writable ==> var size := old(fs.inodes)[ip].size;
        (r.None? <==> FreeBlocks(fs.sb, old(fs.disk)) < Growth(size, End(size, old(off), Accepted(size, old(off), n))))
      ensures r.Some? && writable ==> var size := old(fs.inodes)[ip].size;
        Spent(fs.sb, old(fs.Core()), fs.Core(), Growth(size, End(size, old(off), Accepted(size, old(off), n))))
      ensures r.Some? ==> fs.Regular(ip) && fs.logged == {}
      ensures r.Some? && writable ==>
        var k := Accepted(old(fs.inodes)[ip].size, old(off), n);
        && r == Some(if k == n then n else -1) && off == old(off) + k
        && FileWritten(fs.sb, old(fs.Now()), fs.Now(), ip, old(off), addr, k)
      ensures r.Some? && old(fs.Synced(ip)) ==> fs.Regular(ip) && fs.Synced(ip)
    {
      if !writable {
        return Some(-1);
      }
      r := WritePieces(fs, addr, n);
    }

    /** filewrite's loop after i bytes in p pieces. */
    ghost predicate Going(fs: FileSys, v0: View, off0: nat, addr: seq<byte>, n: int, i: nat, p: nat)
      requires IndirectsOk(v0.disk, v0.inodes) && ip in v0.inodes
      reads this, fs
    {
      && fs.Regular(ip) && fs.logged == {} && i <= Max(n, 0) && i <= |addr| && off == off0 + i
      && (i == Pieces(p) || i == n)
      && (i > 0 ==> off0 + i <= MAXFILE * BSIZE)
      && Spent(fs.sb, MemOf(v0), fs.Core(), Growth(v0.inodes[ip].size, End(v0.inodes[ip].size, off0, i)))
      && FileWritten(fs.sb, v0, fs.Now(), ip, off0, addr, i)
    }

    /** filewrite's loop. */
    method WritePieces(fs: FileSys, addr: seq<byte>, n: int) returns (r: Option<int>)
      requires fs.Regular(ip) && n <= |addr| && fs.logged == {}
      modifies this, fs
      ensures var size := old(fs.inodes)[ip].size;
        (r.None? <==> FreeBlocks(fs.sb, old(fs.disk)) < Growth(size, End(size, old(off), Accepted(size, old(off), n))))
      ensures r.Some? ==> var size := old(fs.inodes)[ip].size;
        Spent(fs.sb, old(fs.Core()), fs.Core(), Growth(size, End(size, old(off), Accepted(size, old(off), n))))
      ensures r.Some? ==> fs.Regular(ip) && fs.logged == {}
      ensures r.Some? ==>
        var k := Accepted(old(fs.inodes)[ip].size, old(off), n);
        && r == Some(if k == n then n else -1) && off == old(off) + k
        && FileWritten(fs.sb, old(fs.Now()), fs.Now(), ip, old(off), addr, k)
      ensures r.Some? && old(fs.Synced(ip)) ==> fs.Regular(ip) && fs.Synced(ip)
    {
      hide BitsOk, Addr, ByteAt, Spent, Growth, Wrote, FreeBlocks;
      ghost var v0, off0 := fs.Now(), off;
      SpentNothing(fs.sb, fs.Core());
      GrowthMore(v0.inodes[ip].size, End(v0.inodes[ip].size, off0, 0), v0.inodes[ip].size);
      ghost var synced := fs.Synced(ip);
      WroteNothing(fs.sb, v0, ip, off0, addr);
      var i := 0;
      ghost var p := 0;
      while i < n
        invariant 0 <= i && 0 <= p && Going(fs, v0, off0, addr, n, i, p)
        invariant synced ==> fs.Synced(ip)
      {
        var next := i + Min(n - i, CHUNK);
        var w := WritePiece(fs, v0, off0, addr, n, i, p, next);
        if w.None? {
          return None;
        }
        if w.value < 0 {
          break;
        }
        i, p := next, p + 1;
      }
      Ended(v0.inodes[ip].size, off0, n, i);
      SpentLeaves(fs.sb, MemOf(v0), fs.Core(), Growth(v0.inodes[ip].size, End(v0.inodes[ip].size, off0, i)));
      return Some(if i == n then n else -1);
    }

    /** One pass of filewrite's loop, for the bytes i .. next - 1. */
    method WritePiece(
        fs: FileSys, ghost v0: View, ghost off0: nat, addr: seq<byte>, n: int, i: nat, ghost p: nat, next: nat)
      returns (w: Option<int>)
      requires IndirectsOk(v0.disk, v0.inodes) && ip in v0.inodes && v0.inodes[ip].size <= MAXFILE * BSIZE
      requires i < n <= |addr| && next == i + Min(n - i, CHUNK) && Going(fs, v0, off0, addr, n, i, p)
      modifies this, fs
      ensures w.None? ==> var size := v0.inodes[ip].size;
        && IsDisk(fs.sb, v0.disk)
        && FreeBlocks(fs.sb, v0.disk) < Growth(size, End(size, off0, Accepted(size, off0, n)))
      ensures w.Some? && w.value < 0 ==>
        Going(fs, v0, off0, addr, n, i, p) && i == Accepted(v0.inodes[ip].size, off0, n)
      ensures w.Some? && w.value >= 0 ==> Going(fs, v0, off0, addr, n, next, p + 1)
      ensures w.Some? && old(fs.Synced(ip)) ==> fs.Regular(ip) && fs.Synced(ip)
    {
      hide BitsOk, Addr, FileWritten, Wrote, Content, Mapped, Growth, Spent, FreeBlocks, Accepted;
      ghost var v, at := fs.Now(), off;
      var src := addr[i..next];
      ghost var m, size, now := fs.Core(), v0.inodes[ip].size, fs.inodes[ip].size;
      SizeNow(fs.sb, v0, v, ip, off0, addr, i);
      w := WriteTx(fs, src);
      if w.None? {
        PieceLacks(fs.sb, v0, m, size, now, off0, n, i, p, next);
        return;
      }
      if w.value < 0 {
        Stopped(v0.inodes[ip].size, fs.inodes[ip].size, off0, n, i, p);
      } else {
        WroteTwice(fs.sb, v0, v, fs.Now(), ip, off0, at, addr, i, next, src);
        PieceSpends(fs.sb, v0, m, fs.Core(), size, now, off0, i, next);
      }
    }

    /** One transaction of filewrite: writei at the offset, which then moves on. */
    method WriteTx(fs: FileSys, src: seq<byte>) returns (r: Option<int>)
      requires fs.Regular(ip) && 0 < |src| <= CHUNK && fs.logged == {}
      modifies this, fs
      ensures r.None? <==>
        && !Refused(old(fs.inodes)[ip].size, old(off), |src|)
        && FreeBlocks(fs.sb, old(fs.disk)) < Growth(old(fs.inodes)[ip].size, old(off) + |src|)
      ensures r.Some? ==> fs.Regular(ip) && fs.logged == {}
      ensures r.Some? && r != Some(-1) ==>
        Spent(fs.sb, old(fs.Core()), fs.Core(), Growth(old(fs.inodes)[ip].size, old(off) + |src|))
      ensures r == Some(-1) <==> Refused(old(fs.inodes)[ip].size, old(off), |src|)
      ensures r == Some(-1) ==> fs.Now() == old(fs.Now()) && off == old(off)
      ensures r.Some? && r != Some(-1) ==> r == Some(|src|) && off == old(off) + |src|
      ensures r.Some? && r != Some(-1) ==> Wrote(fs.sb, old(fs.Now()), fs.Now(), ip, old(off), src)
      ensures r.Some? && old(fs.Synced(ip)) ==> fs.Regular(ip) && fs.Synced(ip)
    {
      r := fs.Writei(ip, off, src);
      if r.None? {
        return;
      }
      if r.value > 0 {
        off := off + r.value;
      }
      fs.EndOp();
    }
  }
}
