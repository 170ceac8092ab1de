/** How many blocks a file of a given size takes, and how many blocks are free. */
module BlockCounts {
  import opened Blocks
  import opened Bitmap
  import opened Ownership
  import opened FileData
  import opened FileSteps

  // ----- what a file takes -----

  /** The data blocks of n bytes, and the indirect block if they need one. */
  function BlocksFor(n: nat): nat {
    (n + BSIZE - 1) / BSIZE + if n > NDIRECT * BSIZE then 1 else 0
  }

  /** The blocks the next byte at off takes. */
  function BlocksAt(off: nat): nat {
    if off % BSIZE != 0 then 0 else if off == NDIRECT * BSIZE then 2 else 1
  }

  lemma BlocksNext(off: nat, n: nat, next: nat)
    requires 0 < n <= BSIZE - off % BSIZE && next == off + n
    ensures BlocksFor(next) == BlocksFor(off) + BlocksAt(off)
  {
    var q, r := off / BSIZE, off % BSIZE;
    assert off == BSIZE * q + r;
    Ceiling(q, r + n);
    if r == 0 {
      assert (off + BSIZE - 1) / BSIZE == q;
    } else {
      Ceiling(q, r);
    }
  }

  lemma Ceiling(q: nat, r: nat)
    requires 0 < r <= BSIZE
    ensures (BSIZE * q + r + BSIZE - 1) / BSIZE == q + 1
  {
  }

  lemma WholeBlocks(q: nat)
    ensures (BSIZE * q + BSIZE - 1) / BSIZE == q
  {
  }

  lemma BlocksGrow(m: nat, n: nat)
    requires m <= n
    ensures BlocksFor(m) <= BlocksFor(n)
  {
  }

  /** In a file mapped up to off exactly, what the block at off lacks. */
  lemma BlocksMissing(d: Disk, ns: Inodes, ino: nat, off: nat, fbn: nat)
    requires IndirectsOk(d, ns) && ino in ns && MappedTo(d, ns, ino, off) && fbn == off / BSIZE < MAXFILE
    ensures BlockAddr(d, ns, ino, fbn) == 0 <==> off % BSIZE == 0
    ensures fbn >= NDIRECT ==> (ns[ino].addrs[NDIRECT] == 0 <==> off == NDIRECT * BSIZE)
  {
    assert fbn * BSIZE < off <==> off % BSIZE != 0;
  }

  /** The blocks bmap of block fbn has to allocate. */
  function Lacking(d: Disk, ns: Inodes, ino: nat, fbn: nat): nat
    requires IndirectsOk(d, ns) && ino in ns && fbn < MAXFILE
  {
    if BlockAddr(d, ns, ino, fbn) != 0 then 0
    else if fbn >= NDIRECT && ns[ino].addrs[NDIRECT] == 0 then 2
    else 1
  }

  /** In a file mapped up to lim exactly, what a write of the bytes at .. next - 1 of one block
      allocates is what the file takes more. */
  lemma LackingGrows(d: Disk, ns: Inodes, ino: nat, lim: nat, at: nat, m: nat, next: nat)
    requires IndirectsOk(d, ns) && ino in ns && MappedTo(d, ns, ino, lim) && at <= lim
    requires 0 < m <= BSIZE - at % BSIZE && next == at + m && at / BSIZE < MAXFILE
    ensures BlocksFor(Max(lim, next)) == BlocksFor(lim) + Lacking(d, ns, ino, at / BSIZE)
  {
    var q := at / BSIZE;
    assert at == q * BSIZE + at % BSIZE;
    if q * BSIZE < lim {
      SameBlocks(q, lim, next);
    } else {
      BlocksMissing(d, ns, ino, lim, q);
      BlocksNext(at, m, next);
    }
  }

  lemma SameBlocks(q: nat, lim: nat, next: nat)
    requires q * BSIZE < lim && next <= q * BSIZE + BSIZE
    ensures BlocksFor(Max(lim, next)) == BlocksFor(lim)
  {
    if next > lim {
      Ceiling(q, lim - q * BSIZE);
      Ceiling(q, next - q * BSIZE);
    }
  }

  // ----- what is free -----

  /** The clear bits below n. */
  function FreeBelow(sb: Super, d: Disk, n: nat): nat
    requires IsDisk(sb, d) && n <= sb.size
  {
    if n == 0 then 0 else FreeBelow(sb, d, n - 1) + if Used(sb, d, n - 1) then 0 else 1
  }

  function FreeBlocks(sb: Super, d: Disk): nat
    requires IsDisk(sb, d)
  {
    FreeBelow(sb, d, sb.size)
  }

  lemma {:induction false} FreeBelowSame(sb: Super, d: Disk, e: Disk, n: nat)
    requires IsDisk(sb, d) && IsDisk(sb, e) && n <= sb.size
    requires forall b | 0 <= b < n :: Used(sb, e, b) == Used(sb, d, b)
    ensures FreeBelow(sb, e, n) == FreeBelow(sb, d, n)
  {
    if n > 0 {
      FreeBelowSame(sb, d, e, n - 1);
    }
  }

  /** The same bitmap has the same blocks free. */
  lemma FreeSame(sb: Super, d: Disk, e: Disk)
    requires IsDisk(sb, d) && IsDisk(sb, e) && forall b | sb.bmapstart <= b < sb.Nmeta() :: e[b] == d[b]
    ensures FreeBlocks(sb, e) == FreeBlocks(sb, d)
  {
    UsedFrame(sb, d, e);
    FreeBelowSame(sb, d, e, sb.size);
  }

  lemma {:induction false} FreeBelowTaken(sb: Super, d: Disk, e: Disk, b: nat, n: nat)
    requires IsDisk(sb, d) && IsDisk(sb, e) && b < n <= sb.size && !Used(sb, d, b)
    requires forall c | 0 <= c < sb.size :: Used(sb, e, c) == (b == c || Used(sb, d, c))
    ensures FreeBelow(sb, e, n) + 1 == FreeBelow(sb, d, n)
  {
    if n - 1 == b {
      FreeBelowSame(sb, d, e, n - 1);
    } else {
      FreeBelowTaken(sb, d, e, b, n - 1);
    }
  }

  /** One bit more is one block less. */
  lemma FreeTaken(sb: Super, d: Disk, e: Disk, b: nat)
    requires IsDisk(sb, d) && IsDisk(sb, e) && b < sb.size && !Used(sb, d, b)
    requires forall c | 0 <= c < sb.size :: Used(sb, e, c) == (b == c || Used(sb, d, c))
    ensures FreeBlocks(sb, e) + 1 == FreeBlocks(sb, d)
  {
    FreeBelowTaken(sb, d, e, b, sb.size);
  }

  lemma {:induction false} NoneFreeBelow(sb: Super, d: Disk, n: nat)
    requires IsDisk(sb, d) && n <= sb.size
    ensures FreeBelow(sb, d, n) == 0 <==> forall b | 0 <= b < n :: Used(sb, d, b)
  {
    if n > 0 {
      NoneFreeBelow(sb, d, n - 1);
    }
  }

  lemma NoneFree(sb: Super, d: Disk)
    requires IsDisk(sb, d)
    ensures FreeBlocks(sb, d) == 0 <==> AllUsed(sb, d)
  {
    NoneFreeBelow(sb, d, sb.size);
  }
}
