/** The on-disk redo log: header codec, installation of logged blocks, and what
    a completed recovery makes of a disk. Everything here is about disk values;
    LogMachine and Log relate it to the running kernel. */
module LogSpec {
  import opened Blocks
  import opened Params

  /** Where the log lies: header at start, logged blocks at start+1 .. start+size-1. */
  datatype Geometry = Geometry(start: nat, size: nat, disksize: nat) {
    predicate Ok() {
      0 < size && start + size <= disksize < 0x8000_0000
    }

    /** A block outside the log region. */
    predicate Home(b: int) {
      0 <= b < disksize && !(start <= b < start + size)
    }

    /** log_write admits a further entry only below this count. */
    function Capacity(): nat
      requires Ok()
    {
      if LOGSIZE < size - 1 then LOGSIZE else size - 1
    }

    predicate IsLog(lh: seq<nat>)
      requires Ok()
    {
      |lh| <= Capacity() && Distinct(lh) && forall i | 0 <= i < |lh| :: Home(lh[i])
    }
  }

  ghost predicate SameHome(g: Geometry, d: Disk, e: Disk) {
    |d| == g.disksize && |e| == g.disksize && forall b {:trigger g.Home(b)} | g.Home(b) :: d[b] == e[b]
  }

  // ----- header block -----

  function HeadCount(g: Geometry, d: Disk): word
    requires g.Ok() && |d| == g.disksize
  {
    Word(d[g.start], 0)
  }

  function HeadBlocks(g: Geometry, d: Disk): (lh: seq<nat>)
    requires g.Ok() && |d| == g.disksize && HeadCount(g, d) <= LOGSIZE
    ensures |lh| == HeadCount(g, d)
  {
    Entries(d[g.start], HeadCount(g, d))
  }

  /** The words 1 .. n of a header block. */
  function Entries(b: Block, n: nat): (lh: seq<nat>)
    requires n <= LOGSIZE
    ensures |lh| == n
  {
    if n == 0 then [] else Entries(b, n - 1) + [Word(b, n) as nat]
  }

  /** What write_head makes of the header block: the words past the count stay as they were. */
  function PutHead(b: Block, lh: seq<nat>): (r: Block)
    requires |lh| <= LOGSIZE && forall i | 0 <= i < |lh| :: lh[i] < 0x1_0000_0000
  {
    PutEntries(SetWord(b, 0, |lh|), lh, |lh|)
  }

  function PutEntries(b: Block, lh: seq<nat>, n: nat): (r: Block)
    requires n <= |lh| <= LOGSIZE && forall i | 0 <= i < |lh| :: lh[i] < 0x1_0000_0000
  {
    if n == 0 then b else SetWord(PutEntries(b, lh, n - 1), n, lh[n - 1])
  }

  lemma {:induction false} PutEntriesWord(b: Block, lh: seq<nat>, n: nat, j: nat)
    requires n <= |lh| <= LOGSIZE && forall i | 0 <= i < |lh| :: lh[i] < 0x1_0000_0000
    requires j < NWORDS
    ensures Word(PutEntries(b, lh, n), j) == if 1 <= j <= n then lh[j - 1] else Word(b, j)
  {
    if n > 0 {
      PutEntriesWord(b, lh, n - 1, j);
    }
  }

  lemma {:induction false} EntriesOfPut(b: Block, lh: seq<nat>, n: nat)
    requires n <= |lh| <= LOGSIZE && forall i | 0 <= i < |lh| :: lh[i] < 0x1_0000_0000
    ensures Entries(PutEntries(b, lh, |lh|), n) == lh[..n]
  {
    if n > 0 {
      EntriesOfPut(b, lh, n - 1);
      PutEntriesWord(b, lh, |lh|, n);
      assert lh[..n] == lh[..n - 1] + [lh[n - 1]];
    }
  }

  /** The codec: the header write_head stores is the header read_head loads. */
  lemma HeadRoundTrip(g: Geometry, d: Disk, lh: seq<nat>)
    requires g.Ok() && |d| == g.disksize && g.IsLog(lh)
    ensures HeadCount(g, d[g.start := PutHead(d[g.start], lh)]) == |lh|
    ensures HeadBlocks(g, d[g.start := PutHead(d[g.start], lh)]) == lh
  {
    var b := SetWord(d[g.start], 0, |lh|);
    PutEntriesWord(b, lh, |lh|, 0);
    EntriesOfPut(b, lh, |lh|);
    assert lh[..|lh|] == lh;
  }

  predicate HeadOk(g: Geometry, d: Disk)
    requires g.Ok()
  {
    |d| == g.disksize && HeadCount(g, d) <= LOGSIZE && g.IsLog(HeadBlocks(g, d))
  }

  // ----- installing and recovering -----

  /** install_trans stopped after k blocks. */
  function Install(g: Geometry, d: Disk, lh: seq<nat>, k: nat): (r: Disk)
    requires g.Ok() && |d| == g.disksize && g.IsLog(lh) && k <= |lh|
    ensures |r| == |d|
  {
    if k == 0 then d else
      var r := Install(g, d, lh, k - 1);
      assert g.Home(lh[k - 1]);
      r[lh[k - 1] := r[g.start + k]]
  }

  lemma {:induction false} InstallAt(g: Geometry, d: Disk, lh: seq<nat>, k: nat, b: nat)
    requires g.Ok() && |d| == g.disksize && g.IsLog(lh) && k <= |lh| && b < |d|
    ensures (forall i | 0 <= i < k :: lh[i] != b) ==> Install(g, d, lh, k)[b] == d[b]
    ensures forall i | 0 <= i < k && lh[i] == b :: Install(g, d, lh, k)[b] == d[g.start + i + 1]
  {
    if k > 0 {
      InstallAt(g, d, lh, k - 1, b);
      InstallAt(g, d, lh, k - 1, g.start + k);
      assert forall i | 0 <= i < k :: g.Home(lh[i]);
    }
  }

  /** The disk after recover_from_log has run to its end. */
  function Recovered(g: Geometry, d: Disk): (r: Disk)
    requires g.Ok() && HeadOk(g, d)
    ensures |r| == |d|
  {
    var r := Install(g, d, HeadBlocks(g, d), HeadCount(g, d));
    r[g.start := PutHead(r[g.start], [])]
  }

  /** The home blocks a disk stands for when its header names lh: the logged copies
      of the blocks in lh, the home blocks themselves elsewhere. */
  ghost predicate Promises(g: Geometry, d: Disk, lh: seq<nat>, stable: Disk)
    requires g.Ok() && |d| == |stable| == g.disksize && g.IsLog(lh)
  {
    && (forall i | 0 <= i < |lh| :: d[g.start + i + 1] == stable[lh[i]])
    && (forall b {:trigger g.Home(b)} | g.Home(b) && b !in lh :: d[b] == stable[b])
  }

  /** Recovery delivers exactly what the disk promises. */
  lemma RecoveredIsPromise(g: Geometry, d: Disk, stable: Disk)
    requires g.Ok() && HeadOk(g, d) && |stable| == g.disksize
    ensures SameHome(g, Recovered(g, d), stable) <==> Promises(g, d, HeadBlocks(g, d), stable)
  {
    var lh := HeadBlocks(g, d);
    InstallIsPromise(g, d, lh, stable);
    assert forall b {:trigger g.Home(b)} | g.Home(b) :: Recovered(g, d)[b] == Install(g, d, lh, |lh|)[b];
  }

  lemma InstallIsPromise(g: Geometry, d: Disk, lh: seq<nat>, stable: Disk)
    requires g.Ok() && |d| == |stable| == g.disksize && g.IsLog(lh)
    ensures SameHome(g, Install(g, d, lh, |lh|), stable) <==> Promises(g, d, lh, stable)
  {
    forall i | 0 <= i < |lh| ensures lh[i] < |d| && Install(g, d, lh, |lh|)[lh[i]] == d[g.start + i + 1] {
      InstalledAt(g, d, lh, i);
    }
    forall b | g.Home(b) && b !in lh ensures Install(g, d, lh, |lh|)[b] == d[b] {
      NotInstalledAt(g, d, lh, b);
    }
    PointwisePromise(g, d, lh, stable, Install(g, d, lh, |lh|));
  }

  lemma PointwisePromise(g: Geometry, d: Disk, lh: seq<nat>, stable: Disk, r: Disk)
    requires g.Ok() && |d| == |stable| == |r| == g.disksize && g.IsLog(lh)
    requires forall i | 0 <= i < |lh| :: lh[i] < |r| && r[lh[i]] == d[g.start + i + 1]
    requires forall b {:trigger g.Home(b)} | g.Home(b) && b !in lh :: r[b] == d[b]
    ensures SameHome(g, r, stable) <==> Promises(g, d, lh, stable)
  {
    if SameHome(g, r, stable) {
      assert forall i | 0 <= i < |lh| :: g.Home(lh[i]);
    }
  }

  lemma InstalledAt(g: Geometry, d: Disk, lh: seq<nat>, i: nat)
    requires g.Ok() && |d| == g.disksize && g.IsLog(lh) && i < |lh|
    ensures lh[i] < |d| && Install(g, d, lh, |lh|)[lh[i]] == d[g.start + i + 1]
  {
    assert g.Home(lh[i]);
    InstallAt(g, d, lh, |lh|, lh[i]);
  }

  lemma NotInstalledAt(g: Geometry, d: Disk, lh: seq<nat>, b: nat)
    requires g.Ok() && |d| == g.disksize && g.IsLog(lh) && b < |d| && b !in lh
    ensures Install(g, d, lh, |lh|)[b] == d[b]
  {
    InstallAt(g, d, lh, |lh|, b);
  }

  /** Recovery is idempotent at every crash point: putting any logged block in
      place leaves the header and the promise as they were. */
  lemma InstallKeepsPromise(g: Geometry, d: Disk, lh: seq<nat>, stable: Disk, k: nat)
    requires g.Ok() && |d| == |stable| == g.disksize && g.IsLog(lh) && k < |lh|
    requires Promises(g, d, lh, stable)
    ensures Promises(g, d[lh[k] := d[g.start + k + 1]], lh, stable)
    ensures d[lh[k] := d[g.start + k + 1]][g.start] == d[g.start]
  {
    assert g.Home(lh[k]);
  }

  /** With every logged block in place the promise no longer needs the log. */
  lemma InstalledNeedsNoLog(g: Geometry, d: Disk, lh: seq<nat>, stable: Disk, e: Disk)
    requires g.Ok() && |d| == |stable| == g.disksize && g.IsLog(lh) && Promises(g, d, lh, stable)
    requires forall i | 0 <= i < |lh| :: d[lh[i]] == stable[lh[i]]
    requires e == d[g.start := PutHead(d[g.start], [])]
    ensures HeadOk(g, e) && HeadBlocks(g, e) == [] && Promises(g, e, [], stable)
  {
    HeadRoundTrip(g, d, []);
    forall b | g.Home(b) ensures e[b] == stable[b] {
      if b in lh {
        var i :| 0 <= i < |lh| && lh[i] == b;
      }
    }
  }

  /** An empty header makes recovery the identity on home blocks, whatever the log blocks hold. */
  lemma RecoveredEmpty(g: Geometry, d: Disk)
    requires g.Ok() && |d| == g.disksize && HeadCount(g, d) == 0
    ensures HeadOk(g, d) && SameHome(g, Recovered(g, d), d)
  {
    RecoveredIsPromise(g, d, d);
  }
}
