/** log.c run by one kernel thread over the buffer cache. Every completed block
    write is kept in the cache's history, so that a postcondition can speak of the
    disk a crash after any of them leaves behind. */
module Log {
  import opened Blocks
  import opened LogSpec
  import opened Params
  import opened Bio
  import opened LogCache

  // ----- what the disk images of a commit recover to -----

  /** e differs from d only in logged-block slots, not in the header or any home block. */
  predicate LogAreaOnly(g: Geometry, d: Disk, e: Disk) {
    |e| == |d| && forall b | 0 <= b < |d| && !(g.start < b < g.start + g.size) :: e[b] == d[b]
  }

  ghost predicate RecoversTo(g: Geometry, d: Disk, home: Disk)
    requires g.Ok()
  {
    HeadOk(g, d) && SameHome(g, Recovered(g, d), home)
  }

  lemma LoggingRecoversOld(g: Geometry, d: Disk, e: Disk)
    requires g.Ok() && |d| == g.disksize && HeadCount(g, d) == 0 && LogAreaOnly(g, d, e)
    ensures RecoversTo(g, e, d)
  {
    assert e[g.start] == d[g.start];
    RecoveredEmpty(g, e);
  }

  /** install_trans at any point keeps header and promise. */
  lemma {:induction false} InstallKeepsHead(g: Geometry, d: Disk, lh: seq<nat>, stable: Disk, k: nat)
    requires g.Ok() && |d| == |stable| == g.disksize && g.IsLog(lh) && k <= |lh| && Promises(g, d, lh, stable)
    ensures Install(g, d, lh, k)[g.start] == d[g.start] && Promises(g, Install(g, d, lh, k), lh, stable)
    ensures forall i | 0 <= i < k :: Install(g, d, lh, k)[lh[i]] == stable[lh[i]]
  {
    if k > 0 {
      InstallKeepsHead(g, d, lh, stable, k - 1);
      InstallKeepsPromise(g, Install(g, d, lh, k - 1), lh, stable, k - 1);
    }
  }

  lemma InstallingRecoversNew(g: Geometry, d: Disk, lh: seq<nat>, stable: Disk, k: nat)
    requires g.Ok() && |d| == |stable| == g.disksize && g.IsLog(lh) && k <= |lh| && Promises(g, d, lh, stable)
    requires HeadOk(g, d) && HeadBlocks(g, d) == lh
    ensures RecoversTo(g, Install(g, d, lh, k), stable)
  {
    InstallKeepsHead(g, d, lh, stable, k);
    RecoveredIsPromise(g, Install(g, d, lh, k), stable);
  }

  /** Clearing the header of d leaves post on the home blocks, and nothing to recover. */
  ghost predicate Erases(g: Geometry, d: Disk, post: Disk)
    requires g.Ok()
  {
    && |d| == g.disksize
    && var e := d[g.start := PutHead(d[g.start], [])];
      RecoversTo(g, e, post) && HeadCount(g, e) == 0 && SameHome(g, e, post)
  }

  lemma ErasingRecoversNew(g: Geometry, d: Disk, lh: seq<nat>, stable: Disk, e: Disk)
    requires g.Ok() && |d| == |stable| == g.disksize && g.IsLog(lh) && Promises(g, d, lh, stable)
    requires var f := Install(g, d, lh, |lh|); e == f[g.start := PutHead(f[g.start], [])]
    ensures RecoversTo(g, e, stable) && HeadCount(g, e) == 0 && SameHome(g, e, stable)
  {
    InstallKeepsHead(g, d, lh, stable, |lh|);
    InstalledNeedsNoLog(g, Install(g, d, lh, |lh|), lh, stable, e);
    RecoveredIsPromise(g, e, stable);
  }

  /** Image k of a commit of n blocks recovers to the old home blocks before the
      header write (image n) and to the new ones from it on. */
  ghost predicate CommitImages(g: Geometry, d: Disk, n: nat, post: Disk, images: seq<Disk>)
    requires g.Ok()
  {
    forall k | 0 <= k < |images| :: RecoversTo(g, images[k], if k < n then d else post)
  }

  lemma LoggingImages(g: Geometry, d: Disk, n: nat, post: Disk, before: seq<Disk>, history: seq<Disk>)
    requires g.Ok() && |d| == g.disksize && HeadCount(g, d) == 0 && before <= history && |history| <= |before| + n
    requires forall k | |before| <= k < |history| :: LogAreaOnly(g, d, history[k])
    ensures CommitImages(g, d, n, post, history[|before|..])
  {
    forall k | 0 <= k < |history| - |before| ensures RecoversTo(g, history[|before|..][k], d) {
      LoggingRecoversOld(g, d, history[|before| + k]);
    }
  }

  /** The header write publishes the transaction and adds an image of it. */
  lemma HeadPublished(
      g: Geometry, d: Disk, d1: Disk, lh: seq<nat>, post: Disk, before: seq<Disk>, history: seq<Disk>)
    requires g.Ok() && |d| == |d1| == |post| == g.disksize && g.IsLog(lh) && LogAreaOnly(g, d, d1)
    requires forall i | 0 <= i < |lh| :: lh[i] < |d1| && d1[g.start + i + 1] == post[lh[i]]
    requires forall b {:trigger g.Home(b)} | g.Home(b) && b !in lh :: d[b] == post[b]
    requires before <= history && |history| == |before| + |lh|
    requires CommitImages(g, d, |lh|, post, history[|before|..])
    ensures forall i | 0 <= i < |lh| :: lh[i] < 0x1_0000_0000
    ensures var e := d1[g.start := PutHead(d1[g.start], lh)];
      && HeadOk(g, e) && HeadBlocks(g, e) == lh && Promises(g, e, lh, post)
      && CommitImages(g, d, |lh|, post, (history + [e])[|before|..])
  {
    assert forall i | 0 <= i < |lh| :: g.Home(lh[i]);
    CommittedPromise(g, d, d1, lh, post);
    CommitImage(g, d, post, before, history, d1[g.start := PutHead(d1[g.start], lh)]);
  }

  /** The image after the header write joins those of the log writes. */
  lemma CommitImage(g: Geometry, d: Disk, post: Disk, before: seq<Disk>, history: seq<Disk>, e: Disk)
    requires g.Ok() && before <= history && CommitImages(g, d, |history| - |before|, post, history[|before|..])
    requires RecoversTo(g, e, post)
    ensures CommitImages(g, d, |history| - |before|, post, (history + [e])[|before|..])
  {
    assert (history + [e])[|before|..] == history[|before|..] + [e];
  }

  /** The images of the installing stage join those up to the header write. */
  lemma InstallImages(
      g: Geometry, d: Disk, n: nat, post: Disk, before: seq<Disk>, published: seq<Disk>, history: seq<Disk>)
    requires g.Ok() && before <= published <= history && |published| == |before| + n + 1
    requires CommitImages(g, d, n, post, published[|before|..])
    requires forall k | |published| <= k < |history| :: RecoversTo(g, history[k], post)
    ensures CommitImages(g, d, n, post, history[|before|..])
  {
    var images := history[|before|..];
    forall k | 0 <= k < |images| ensures RecoversTo(g, images[k], if k < n then d else post) {
      assert images[k] == history[|before| + k];
      if k <= n {
        assert images[k] == published[|before|..][k];
      }
    }
  }

  /** After tail passes of write_log: the images since before, the last of them being e. */
  ghost predicate LogWritten(
      g: Geometry, d: Disk, post: Disk, lh: seq<nat>, tail: nat, before: seq<Disk>, history: seq<Disk>, e: Disk)
  {
    && before <= history && |history| == |before| + tail && tail <= |lh| && g.start + |lh| < |e|
    && (forall k | |before| <= k < |history| :: LogAreaOnly(g, d, history[k]))
    && LogAreaOnly(g, d, e) && |history| > 0 && history[|history| - 1] == e
    && forall i | 0 <= i < tail :: lh[i] < |post| && e[g.start + i + 1] == post[lh[i]]
  }

  lemma {:induction false} LogWrittenNext(
      g: Geometry, d: Disk, post: Disk, lh: seq<nat>, tail: nat, before: seq<Disk>,
      history: seq<Disk>, f: Disk, e: Disk)
    requires g.Ok() && g.IsLog(lh) && tail < |lh| && |e| == |f| == g.disksize && lh[tail] < |post|
    requires e == f[g.start + tail + 1 := post[lh[tail]]]
    requires LogWritten(g, d, post, lh, tail, before, history, f)
    ensures LogWritten(g, d, post, lh, tail + 1, before, history + [e], e)
  {
  }

  /** Once the header is on disk it names lh and the disk promises the new blocks. */
  lemma CommittedPromise(g: Geometry, d: Disk, d1: Disk, lh: seq<nat>, post: Disk)
    requires g.Ok() && |d| == |d1| == |post| == g.disksize && g.IsLog(lh) && LogAreaOnly(g, d, d1)
    requires forall i | 0 <= i < |lh| :: g.Home(lh[i]) && d1[g.start + i + 1] == post[lh[i]]
    requires forall b {:trigger g.Home(b)} | g.Home(b) && b !in lh :: d[b] == post[b]
    ensures var d2 := d1[g.start := PutHead(d1[g.start], lh)];
      HeadOk(g, d2) && HeadBlocks(g, d2) == lh && Promises(g, d2, lh, post) && RecoversTo(g, d2, post)
  {
    HeadRoundTrip(g, d1, lh);
    RecoveredIsPromise(g, d1[g.start := PutHead(d1[g.start], lh)], post);
  }

  lemma {:induction false} InstallingImages(
      g: Geometry, d: Disk, lh: seq<nat>, stable: Disk, before: seq<Disk>, history: seq<Disk>)
    requires g.Ok() && |d| == |stable| == g.disksize && g.IsLog(lh) && Promises(g, d, lh, stable)
    requires HeadOk(g, d) && HeadBlocks(g, d) == lh && before <= history && |history| <= |before| + |lh|
    requires forall k | |before| <= k < |history| :: history[k] == Install(g, d, lh, k - |before| + 1)
    ensures forall k | |before| <= k < |history| :: RecoversTo(g, history[k], stable)
  {
    forall k | |before| <= k < |history| ensures RecoversTo(g, history[k], stable) {
      InstallingImage(g, d, lh, stable, k - |before| + 1, history[k]);
    }
  }

  lemma InstallingImage(g: Geometry, d: Disk, lh: seq<nat>, stable: Disk, k: nat, e: Disk)
    requires g.Ok() && |d| == |stable| == g.disksize && g.IsLog(lh) && k <= |lh| && Promises(g, d, lh, stable)
    requires HeadOk(g, d) && HeadBlocks(g, d) == lh && e == Install(g, d, lh, k)
    ensures RecoversTo(g, e, stable)
  {
    InstallingRecoversNew(g, d, lh, stable, k);
  }

  lemma LogReadings(g: Geometry, d: Disk, bs: seq<Buf>, n: nat, lh: seq<nat>, post: Disk)
    requires g.Ok() && |d| == |post| == g.disksize && g.IsLog(lh) && Calm(d, bs, n, Listed(lh, |lh|))
    requires forall b | 0 <= b < |d| :: post[b] == Logical(d, bs, n, b)
    ensures forall b {:trigger g.Home(b)} | g.Home(b) && b !in lh :: d[b] == post[b]
  {
    forall b | g.Home(b) && b !in lh ensures d[b] == post[b] {
      CalmReads(d, bs, n, Listed(lh, |lh|), b);
    }
  }

  lemma CommitSides(g: Geometry, d: Disk, n: nat, post: Disk, before: seq<Disk>, history: seq<Disk>)
    requires g.Ok() && before <= history && CommitImages(g, d, n, post, history[|before|..])
    ensures forall k | |before| <= k < |history| :: RecoversTo(g, history[k], d) || RecoversTo(g, history[k], post)
  {
    forall k | |before| <= k < |history| ensures RecoversTo(g, history[k], d) || RecoversTo(g, history[k], post) {
      assert history[k] == history[|before|..][k - |before|];
    }
  }

  class Log {
    const g: Geometry
    const cache: BCache
    var n: nat
    var block: seq<nat>

    ghost predicate Valid()
      reads this, cache, cache.buf
    {
      && cache.Valid() && g.Ok() && |cache.disk| == g.disksize
      && |block| == LOGSIZE && n <= LOGSIZE && g.IsLog(block[..n])
    }

    ghost predicate Settled(pinned: set<nat>)
      reads this, cache, cache.buf
    {
      Valid() && Calm(cache.disk, cache.buf[..], cache.nbuf, pinned)
    }

    /** initlog, up to the recovery. */
    constructor (g: Geometry, cache: BCache)
      requires cache.Valid() && g.Ok() && |cache.disk| == g.disksize
      ensures Valid() && this.g == g && this.cache == cache && n == 0
    {
      this.g := g;
      this.cache := cache;
      n := 0;
      block := seq(LOGSIZE, i => 0);
    }

    /** memmove into a held buffer and bwrite it. */
    method Store(b: nat, data: Block, ghost pinned: set<nat>)
      requires Settled(pinned) && b < cache.nbuf && cache.buf[b].valid && cache.buf[b].refcnt > 0
      modifies cache`disk, cache`history, cache.buf
      ensures Settled(pinned - {old(cache.buf[b].blockno)})
      ensures cache.buf[..] == old(cache.buf[..])[b := old(cache.buf[b]).(data := data, dirty := false)]
      ensures var bn := old(cache.buf[b].blockno);
        && bn < |old(cache.disk)| && cache.disk == old(cache.disk)[bn := data]
        && forall c | 0 <= c < |cache.disk| :: cache.Reads(c) == if c == bn then data else old(cache.Reads(c))
      ensures cache.history == old(cache.history) + [cache.disk]
    {
      ghost var bs := cache.buf[..];
      cache.SetData(b, data);
      cache.Bwrite(b);
      assert cache.buf[..] == bs[b := bs[b].(data := data, dirty := false)];
      assert Calm(cache.disk, cache.buf[..], cache.nbuf, pinned - {bs[b].blockno});
    }

    /** brelse while the cache is calm. */
    method Put(b: nat, ghost pinned: set<nat>)
      requires Settled(pinned) && b < cache.nbuf && cache.buf[b].refcnt > 0
      modifies cache`order, cache`stamp, cache`clock, cache.buf
      ensures Settled(pinned) && ReleaseFrame(old(cache.buf[..]), cache.buf[..], cache.nbuf, b)
      ensures forall c | 0 <= c < |cache.disk| :: cache.Reads(c) == old(cache.Reads(c))
    {
      ghost var bs := cache.buf[..];
      cache.Brelse(b);
      ReleaseKeepsCalm(cache.disk, bs, cache.buf[..], cache.nbuf, pinned, b);
    }

    /** memmove, bwrite, brelse, brelse: block dst's buffer becomes a written copy of src's. */
    method CopyOver(src: nat, dst: nat, ghost pinned: set<nat>)
      requires Settled(pinned) && src < cache.nbuf && dst < cache.nbuf && src != dst
      requires cache.buf[src].valid && cache.buf[dst].valid && cache.buf[src].refcnt > 0 && cache.buf[dst].refcnt > 0
      modifies cache, cache.buf
      ensures Settled(pinned - {old(cache.buf[dst].blockno)})
      ensures var b := old(cache.buf[dst].blockno);
        && b < |old(cache.disk)| && cache.disk == old(cache.disk)[b := old(cache.buf[src].data)]
        && forall c | 0 <= c < |cache.disk| ::
             cache.Reads(c) == if c == b then old(cache.buf[src].data) else old(cache.Reads(c))
      ensures cache.history == old(cache.history) + [cache.disk]
      ensures CopyFrame(old(cache.buf[..]), cache.buf[..], cache.nbuf, src, dst)
    {
      ghost var less := pinned - {cache.buf[dst].blockno};
      ghost var bs := cache.buf[..];
      var data := cache.buf[src].data;
      Store(dst, data, pinned);
      ghost var cs := cache.buf[..];
      Put(src, less);
      ghost var ds := cache.buf[..];
      Put(dst, less);
      ReleasesCopy(bs, cs, ds, cache.buf[..], cache.nbuf, src, dst, data);
    }

    /** bread(log.dev, b) while the cache is calm. */
    method Get(b: nat, ghost pinned: set<nat>) returns (r: Option<nat>)
      requires Settled(pinned)
      modifies cache.buf
      ensures r.None? <==> b >= |cache.disk| || NoBuffer(old(cache.buf[..]), cache.nbuf, ROOTDEV, b)
      ensures r.Some? ==> Settled(pinned) && b < |cache.disk| && r.value < cache.nbuf
      ensures r.Some? ==>
        cache.buf[r.value].valid && cache.buf[r.value].refcnt > 0 && Keyed(cache.buf[..], r.value, ROOTDEV, b)
      ensures r.Some? ==>
        cache.buf[r.value].data == old(cache.Reads(b)) && BreadFrame(old(cache.buf[..]), cache.buf[..], r.value)
      ensures r.Some? ==> forall c | 0 <= c < |cache.disk| :: cache.Reads(c) == old(cache.Reads(c))
    {
      ghost var bs := cache.buf[..];
      r := cache.Bread(ROOTDEV, b);
      if r.Some? {
        BreadKeepsCalm(cache.disk, bs, cache.buf[..], cache.nbuf, pinned, r.value);
      }
    }

    /** bread of two blocks one after the other, both then held. */
    method GetBoth(b: nat, c: nat, ghost pinned: set<nat>) returns (ok: bool, r: nat, q: nat)
      requires Settled(pinned) && b != c && b < g.disksize && c < g.disksize
      modifies cache.buf
      ensures RoomForBoth(old(cache.buf[..]), cache.nbuf, b, c) ==> ok
      ensures NoBuffer(old(cache.buf[..]), cache.nbuf, ROOTDEV, b) || cache.nbuf < 2 ==> !ok
      ensures ok ==> Settled(pinned) && BothRead(old(cache.buf[..]), cache.buf[..], cache.nbuf, r, q)
      ensures ok ==> Keyed(cache.buf[..], r, ROOTDEV, b) && cache.buf[r].data == old(cache.Reads(b))
      ensures ok ==> Keyed(cache.buf[..], q, ROOTDEV, c) && cache.buf[q].data == old(cache.Reads(c))
      ensures ok ==> forall c | 0 <= c < |cache.disk| :: cache.Reads(c) == old(cache.Reads(c))
    {
      ghost var bs := cache.buf[..];
      var first := Get(b, pinned);
      if first == None {
        assert !AnyFree(bs, cache.nbuf);
        return false, 0, 0;
      }
      r := first.value;
      ghost var cs := cache.buf[..];
      if RoomForBoth(bs, cache.nbuf, b, c) {
        RoomForSecond(bs, cs, cache.nbuf, b, c, r);
      }
      var second := Get(c, pinned);
      if second == None {
        return false, 0, 0;
      }
      q := second.value;
      ok := true;
    }

    /** One round of write_log or install_trans: block dst becomes a written copy of
        block src. False is a panic: one of the two could not be read. */
    method CopyBlock(src: nat, dst: nat, srcFirst: bool, ghost pinned: set<nat>) returns (ok: bool)
      requires Settled(pinned) && src != dst && src < g.disksize && dst < g.disksize
      modifies cache, cache.buf
      ensures RoomForBoth(old(cache.buf[..]), cache.nbuf, src, dst) ==> ok
      ensures NoBuffer(old(cache.buf[..]), cache.nbuf, ROOTDEV, if srcFirst then src else dst) || cache.nbuf < 2 ==> !ok
      ensures !ok ==> cache.disk == old(cache.disk) && cache.history == old(cache.history)
      ensures ok ==> Settled(pinned - {dst}) && Rests(old(cache.buf[..]), cache.buf[..], cache.nbuf, {dst})
      ensures ok ==> cache.disk == old(cache.disk)[dst := old(cache.Reads(src))]
      ensures ok ==> cache.history == old(cache.history) + [cache.disk]
      ensures ok ==> forall c | 0 <= c < |cache.disk| ::
        cache.Reads(c) == if c == dst then old(cache.Reads(src)) else old(cache.Reads(c))
    {
      ghost var bs := cache.buf[..];
      var r, q;
      if srcFirst {
        ok, r, q := GetBoth(src, dst, pinned);
      } else {
        ok, q, r := GetBoth(dst, src, pinned);
      }
      if ok {
        ghost var ds := cache.buf[..];
        CopyOver(r, q, pinned);
        CopyRests(old(cache.disk), bs, ds, cache.buf[..], cache.nbuf, r, q);
      }
    }

    function Blocknos(): (lh: seq<nat>)
      reads this
      requires n <= |block|
    {
      block[..n]
    }

    /** write_log: copy the logged blocks from the cache to the log. It ends if there
        is a free buffer besides the pinned ones, and cannot begin without one. */
    method WriteLog(ghost pinned: set<nat>) returns (ok: bool)
      requires Settled(pinned) && forall b | b in pinned :: g.Home(b)
      modifies cache, cache.buf
      ensures AnyFree(old(cache.buf[..]), cache.nbuf) && LogPinned(old(cache.buf[..]), cache.nbuf, Blocknos()) ==> ok
      ensures n > 0 && NoBuffer(old(cache.buf[..]), cache.nbuf, ROOTDEV, g.start + 1) ==> !ok
      ensures old(cache.history) <= cache.history && |cache.history| <= |old(cache.history)| + n
      ensures forall k | |old(cache.history)| <= k < |cache.history| ::
        LogAreaOnly(g, old(cache.disk), cache.history[k])
      ensures ok ==> Settled(pinned) && Rests(old(cache.buf[..]), cache.buf[..], cache.nbuf, {})
      ensures ok ==> |cache.history| == |old(cache.history)| + n
      ensures ok ==> LogAreaOnly(g, old(cache.disk), cache.disk) && cache.history[|cache.history| - 1] == cache.disk
      ensures ok ==> forall i | 0 <= i < n ::
        block[i] < |cache.disk| && cache.disk[g.start + i + 1] == old(cache.Reads(block[i]))
      ensures ok ==> forall c | 0 <= c < |cache.disk| && g.Home(c) :: cache.Reads(c) == old(cache.Reads(c))
    {
      ghost var d, bs, before, post := cache.disk, cache.buf[..], cache.history, Reading();
      ghost var lh := Blocknos();
      var tail := 0;
      while tail < n
        invariant 0 <= tail <= n && Settled(pinned) && Rests(bs, cache.buf[..], cache.nbuf, {})
        invariant tail > 0 ==> !NoBuffer(bs, cache.nbuf, ROOTDEV, g.start + 1)
        invariant tail == 0 ==> cache.buf[..] == bs
        invariant LogWritten(g, d, post, lh, tail, before, cache.history, cache.disk)
        invariant forall c | 0 <= c < |cache.disk| && g.Home(c) :: cache.Reads(c) == post[c]
      {
        assert g.Home(lh[tail]) && lh[tail] == block[tail];
        ghost var history, f := cache.history, cache.disk;
        ok := LogOne(block[tail], g.start + tail + 1, pinned, bs);
        if !ok {
          return;
        }
        LogWrittenNext(g, d, post, lh, tail, before, history, f, cache.disk);
        tail := tail + 1;
      }
      ok := true;
    }

    /** One pass of write_log; bs is the cache as the loop found it. */
    method LogOne(b: nat, logged: nat, ghost pinned: set<nat>, ghost bs: seq<Buf>) returns (ok: bool)
      requires Settled(pinned) && (forall b | b in pinned :: g.Home(b)) && g.Home(b)
      requires g.start < logged < g.start + g.size && cache.nbuf <= |bs| && Rests(bs, cache.buf[..], cache.nbuf, {})
      modifies cache, cache.buf
      ensures AnyFree(bs, cache.nbuf) && PinnedIn(bs, cache.nbuf, b) ==> ok
      ensures NoBuffer(old(cache.buf[..]), cache.nbuf, ROOTDEV, logged) ==> !ok
      ensures !ok ==> cache.disk == old(cache.disk) && cache.history == old(cache.history)
      ensures ok ==> Settled(pinned) && Rests(bs, cache.buf[..], cache.nbuf, {})
      ensures ok ==> cache.disk == old(cache.disk)[logged := old(cache.Reads(b))]
      ensures ok ==> cache.history == old(cache.history) + [cache.disk]
      ensures ok ==> forall c | 0 <= c < |cache.disk| && g.Home(c) :: cache.Reads(c) == old(cache.Reads(c))
    {
      ghost var cs := cache.buf[..];
      if AnyFree(bs, cache.nbuf) && PinnedIn(bs, cache.nbuf, b) {
        StillRoom(bs, cs, cache.nbuf, {}, [b], 0, logged);
      }
      ok := CopyBlock(b, logged, false, pinned);
      if ok {
        assert pinned - {logged} == pinned && {logged} !! pinned;
        RestsLess(old(cache.disk), cs, cache.buf[..], cache.nbuf, {logged}, pinned);
        RestsAgain(bs, cs, cache.buf[..], cache.nbuf);
      }
    }

    /** The words of the in-memory header laid over a block. */
    method HeadWords(head: Block) returns (data: Block)
      requires Valid()
      ensures forall i | 0 <= i < n :: Blocknos()[i] < 0x1_0000_0000
      ensures data == PutHead(head, Blocknos())
    {
      ghost var lh := Blocknos();
      assert forall i | 0 <= i < n :: g.Home(lh[i]);
      data := SetWord(head, 0, n);
      var i := 0;
      while i < n
        invariant 0 <= i <= n && data == PutEntries(SetWord(head, 0, n), lh, i)
      {
        data := SetWord(data, i + 1, block[i]);
        i := i + 1;
      }
    }

    /** write_head: the in-memory header into the header block, and out. False is the
        panic for want of a buffer. */
    method WriteHead(ghost pinned: set<nat>) returns (ok: bool)
      requires Settled(pinned) && g.start !in pinned
      modifies cache, cache.buf
      ensures ok <==> !NoBuffer(old(cache.buf[..]), cache.nbuf, ROOTDEV, g.start)
      ensures !ok ==> cache.disk == old(cache.disk) && cache.history == old(cache.history)
      ensures ok ==> Settled(pinned) && Rests(old(cache.buf[..]), cache.buf[..], cache.nbuf, {})
      ensures ok ==> cache.history == old(cache.history) + [cache.disk]
      ensures forall i | 0 <= i < n :: Blocknos()[i] < 0x1_0000_0000
      ensures ok ==> cache.disk == old(cache.disk)[g.start := PutHead(old(cache.disk)[g.start], Blocknos())]
      ensures ok ==> forall c | 0 <= c < |cache.disk| && c != g.start :: cache.Reads(c) == old(cache.Reads(c))
    {
      ghost var bs := cache.buf[..];
      ghost var lh := Blocknos();
      assert forall i | 0 <= i < n :: g.Home(lh[i]);
      CalmReads(cache.disk, bs, cache.nbuf, pinned, g.start);
      var r := Get(g.start, pinned);
      if r == None {
        return false;
      }
      ghost var cs := cache.buf[..];
      var data := HeadWords(cache.buf[r.value].data);
      Store(r.value, data, pinned);
      assert pinned - {g.start} == pinned;
      ghost var ds := cache.buf[..];
      Put(r.value, pinned);
      HeadRests(bs, cs, ds, cache.buf[..], cache.nbuf, r.value, data);
      ok := true;
    }

    /** install_trans: copy the logged blocks to their home locations. It ends with two
        free buffers, or with one if the logged blocks are still in the cache; it
        never does with a single buffer. */
    method InstallTrans(ghost pinned: set<nat>) returns (ok: bool)
      requires Settled(pinned) && forall b | b in pinned :: g.Home(b)
      modifies cache, cache.buf
      ensures RoomToInstall(old(cache.buf[..]), cache.nbuf, Blocknos()) ==> ok
      ensures n > 0 && cache.nbuf < 2 ==> !ok
      ensures old(cache.history) <= cache.history && |cache.history| <= |old(cache.history)| + n
      ensures forall k | |old(cache.history)| <= k < |cache.history| ::
        cache.history[k] == Install(g, old(cache.disk), Blocknos(), k - |old(cache.history)| + 1)
      ensures ok ==> Settled(pinned - Listed(Blocknos(), n)) && |cache.history| == |old(cache.history)| + n
      ensures ok ==> Rests(old(cache.buf[..]), cache.buf[..], cache.nbuf, Listed(Blocknos(), n))
      ensures ok ==> cache.disk == Install(g, old(cache.disk), Blocknos(), n)
    {
      ghost var d, bs := cache.disk, cache.buf[..];
      ghost var lh := Blocknos();
      var tail := 0;
      assert Settled(pinned - Listed(lh, 0)) by { assert pinned - Listed(lh, 0) == pinned; }
      while tail < n
        invariant 0 <= tail <= n && Settled(pinned - Listed(lh, tail)) && (tail > 0 ==> cache.nbuf >= 2)
        invariant Rests(bs, cache.buf[..], cache.nbuf, Listed(lh, tail))
        invariant old(cache.history) <= cache.history && |cache.history| == |old(cache.history)| + tail
        invariant forall k | |old(cache.history)| <= k < |cache.history| ::
          cache.history[k] == Install(g, d, lh, k - |old(cache.history)| + 1)
        invariant cache.disk == Install(g, d, lh, tail)
      {
        ok := InstallOne(lh, tail, pinned, bs);
        if !ok {
          return;
        }
        tail := tail + 1;
      }
      ok := true;
    }

    /** One pass of install_trans; bs is the cache as the loop found it. */
    method InstallOne(ghost lh: seq<nat>, tail: nat, ghost pinned: set<nat>, ghost bs: seq<Buf>) returns (ok: bool)
      requires Valid() && tail < n && lh == Blocknos() && Settled(pinned - Listed(lh, tail))
      requires (forall b | b in pinned :: g.Home(b)) && cache.nbuf <= |bs|
      requires Rests(bs, cache.buf[..], cache.nbuf, Listed(lh, tail))
      modifies cache, cache.buf
      ensures RoomToInstall(bs, cache.nbuf, lh) ==> ok
      ensures cache.nbuf < 2 ==> !ok
      ensures !ok ==> cache.history == old(cache.history)
      ensures ok ==>
        Settled(pinned - Listed(lh, tail + 1)) && Rests(bs, cache.buf[..], cache.nbuf, Listed(lh, tail + 1))
      ensures ok ==> g.Home(lh[tail]) && cache.disk == old(cache.disk)[lh[tail] := old(cache.disk)[g.start + tail + 1]]
      ensures ok ==> cache.history == old(cache.history) + [cache.disk]
    {
      assert g.Home(lh[tail]) && lh[tail] == block[tail];
      ghost var left, cs := pinned - Listed(lh, tail), cache.buf[..];
      CalmReads(cache.disk, cs, cache.nbuf, left, g.start + tail + 1);
      if RoomToInstall(bs, cache.nbuf, lh) {
        NotListed(lh, tail);
        StillRoom(bs, cs, cache.nbuf, Listed(lh, tail), lh, tail, g.start + tail + 1);
      }
      ok := CopyBlock(g.start + tail + 1, block[tail], true, left);
      if ok {
        ListedNext(lh, tail);
        assert left - {lh[tail]} == pinned - Listed(lh, tail + 1);
        RestsTwice(bs, cs, cache.buf[..], cache.nbuf, Listed(lh, tail), {lh[tail]});
      }
    }

    /** What every block reads as, as a disk. */
    ghost function Reading(): (d: Disk)
      requires Valid()
      reads this, cache, cache.buf
      ensures |d| == |cache.disk|
      ensures forall b | 0 <= b < |d| :: d[b] == cache.Reads(b)
    {
      var d, bs, nbuf := cache.disk, cache.buf[..], cache.nbuf;
      seq(|d|, b requires 0 <= b < |d| => Logical(d, bs, nbuf, b))
    }

    /** commit's first half: after write_head the disk promises what the blocks read as. */
    method Publish(ghost post: Disk) returns (ok: bool)
      requires Valid() && Settled(Listed(Blocknos(), n)) && HeadCount(g, cache.disk) == 0
      requires n > 0 && post == Reading()
      modifies cache, cache.buf
      ensures AnyFree(old(cache.buf[..]), cache.nbuf) && LogPinned(old(cache.buf[..]), cache.nbuf, Blocknos()) ==> ok
      ensures NoBuffer(old(cache.buf[..]), cache.nbuf, ROOTDEV, g.start + 1) ==> !ok
      ensures old(cache.history) <= cache.history && |cache.history| <= |old(cache.history)| + n + 1
      ensures CommitImages(g, old(cache.disk), n, post, cache.history[|old(cache.history)|..])
      ensures ok ==> Settled(Listed(Blocknos(), n)) && |cache.history| == |old(cache.history)| + n + 1
      ensures ok ==> Rests(old(cache.buf[..]), cache.buf[..], cache.nbuf, {})
      ensures ok ==> HeadOk(g, cache.disk) && HeadBlocks(g, cache.disk) == Blocknos()
      ensures ok ==> Promises(g, cache.disk, Blocknos(), post)
    {
      ghost var d, bs, before := cache.disk, cache.buf[..], cache.history;
      ghost var lh := Blocknos();
      ghost var pinned := Listed(lh, n);
      assert forall b | b in pinned :: g.Home(b);
      LogReadings(g, d, bs, cache.nbuf, lh, post);
      ok := WriteLog(pinned);
      LoggingImages(g, d, n, post, before, cache.history);
      if !ok {
        return;
      }
      ghost var d1, cs, logged := cache.disk, cache.buf[..], cache.history;
      assert forall i | 0 <= i < |lh| :: lh[i] == block[i];
      HeadPublished(g, d, d1, lh, post, before, logged);
      RoomAfter(bs, cs, cache.nbuf, {}, lh, g.start);
      ok := WriteHead(pinned);
      if ok {
        RestsAgain(bs, cs, cache.buf[..], cache.nbuf);
      }
    }

    /** log.lh.n = 0 and write_head: clear the log. */
    method EraseHead() returns (ok: bool)
      requires Settled({})
      modifies this`n, cache, cache.buf
      ensures ok <==> !NoBuffer(old(cache.buf[..]), cache.nbuf, ROOTDEV, g.start)
      ensures !ok ==> cache.disk == old(cache.disk) && cache.history == old(cache.history)
      ensures ok ==> n == 0 && Settled({}) && Rests(old(cache.buf[..]), cache.buf[..], cache.nbuf, {})
      ensures ok ==> cache.history == old(cache.history) + [cache.disk]
      ensures ok ==> cache.disk == old(cache.disk)[g.start := PutHead(old(cache.disk)[g.start], [])]
    {
      n := 0;
      assert Blocknos() == [];
      ok := WriteHead({});
    }

    /** install_trans in commit and in recovery: every image recovers to the promised
        home blocks, and so does the disk that clearing the header is to make. */
    method InstallStage(ghost pinned: set<nat>, ghost post: Disk) returns (ok: bool)
      requires Valid() && Settled(pinned) && pinned <= Listed(Blocknos(), n)
      requires HeadOk(g, cache.disk) && HeadBlocks(g, cache.disk) == Blocknos()
      requires |post| == g.disksize && Promises(g, cache.disk, Blocknos(), post)
      modifies cache, cache.buf
      ensures RoomToInstall(old(cache.buf[..]), cache.nbuf, Blocknos()) ==>
        ok && !NoBuffer(cache.buf[..], cache.nbuf, ROOTDEV, g.start)
      ensures n > 0 && cache.nbuf < 2 ==> !ok
      ensures old(cache.history) <= cache.history && |cache.history| <= |old(cache.history)| + n
      ensures forall k | |old(cache.history)| <= k < |cache.history| :: RecoversTo(g, cache.history[k], post)
      ensures ok ==> Settled({}) && Erases(g, cache.disk, post) && |cache.history| == |old(cache.history)| + n
      ensures ok ==> Rests(old(cache.buf[..]), cache.buf[..], cache.nbuf, Listed(Blocknos(), n))
    {
      ghost var d, bs, before := cache.disk, cache.buf[..], cache.history;
      ghost var lh := Blocknos();
      ghost var done := Listed(lh, n);
      assert forall b | b in pinned :: g.Home(b);
      ok := InstallTrans(pinned);
      InstallingImages(g, d, lh, post, before, cache.history);
      if ok {
        RoomAfter(bs, cache.buf[..], cache.nbuf, done, lh, g.start);
        assert pinned - done == {};
        ErasingRecoversNew(g, d, lh, post, cache.disk[g.start := PutHead(cache.disk[g.start], [])]);
      }
    }

    /** commit's second half, and the whole of recovery: install, then erase the header.
        Every disk image on the way recovers to the promised home blocks. */
    method InstallAndErase(ghost pinned: set<nat>, ghost post: Disk) returns (ok: bool)
      requires Valid() && Settled(pinned) && pinned <= Listed(Blocknos(), n)
      requires HeadOk(g, cache.disk) && HeadBlocks(g, cache.disk) == Blocknos()
      requires |post| == g.disksize && Promises(g, cache.disk, Blocknos(), post)
      modifies this`n, cache, cache.buf
      ensures RoomToInstall(old(cache.buf[..]), cache.nbuf, old(Blocknos())) ==> ok
      ensures old(n) > 0 && cache.nbuf < 2 ==> !ok
      ensures old(cache.history) <= cache.history && |cache.history| <= |old(cache.history)| + old(n) + 1
      ensures forall k | |old(cache.history)| <= k < |cache.history| :: RecoversTo(g, cache.history[k], post)
      ensures ok ==> n == 0 && Settled({}) && HeadCount(g, cache.disk) == 0 && SameHome(g, cache.disk, post)
      ensures ok ==> Rests(old(cache.buf[..]), cache.buf[..], cache.nbuf, Listed(old(Blocknos()), old(n)))
      ensures ok ==> |cache.history| == |old(cache.history)| + old(n) + 1
    {
      ghost var bs, done := cache.buf[..], Listed(Blocknos(), n);
      ok := InstallStage(pinned, post);
      if !ok {
        return;
      }
      ghost var cs, installed := cache.buf[..], cache.history;
      ok := EraseHead();
      if ok {
        RestsNoMore(bs, cs, cache.buf[..], cache.nbuf, done);
        assert forall k | 0 <= k < |installed| :: cache.history[k] == installed[k];
      }
    }

    /** commit: write the log, write the header, install, erase the header. Whatever
        block write the run stops after, recovery of that disk yields the old home
        blocks before the header write and all of the new ones from it on. It ends
        when there is a free buffer besides the pinned ones: with nobody holding a
        buffer, exactly when something else than logged blocks fits in the cache. */
    method Commit() returns (ok: bool)
      requires Valid() && Settled(Listed(Blocknos(), n)) && HeadCount(g, cache.disk) == 0
      modifies this`n, cache, cache.buf
      ensures LogPinned(old(cache.buf[..]), cache.nbuf, old(Blocknos())) ==>
        && (AnyFree(old(cache.buf[..]), cache.nbuf) ==> ok)
        && (Unheld(old(cache.buf[..]), cache.nbuf) ==> (ok <==> old(n) == 0 || old(n) < cache.nbuf))
      ensures old(cache.history) <= cache.history
      ensures CommitImages(g, old(cache.disk), old(n), old(Reading()), cache.history[|old(cache.history)|..])
      ensures ok ==> n == 0 && Settled({}) && HeadCount(g, cache.disk) == 0
      ensures ok ==> SameHome(g, cache.disk, old(Reading()))
      ensures ok ==> Rests(old(cache.buf[..]), cache.buf[..], cache.nbuf, Listed(old(Blocknos()), old(n)))
      ensures ok ==> |cache.history| == |old(cache.history)| + if old(n) == 0 then 0 else 2 * old(n) + 2
    {
      ghost var post := Reading();
      ghost var d, bs, before := cache.disk, cache.buf[..], cache.history;
      ghost var lh := Blocknos();
      if n == 0 {
        NothingToCommit(g, d, bs, cache.nbuf, post);
        return true;
      }
      if Unheld(bs, cache.nbuf) && LogPinned(bs, cache.nbuf, lh) {
        RoomExactly(g, d, bs, cache.nbuf, lh);
      }
      ok := Publish(post);
      if !ok {
        return;
      }
      ghost var published, cs := cache.history, cache.buf[..];
      if AnyFree(bs, cache.nbuf) && LogPinned(bs, cache.nbuf, lh) {
        FreeRests(bs, cs, cache.nbuf, {});
        LogPinRests(bs, cs, cache.nbuf, lh);
      }
      ok := InstallAndErase(Listed(lh, n), post);
      InstallImages(g, d, |lh|, post, before, published, cache.history);
      if ok {
        RestsOnce(bs, cs, cache.buf[..], cache.nbuf, Listed(lh, |lh|));
      }
    }

    /** The header words of a block into an in-memory header. */
    method TakeWords(head: Block) returns (count: nat, entries: seq<nat>)
      requires |block| == LOGSIZE && Word(head, 0) <= LOGSIZE
      ensures count == Word(head, 0) && |entries| == LOGSIZE
      ensures entries[..count] == Entries(head, count) && entries[count..] == block[count..]
    {
      entries := block;
      count := Word(head, 0);
      var i := 0;
      while i < count
        invariant 0 <= i <= count && |entries| == LOGSIZE
        invariant entries[..i] == Entries(head, i) && entries[i..] == block[i..]
      {
        entries := entries[i := Word(head, i + 1)];
        assert entries[..i + 1] == entries[..i] + [Word(head, i + 1) as nat];
        i := i + 1;
      }
    }

    /** read_head: load the header; its entries past the count stay as they were.
        False is the panic for want of a buffer. */
    method ReadHead(ghost pinned: set<nat>) returns (ok: bool)
      requires Settled(pinned) && HeadOk(g, cache.disk) && g.start !in pinned
      modifies this, cache, cache.buf
      ensures ok <==> !NoBuffer(old(cache.buf[..]), cache.nbuf, ROOTDEV, g.start)
      ensures cache.disk == old(cache.disk) && cache.history == old(cache.history)
      ensures ok ==> Settled(pinned) && Blocknos() == HeadBlocks(g, cache.disk) && block[n..] == old(block)[n..]
      ensures ok ==> Rests(old(cache.buf[..]), cache.buf[..], cache.nbuf, {})
    {
      ghost var bs := cache.buf[..];
      CalmReads(cache.disk, bs, cache.nbuf, pinned, g.start);
      var r := Get(g.start, pinned);
      if r == None {
        return false;
      }
      ghost var cs := cache.buf[..];
      var head := cache.buf[r.value].data;
      Put(r.value, pinned);
      GetPutRests(bs, cs, cache.buf[..], cache.nbuf, r.value);
      n, block := TakeWords(head);
      ok := true;
    }

    /** recover_from_log at boot. Every disk image it passes through recovers to the
        same home blocks as the disk it found, so it may be cut off and started
        again any number of times; if it ends, those home blocks are in place. It
        ends with two free buffers: from a cache nobody uses, exactly with two
        buffers, or with one if the header is empty. */
    method Recover() returns (ok: bool)
      requires Settled({}) && HeadOk(g, cache.disk)
      modifies this, cache, cache.buf
      ensures TwoFree(old(cache.buf[..]), cache.nbuf) ==> ok
      ensures AllFree(old(cache.buf[..]), cache.nbuf) ==>
        (ok <==> cache.nbuf >= 2 || (cache.nbuf == 1 && HeadCount(g, old(cache.disk)) == 0))
      ensures old(cache.history) <= cache.history
      ensures forall k | |old(cache.history)| <= k < |cache.history| ::
        RecoversTo(g, cache.history[k], Recovered(g, old(cache.disk)))
      ensures ok ==> n == 0 && Settled({}) && HeadCount(g, cache.disk) == 0
      ensures ok ==> SameHome(g, cache.disk, Recovered(g, old(cache.disk)))
    {
      ghost var home, bs := Recovered(g, cache.disk), cache.buf[..];
      RecoveredIsPromise(g, cache.disk, home);
      BootRoom(bs, cache.nbuf, g.start);
      ok := ReadHead({});
      if ok {
        FreeRests(bs, cache.buf[..], cache.nbuf, {});
        ok := InstallAndErase({}, home);
      }
    }

    /** log_write of a held buffer: record its block, absorbing a repeat, and pin it.
        False is the panic "too big a transaction". */
    method LogWrite(b: nat) returns (ok: bool)
      requires Valid() && b < cache.nbuf && cache.buf[b].valid && g.Home(cache.buf[b].blockno)
      modifies this, cache.buf
      ensures Valid() && ok == (old(n) < g.Capacity())
      ensures !ok ==> Blocknos() == old(Blocknos()) && cache.buf[..] == old(cache.buf[..])
      ensures ok ==> cache.buf[..] == old(cache.buf[..])[b := old(cache.buf[b]).(dirty := true)]
      ensures ok ==> Blocknos() == Logged(old(Blocknos()), cache.buf[b].blockno)
      ensures cache.disk == old(cache.disk) && forall c | 0 <= c < |cache.disk| :: cache.Reads(c) == old(cache.Reads(c))
    {
      if n >= LOGSIZE || n >= g.size - 1 {
        return false;
      }
      ghost var lh := Blocknos();
      var bn := cache.buf[b].blockno;
      var i := 0;
      while i < n && block[i] != bn
        invariant 0 <= i <= n && bn !in block[..i]
      {
        assert block[..i + 1] == block[..i] + [block[i]];
        i := i + 1;
      }
      block := block[i := bn];
      if i == n {
        assert block[..n + 1] == lh + [bn];
        n := n + 1;
      } else {
        assert block[..n] == lh && lh[i] == bn;
      }
      cache.SetDirty(b);
      ok := true;
    }

    /** memmove into a held buffer and log_write. */
    method ChangeAndLog(r: nat, data: Block) returns (ok: bool)
      requires Valid() && r < cache.nbuf && cache.buf[r].valid && cache.buf[r].refcnt > 0
      requires g.Home(cache.buf[r].blockno)
      modifies this, cache.buf
      ensures Valid() && ok == (old(n) < g.Capacity())
      ensures ok ==> cache.buf[..] == old(cache.buf[..])[r := old(cache.buf[r]).(data := data, dirty := true)]
      ensures ok ==> Blocknos() == Logged(old(Blocknos()), old(cache.buf[r].blockno))
      ensures ok ==> forall c | 0 <= c < |cache.disk| ::
        cache.Reads(c) == if c == old(cache.buf[r].blockno) then data else old(cache.Reads(c))
    {
      cache.SetData(r, data);
      ok := LogWrite(r);
    }

    /** Between updates: just the logged blocks are pinned, all of them, and the rest of
        the cache is what the disk holds. */
    ghost predicate Ready()
      reads this, cache, cache.buf
    {
      Valid() && Settled(Listed(Blocknos(), n)) && LogPinned(cache.buf[..], cache.nbuf, Blocknos())
    }

    /** brelse between updates. */
    method Drop(r: nat)
      requires Ready() && r < cache.nbuf && cache.buf[r].refcnt > 0
      modifies cache`order, cache`stamp, cache`clock, cache.buf
      ensures Ready() && ReleaseFrame(old(cache.buf[..]), cache.buf[..], cache.nbuf, r)
      ensures forall c | 0 <= c < |cache.disk| :: cache.Reads(c) == old(cache.Reads(c))
    {
      ghost var ds := cache.buf[..];
      Put(r, Listed(Blocknos(), n));
      UpdatePins(ds, cache.buf[..], cache.nbuf, Blocknos(), r);
    }

    /** One update inside an operation: bread, memmove, log_write, brelse. False is a
        panic: no buffer for the block, or log_write's "too big a transaction". */
    method Update(b: nat, data: Block) returns (ok: bool)
      requires Ready() && g.Home(b)
      modifies this, cache`order, cache`stamp, cache`clock, cache.buf
      ensures ok <==> !NoBuffer(old(cache.buf[..]), cache.nbuf, ROOTDEV, b) && old(n) < g.Capacity()
      ensures ok ==> Ready() && Blocknos() == Logged(old(Blocknos()), b)
      ensures ok ==> forall c | 0 <= c < |cache.disk| :: cache.Reads(c) == if c == b then data else old(cache.Reads(c))
      ensures ok ==> SameHolders(old(cache.buf[..]), cache.buf[..], cache.nbuf)
    {
      ghost var lh, bs := Blocknos(), cache.buf[..];
      var r := Get(b, Listed(lh, n));
      if r == None {
        return false;
      }
      ghost var cs := cache.buf[..];
      ok := ChangeAndLog(r.value, data);
      if ok {
        ghost var ds := cache.buf[..];
        UpdateCalm(cache.disk, bs, cs, ds, cache.nbuf, lh, Blocknos(), r.value, data);
        Drop(r.value);
        UpdateRests(bs, cs, ds, cache.buf[..], cache.nbuf, r.value);
      }
    }

    /** A whole operation by itself, and its commit: all of its updates or, at whatever
        block write the run stops, none. It ends if the blocks updated fit the log and
        leave a buffer over. */
    method Transact(updates: seq<(nat, Block)>) returns (ok: bool)
      requires Settled({}) && n == 0 && HeadCount(g, cache.disk) == 0
      requires forall k | 0 <= k < |updates| :: g.Home(updates[k].0)
      modifies this, cache, cache.buf
      ensures Unheld(old(cache.buf[..]), cache.nbuf) && |updates| <= g.Capacity() && |updates| < cache.nbuf ==> ok
      ensures old(cache.history) <= cache.history
      ensures forall k | |old(cache.history)| <= k < |cache.history| ::
        || RecoversTo(g, cache.history[k], old(cache.disk))
        || RecoversTo(g, cache.history[k], Updated(old(Reading()), updates))
      ensures ok ==> n == 0 && Settled({}) && HeadCount(g, cache.disk) == 0
      ensures ok ==> SameHome(g, cache.disk, Updated(old(Reading()), updates))
    {
      ghost var d, bs, pre, before := cache.disk, cache.buf[..], Reading(), cache.history;
      assert Listed(Blocknos(), n) == {};
      var k := 0;
      while k < |updates|
        invariant 0 <= k <= |updates| && n <= k && cache.disk == d && cache.history == before
        invariant Ready()
        invariant Reading() == Updated(pre, updates[..k])
        invariant Unheld(bs, cache.nbuf) ==> Unheld(cache.buf[..], cache.nbuf)
      {
        RoomToUpdate(cache.disk, cache.buf[..], cache.nbuf, Blocknos(), updates[k].0);
        ok := Update(updates[k].0, updates[k].1);
        if !ok {
          return;
        }
        UpdatedNext(pre, updates, k);
        k := k + 1;
      }
      assert updates[..k] == updates;
      ghost var post := Reading();
      ghost var count := n;
      ok := Commit();
      CommitSides(g, d, count, post, before, cache.history);
    }
  }
}
