/** The buffer cache as log.c finds it between block transfers: which buffers differ
    from the disk, which are pinned, and whether there is room for the next read. */
module LogCache {
  import opened Blocks
  import opened LogSpec
  import opened Bio

  // ----- the cache between transfers -----

  function Listed(lh: seq<nat>, k: nat): set<nat>
    requires k <= |lh|
  {
    set b | b in lh[..k]
  }

  lemma NotListed(lh: seq<nat>, k: nat)
    requires k < |lh| && Distinct(lh)
    ensures lh[k] !in Listed(lh, k)
  {
  }

  lemma ListedNext(lh: seq<nat>, k: nat)
    requires k < |lh|
    ensures Listed(lh, k + 1) == Listed(lh, k) + {lh[k]}
  {
    assert lh[..k + 1] == lh[..k] + [lh[k]];
  }

  /** Every clean valid buffer is what the disk holds, and only blocks of pinned are dirty. */
  predicate Calm(disk: Disk, bs: seq<Buf>, n: nat, pinned: set<nat>) {
    CacheOk(disk, bs, n) && forall i | 0 <= i < n && bs[i].valid ::
      if bs[i].dirty then bs[i].blockno in pinned else bs[i].data == disk[bs[i].blockno]
  }

  lemma CalmReads(disk: Disk, bs: seq<Buf>, n: nat, pinned: set<nat>, b: nat)
    requires Calm(disk, bs, n, pinned) && b < |disk| && b !in pinned
    ensures Logical(disk, bs, n, b) == disk[b]
  {
  }

  /** bread keeps the cache calm. */
  lemma BreadKeepsCalm(disk: Disk, bs: seq<Buf>, cs: seq<Buf>, n: nat, pinned: set<nat>, r: nat)
    requires Calm(disk, bs, n, pinned) && CacheOk(disk, cs, n) && r < n && BreadFrame(bs, cs, r)
    requires cs[r].valid && cs[r].data == Logical(disk, bs, n, cs[r].blockno)
    ensures Calm(disk, cs, n, pinned)
  {
    var b := cs[r].blockno;
    match Holder(bs, n, b)
    case None =>
      assert cs[r].dirty ==> bs[r].dirty && bs[r].valid && Keyed(bs, r, ROOTDEV, b);
    case Some(j) =>
      assert cs[j] == bs[j] || j == r;
      assert j == r;
  }

  lemma ReleaseKeepsCalm(disk: Disk, bs: seq<Buf>, cs: seq<Buf>, n: nat, pinned: set<nat>, b: nat)
    requires Calm(disk, bs, n, pinned) && CacheOk(disk, cs, n) && b < n && ReleaseFrame(bs, cs, n, b)
    ensures Calm(disk, cs, n, pinned)
  {
    forall i | 0 <= i < n && cs[i].valid
      ensures if cs[i].dirty then cs[i].blockno in pinned else cs[i].data == disk[cs[i].blockno] {
      assert Unlinked(cs[i]).(refcnt := 0) == Unlinked(bs[i]).(refcnt := 0);
    }
  }

  // ----- room in the cache -----

  predicate AnyFree(bs: seq<Buf>, n: nat)
    requires n <= |bs|
  {
    exists i :: 0 <= i < n && Free(bs[i])
  }

  predicate TwoFree(bs: seq<Buf>, n: nat)
    requires n <= |bs|
  {
    exists i, j :: 0 <= i < j < n && Free(bs[i]) && Free(bs[j])
  }

  predicate AllFree(bs: seq<Buf>, n: nat)
    requires n <= |bs|
  {
    forall i | 0 <= i < n :: Free(bs[i])
  }

  lemma BootRoom(bs: seq<Buf>, n: nat, b: nat)
    requires n <= |bs|
    ensures TwoFree(bs, n) ==> !NoBuffer(bs, n, ROOTDEV, b)
    ensures AllFree(bs, n) ==> (n >= 1 <==> AnyFree(bs, n)) && (n >= 2 <==> TwoFree(bs, n))
    ensures AllFree(bs, n) ==> (n == 0 <==> NoBuffer(bs, n, ROOTDEV, b))
  {
    if AllFree(bs, n) && n >= 2 {
      assert Free(bs[0]) && Free(bs[1]);
    } else if AllFree(bs, n) && n == 1 {
      assert Free(bs[0]);
    }
  }

  predicate Unheld(bs: seq<Buf>, n: nat)
    requires n <= |bs|
  {
    forall i | 0 <= i < n :: bs[i].refcnt == 0
  }

  /** Block b is pinned in some buffer. */
  predicate PinnedIn(bs: seq<Buf>, n: nat, b: nat)
    requires n <= |bs|
  {
    exists i :: 0 <= i < n && Keyed(bs, i, ROOTDEV, b) && bs[i].dirty
  }

  /** From bs to cs no buffer is gained or lost: holders are as they were, buffers in
      use keep their keys, and just the blocks of done are no longer pinned. */
  predicate Rests(bs: seq<Buf>, cs: seq<Buf>, n: nat, done: set<nat>)
    requires n <= |bs| && n <= |cs|
  {
    forall i | 0 <= i < n :: RestsAt(bs[i], cs[i], done)
  }

  predicate RestsAt(e: Buf, f: Buf, done: set<nat>) {
    match e
    case Buf(dev, blockno, _, dirty, refcnt, _, _, _) =>
      && f.refcnt == refcnt && f.dirty == (dirty && blockno !in done)
      && (refcnt > 0 || f.dirty ==> f.dev == dev && f.blockno == blockno)
  }

  lemma RestsTwice(bs: seq<Buf>, cs: seq<Buf>, ds: seq<Buf>, n: nat, done: set<nat>, more: set<nat>)
    requires n <= |bs| && n <= |cs| && n <= |ds| && Rests(bs, cs, n, done) && Rests(cs, ds, n, more)
    ensures Rests(bs, ds, n, done + more)
  {
    forall i | 0 <= i < n ensures RestsAt(bs[i], ds[i], done + more) {
      assert RestsAt(bs[i], cs[i], done) && RestsAt(cs[i], ds[i], more);
    }
  }

  lemma RestsNoMore(bs: seq<Buf>, cs: seq<Buf>, ds: seq<Buf>, n: nat, done: set<nat>)
    requires n <= |bs| && n <= |cs| && n <= |ds| && Rests(bs, cs, n, done) && Rests(cs, ds, n, {})
    ensures Rests(bs, ds, n, done)
  {
    RestsTwice(bs, cs, ds, n, done, {});
    assert done + {} == done;
  }

  lemma RestsOnce(bs: seq<Buf>, cs: seq<Buf>, ds: seq<Buf>, n: nat, done: set<nat>)
    requires n <= |bs| && n <= |cs| && n <= |ds| && Rests(bs, cs, n, {}) && Rests(cs, ds, n, done)
    ensures Rests(bs, ds, n, done)
  {
    RestsTwice(bs, cs, ds, n, {}, done);
    assert {} + done == done;
  }

  lemma RestsAgain(bs: seq<Buf>, cs: seq<Buf>, ds: seq<Buf>, n: nat)
    requires n <= |bs| && n <= |cs| && n <= |ds| && Rests(bs, cs, n, {}) && Rests(cs, ds, n, {})
    ensures Rests(bs, ds, n, {})
  {
    forall i | 0 <= i < n ensures RestsAt(bs[i], ds[i], {}) {
      assert RestsAt(bs[i], cs[i], {}) && RestsAt(cs[i], ds[i], {});
    }
  }

  /** Blocks that are not pinned need not be named. */
  lemma RestsLess(disk: Disk, bs: seq<Buf>, cs: seq<Buf>, n: nat, done: set<nat>, pinned: set<nat>)
    requires n <= |bs| && n <= |cs| && Rests(bs, cs, n, done) && Calm(disk, bs, n, pinned) && done !! pinned
    ensures Rests(bs, cs, n, {})
  {
    forall i | 0 <= i < n ensures RestsAt(bs[i], cs[i], {}) {
      assert RestsAt(bs[i], cs[i], done);
    }
  }

  lemma FreeRests(bs: seq<Buf>, cs: seq<Buf>, n: nat, done: set<nat>)
    requires n <= |bs| && n <= |cs| && Rests(bs, cs, n, done)
    ensures forall i | 0 <= i < n && Free(bs[i]) :: Free(cs[i])
    ensures AnyFree(bs, n) ==> AnyFree(cs, n)
    ensures TwoFree(bs, n) ==> TwoFree(cs, n)
    ensures Unheld(bs, n) ==> Unheld(cs, n)
  {
    forall i | 0 <= i < n ensures cs[i].refcnt == bs[i].refcnt && (Free(bs[i]) ==> Free(cs[i])) {
      assert RestsAt(bs[i], cs[i], done);
    }
  }

  lemma PinRests(bs: seq<Buf>, cs: seq<Buf>, n: nat, done: set<nat>, b: nat)
    requires n <= |bs| && n <= |cs| && Rests(bs, cs, n, done) && PinnedIn(bs, n, b) && b !in done
    ensures PinnedIn(cs, n, b)
  {
    var i :| 0 <= i < n && Keyed(bs, i, ROOTDEV, b) && bs[i].dirty;
    assert RestsAt(bs[i], cs[i], done);
    assert Keyed(cs, i, ROOTDEV, b);
  }

  /** What is pinned or free can be read. */
  lemma RoomFor(bs: seq<Buf>, n: nat, b: nat)
    requires n <= |bs| && (AnyFree(bs, n) || PinnedIn(bs, n, b))
    ensures !NoBuffer(bs, n, ROOTDEV, b)
  {
    if AnyFree(bs, n) {
      var i :| 0 <= i < n && Free(bs[i]);
    }
  }

  /** Two blocks can be read one after the other, and both be held: with two free
      buffers, or with one if one of the blocks is pinned. */
  predicate RoomForBoth(bs: seq<Buf>, n: nat, b: nat, c: nat)
    requires n <= |bs|
  {
    TwoFree(bs, n) || (AnyFree(bs, n) && (PinnedIn(bs, n, b) || PinnedIn(bs, n, c)))
  }

  lemma RoomForSecond(bs: seq<Buf>, cs: seq<Buf>, n: nat, b: nat, c: nat, r: nat)
    requires n <= |bs| && n <= |cs| && KeysOk(cs, n) && BreadFrame(bs, cs, r) && r < n && Keyed(cs, r, ROOTDEV, b)
    requires RoomForBoth(bs, n, b, c)
    ensures !NoBuffer(cs, n, ROOTDEV, c)
  {
    if TwoFree(bs, n) {
      var i, j :| 0 <= i < j < n && Free(bs[i]) && Free(bs[j]);
      assert Free(cs[if i == r then j else i]);
    } else if PinnedIn(bs, n, c) {
      var i :| 0 <= i < n && Keyed(bs, i, ROOTDEV, c) && bs[i].dirty;
      assert Keyed(cs, i, ROOTDEV, c);
    } else {
      var i :| 0 <= i < n && Keyed(bs, i, ROOTDEV, b) && bs[i].dirty;
      assert i == r by { assert Keyed(cs, i, ROOTDEV, b); }
      var j :| 0 <= j < n && Free(bs[j]);
      assert Free(cs[j]);
    }
  }

  /** After memmove, bwrite and two brelses. */
  predicate CopyFrame(bs: seq<Buf>, cs: seq<Buf>, n: nat, src: nat, dst: nat)
    requires n <= |bs| && n <= |cs|
  {
    forall i | 0 <= i < n :: CopyFrameAt(bs[i], cs[i], i == src || i == dst, i == dst)
  }

  predicate CopyFrameAt(e: Buf, f: Buf, released: bool, written: bool) {
    match e
    case Buf(dev, blockno, _, dirty, refcnt, _, _, _) =>
      && f.dev == dev && f.blockno == blockno && f.dirty == (dirty && !written)
      && refcnt == f.refcnt + if released then 1 else 0
  }

  /** Two breads: one more reference to each of two slots. */
  predicate BothRead(bs: seq<Buf>, cs: seq<Buf>, n: nat, r: nat, q: nat) {
    && n <= |bs| == |cs| && r < n && q < n && r != q
    && cs[r].valid && cs[q].valid && cs[r].refcnt > 0 && cs[q].refcnt > 0
    && forall i | 0 <= i < n :: BothReadAt(bs[i], cs[i], i == r || i == q)
  }

  predicate BothReadAt(e: Buf, f: Buf, taken: bool) {
    match e
    case Buf(dev, blockno, _, dirty, refcnt, _, _, _) =>
      && f.dirty == dirty && f.refcnt == refcnt + (if taken then 1 else 0)
      && (!taken || refcnt > 0 || dirty ==> f.dev == dev && f.blockno == blockno)
  }

  /** Two reads, the copy and two releases leave the cache as it was, but for the pin of the block written. */
  lemma CopyRests(disk: Disk, bs: seq<Buf>, ds: seq<Buf>, es: seq<Buf>, n: nat, src: nat, dst: nat)
    requires n <= |bs| && n <= |es| && n <= |ds| && src < n && dst < n && DirtyOk(bs, n) && DataOk(disk, bs, n)
    requires BothRead(bs, ds, n, src, dst) || BothRead(bs, ds, n, dst, src)
    requires KeysOk(ds, n) && ds[dst].dev == ROOTDEV && CopyFrame(ds, es, n, src, dst)
    ensures Rests(bs, es, n, {ds[dst].blockno})
  {
    forall i | 0 <= i < n ensures RestsAt(bs[i], es[i], {ds[dst].blockno}) {
      assert CopyFrameAt(ds[i], es[i], i == src || i == dst, i == dst) &&
        BothReadAt(bs[i], ds[i], i == src || i == dst);
      assert i != dst && bs[i].dirty ==> ds[i].dev == ROOTDEV && ds[i].blockno != ds[dst].blockno;
    }
  }

  lemma ReleasesCopy(bs: seq<Buf>, cs: seq<Buf>, ds: seq<Buf>, es: seq<Buf>, n: nat, src: nat, dst: nat, data: Block)
    requires n <= |bs| && src < n && dst < n && src != dst
    requires cs == bs[dst := bs[dst].(data := data, dirty := false)]
    requires ReleaseFrame(cs, ds, n, src) && ReleaseFrame(ds, es, n, dst)
    ensures CopyFrame(bs, es, n, src, dst)
  {
    forall i | 0 <= i < n ensures CopyFrameAt(bs[i], es[i], i == src || i == dst, i == dst) {
      assert Unlinked(ds[i]) == if i == src then Unlinked(cs[i]).(refcnt := cs[i].refcnt - 1) else Unlinked(cs[i]);
      assert Unlinked(es[i]) == if i == dst then Unlinked(ds[i]).(refcnt := ds[i].refcnt - 1) else Unlinked(ds[i]);
    }
  }

  // ----- one operation by itself -----

  /** The logged blocks once b is logged: a repeat is absorbed. */
  function Logged(lh: seq<nat>, b: nat): seq<nat> {
    if b in lh then lh else lh + [b]
  }

  function Updated(d: Disk, updates: seq<(nat, Block)>): (r: Disk)
    ensures |r| == |d|
  {
    if updates == [] then d
    else
      var last := updates[|updates| - 1];
      var r := Updated(d, updates[..|updates| - 1]);
      if last.0 < |r| then r[last.0 := last.1] else r
  }

  lemma UpdatedNext(d: Disk, updates: seq<(nat, Block)>, k: nat)
    requires k < |updates| && updates[k].0 < |d|
    ensures Updated(d, updates[..k + 1]) == Updated(d, updates[..k])[updates[k].0 := updates[k].1]
  {
    assert updates[..k + 1][..k] == updates[..k];
  }

  /** The buffer changed and logged keeps the cache calm around the longer log. */
  lemma {:induction false} UpdateCalm(
      disk: Disk, bs: seq<Buf>, cs: seq<Buf>, ds: seq<Buf>, n: nat, lh: seq<nat>, more: seq<nat>, r: nat, data: Block)
    requires Calm(disk, cs, n, Listed(lh, |lh|)) && CacheOk(disk, ds, n) && r < n && cs[r].valid
    requires ds == cs[r := cs[r].(data := data, dirty := true)]
    requires more == Logged(lh, cs[r].blockno)
    requires n <= |bs| && LogPinned(bs, n, lh) && BreadFrame(bs, cs, r)
    ensures Calm(disk, ds, n, Listed(more, |more|)) && LogPinned(ds, n, more)
  {
    assert more[..|more|] == more && lh[..|lh|] == lh;
    assert forall b | b in lh :: b in more;
    assert cs[r].blockno in more by { assert cs[r].blockno !in lh ==> more[|lh|] == cs[r].blockno; }
    forall i | 0 <= i < |more| ensures PinnedIn(ds, n, more[i]) {
      if more[i] == cs[r].blockno {
        assert Keyed(ds, r, ROOTDEV, more[i]);
      } else {
        assert PinnedIn(bs, n, lh[i]);
        var j :| 0 <= j < n && Keyed(bs, j, ROOTDEV, lh[i]) && bs[j].dirty;
        assert j != r && Keyed(ds, j, ROOTDEV, lh[i]);
      }
    }
  }

  predicate SameHolders(bs: seq<Buf>, cs: seq<Buf>, n: nat) {
    n <= |bs| && n <= |cs| && forall i | 0 <= i < n :: cs[i].refcnt == bs[i].refcnt
  }

  lemma UpdateRests(bs: seq<Buf>, cs: seq<Buf>, ds: seq<Buf>, es: seq<Buf>, n: nat, r: nat)
    requires n <= |bs| && n <= |es| && r < n && BreadFrame(bs, cs, r) && ReleaseFrame(ds, es, n, r)
    requires |ds| == |cs| && ds[r].refcnt == cs[r].refcnt && forall i | 0 <= i < |cs| && i != r :: ds[i] == cs[i]
    ensures SameHolders(bs, es, n)
  {
    forall i | 0 <= i < n ensures es[i].refcnt == bs[i].refcnt {
      assert Unlinked(es[i]) == if i == r then Unlinked(ds[i]).(refcnt := ds[i].refcnt - 1) else Unlinked(ds[i]);
    }
  }

  lemma {:induction false} UpdatePins(ds: seq<Buf>, es: seq<Buf>, n: nat, lh: seq<nat>, r: nat)
    requires n <= |ds| && n <= |es| && r < n && ReleaseFrame(ds, es, n, r) && LogPinned(ds, n, lh)
    ensures LogPinned(es, n, lh)
  {
    forall i | 0 <= i < |lh| ensures PinnedIn(es, n, lh[i]) {
      assert PinnedIn(ds, n, lh[i]);
      var j :| 0 <= j < n && Keyed(ds, j, ROOTDEV, lh[i]) && ds[j].dirty;
      assert Unlinked(es[j]).(refcnt := 0) == Unlinked(ds[j]).(refcnt := 0);
      assert Keyed(es, j, ROOTDEV, lh[i]);
    }
  }

  /** With nobody holding a buffer and more buffers than logged blocks, any block can be read. */
  lemma RoomToUpdate(disk: Disk, bs: seq<Buf>, n: nat, lh: seq<nat>, b: nat)
    requires Calm(disk, bs, n, Listed(lh, |lh|)) && Distinct(lh)
    ensures Unheld(bs, n) && |lh| < n ==> !NoBuffer(bs, n, ROOTDEV, b)
  {
    if Unheld(bs, n) && |lh| < n {
      FreeWhenFew(disk, bs, n, lh);
      RoomFor(bs, n, b);
    }
  }

  /** Every logged block is pinned in the cache. */
  predicate LogPinned(bs: seq<Buf>, n: nat, lh: seq<nat>)
    requires n <= |bs|
  {
    forall i | 0 <= i < |lh| :: PinnedIn(bs, n, lh[i])
  }

  /** install_trans finds its buffers: two free ones, or one and the logged blocks in the cache. */
  predicate RoomToInstall(bs: seq<Buf>, n: nat, lh: seq<nat>)
    requires n <= |bs|
  {
    TwoFree(bs, n) || (AnyFree(bs, n) && LogPinned(bs, n, lh))
  }

  lemma StillRoom(bs: seq<Buf>, cs: seq<Buf>, n: nat, done: set<nat>, lh: seq<nat>, i: nat, b: nat)
    requires n <= |bs| && n <= |cs| && Rests(bs, cs, n, done) && i < |lh| && lh[i] !in done
    requires RoomToInstall(bs, n, lh)
    ensures RoomForBoth(cs, n, b, lh[i]) && RoomForBoth(cs, n, lh[i], b)
  {
    FreeRests(bs, cs, n, done);
    if !TwoFree(bs, n) {
      PinRests(bs, cs, n, done, lh[i]);
    }
  }

  /** A free buffer stays free, so that the header can be read later on. */
  lemma RoomAfter(bs: seq<Buf>, cs: seq<Buf>, n: nat, done: set<nat>, lh: seq<nat>, b: nat)
    requires n <= |bs| && n <= |cs| && Rests(bs, cs, n, done)
    ensures AnyFree(bs, n) ==> !NoBuffer(cs, n, ROOTDEV, b)
    ensures RoomToInstall(bs, n, lh) ==> !NoBuffer(cs, n, ROOTDEV, b)
  {
    FreeRests(bs, cs, n, done);
    if AnyFree(bs, n) {
      RoomFor(cs, n, b);
    }
  }

  lemma LogPinRests(bs: seq<Buf>, cs: seq<Buf>, n: nat, lh: seq<nat>)
    requires n <= |bs| && n <= |cs| && Rests(bs, cs, n, {}) && LogPinned(bs, n, lh)
    ensures LogPinned(cs, n, lh)
  {
    forall i | 0 <= i < |lh| ensures PinnedIn(cs, n, lh[i]) {
      PinRests(bs, cs, n, {}, lh[i]);
    }
  }

  lemma NothingToCommit(g: Geometry, d: Disk, bs: seq<Buf>, n: nat, post: Disk)
    requires g.Ok() && |d| == |post| == g.disksize && Calm(d, bs, n, {})
    requires forall b | 0 <= b < |d| :: post[b] == Logical(d, bs, n, b)
    ensures SameHome(g, d, post) && Rests(bs, bs, n, {})
  {
    forall b | g.Home(b) ensures d[b] == post[b] {
      CalmReads(d, bs, n, {}, b);
    }
  }

  /** With nobody holding a buffer and more buffers than logged blocks one is free. */
  lemma FreeWhenFew(disk: Disk, bs: seq<Buf>, n: nat, lh: seq<nat>)
    requires Calm(disk, bs, n, Listed(lh, |lh|)) && Unheld(bs, n) && |lh| < n
    ensures AnyFree(bs, n)
  {
    if !AnyFree(bs, n) {
      assert forall i | 0 <= i < n :: !Free(bs[i]);
      var all := DirtyBlocks(disk, bs, n, n, Listed(lh, |lh|));
      ListedSize(lh, |lh|);
      SubsetSize(all, Listed(lh, |lh|));
    }
  }

  /** With nobody holding a buffer one is free exactly when there are more buffers than
      logged blocks, and without one the log cannot be read. */
  lemma RoomExactly(g: Geometry, d: Disk, bs: seq<Buf>, n: nat, lh: seq<nat>)
    requires g.Ok() && |d| == g.disksize && g.IsLog(lh) && lh != [] && Calm(d, bs, n, Listed(lh, |lh|))
    requires Unheld(bs, n) && LogPinned(bs, n, lh)
    ensures |lh| < n ==> AnyFree(bs, n)
    ensures |lh| >= n ==> NoBuffer(bs, n, ROOTDEV, g.start + 1)
  {
    if |lh| < n {
      FreeWhenFew(d, bs, n, lh);
    } else {
      var slots := PinSlots(bs, n, lh, |lh|);
      SlotsSize(slots, n);
      forall i | 0 <= i < n ensures !Keyed(bs, i, ROOTDEV, g.start + 1) && !Free(bs[i]) {
        AllSlots(slots, n, i);
        assert bs[i].dirty && bs[i].valid && bs[i].blockno in Listed(lh, |lh|);
      }
    }
  }

  lemma {:induction false} ListedSize(lh: seq<nat>, k: nat)
    requires k <= |lh|
    ensures |Listed(lh, k)| <= k
  {
    if k > 0 {
      ListedSize(lh, k - 1);
      ListedNext(lh, k - 1);
    }
  }

  lemma {:induction false} SubsetSize(s: set<nat>, t: set<nat>)
    requires s <= t
    ensures |s| <= |t|
  {
    if s != {} {
      var x :| x in s;
      SubsetSize(s - {x}, t - {x});
    }
  }

  /** The blocks of the first k buffers, when all are pinned: as many as buffers. */
  lemma {:induction false} DirtyBlocks(d: Disk, bs: seq<Buf>, n: nat, k: nat, pinned: set<nat>) returns (all: set<nat>)
    requires k <= n && Calm(d, bs, n, pinned) && forall i | 0 <= i < k :: bs[i].dirty && bs[i].valid
    ensures |all| == k && all <= pinned && forall b | b in all :: exists i :: 0 <= i < k && bs[i].blockno == b
  {
    if k == 0 {
      all := {};
    } else {
      var less := DirtyBlocks(d, bs, n, k - 1, pinned);
      all := less + {bs[k - 1].blockno};
    }
  }

  /** The buffers of the first k logged blocks: as many as blocks. */
  lemma {:induction false} PinSlots(bs: seq<Buf>, n: nat, lh: seq<nat>, k: nat) returns (slots: set<nat>)
    requires n <= |bs| && k <= |lh| && Distinct(lh) && LogPinned(bs, n, lh)
    ensures |slots| == k
    ensures forall i | i in slots :: i < n && bs[i].dirty && exists j :: 0 <= j < k && bs[i].blockno == lh[j]
  {
    if k == 0 {
      slots := {};
    } else {
      var less := PinSlots(bs, n, lh, k - 1);
      assert PinnedIn(bs, n, lh[k - 1]);
      var i :| 0 <= i < n && Keyed(bs, i, ROOTDEV, lh[k - 1]) && bs[i].dirty;
      slots := less + {i};
    }
  }

  lemma {:induction false} SlotsSize(slots: set<nat>, n: nat)
    requires forall i | i in slots :: i < n
    ensures |slots| <= n
  {
    if n == 0 {
      assert slots == {};
    } else {
      SlotsSize(slots - {n - 1}, n - 1);
    }
  }

  lemma AllSlots(slots: set<nat>, n: nat, i: nat)
    requires (forall j | j in slots :: j < n) && |slots| == n && i < n
    ensures i in slots
  {
    if i !in slots {
      SlotsSize(slots + {i}, n);
    }
  }

  /** A read, a write and a release of an unpinned block leave the cache as it was. */
  lemma HeadRests(bs: seq<Buf>, cs: seq<Buf>, ds: seq<Buf>, es: seq<Buf>, n: nat, r: nat, data: Block)
    requires n <= |bs| && n <= |es| && r < n && BreadFrame(bs, cs, r) && !bs[r].dirty
    requires ds == cs[r := cs[r].(data := data, dirty := false)] && ReleaseFrame(ds, es, n, r)
    ensures Rests(bs, es, n, {})
  {
    forall i | 0 <= i < n ensures RestsAt(bs[i], es[i], {}) {
      assert Unlinked(es[i]) == if i == r then Unlinked(ds[i]).(refcnt := ds[i].refcnt - 1) else Unlinked(ds[i]);
    }
  }

  lemma GetPutRests(bs: seq<Buf>, cs: seq<Buf>, es: seq<Buf>, n: nat, r: nat)
    requires n <= |bs| && n <= |es| && r < n && BreadFrame(bs, cs, r) && ReleaseFrame(cs, es, n, r)
    ensures Rests(bs, es, n, {})
  {
    forall i | 0 <= i < n ensures RestsAt(bs[i], es[i], {}) {
      assert Unlinked(es[i]) == if i == r then Unlinked(cs[i]).(refcnt := cs[i].refcnt - 1) else Unlinked(cs[i]);
    }
  }
}
