/** The buffer cache of bio.c: NBUF buffers on a circular doubly linked list in
    least-recently-released order, over a disk of synchronous block transfers. */
module Bio {
  import opened Blocks

  const ROOTDEV := 1

  /** struct buf; prev and next are slots of the buffer array. */
  datatype Buf = Buf(
    dev: nat, blockno: nat, valid: bool, dirty: bool, refcnt: nat, prev: nat, next: nat, data: Block)

  // ----- the list -----

  /** The walk along next from the head (slot |bs|-1) back to the head. */
  function Circle(head: nat, order: seq<nat>): seq<nat> {
    [head] + order + [head]
  }

  /** next and prev run along path in opposite directions. */
  predicate Linked(bs: seq<Buf>, path: seq<nat>)
    requires forall k | 0 <= k < |path| :: path[k] < |bs|
  {
    forall k | 0 <= k < |path| - 1 :: bs[path[k]].next == path[k + 1] && bs[path[k + 1]].prev == path[k]
  }

  /** One circular list holding the head and each of the n buffers once. */
  predicate ListOk(bs: seq<Buf>, n: nat, order: seq<nat>) {
    && |bs| == n + 1 && |order| == n && Distinct(order)
    && (forall k | 0 <= k < n :: order[k] < n)
    && (forall i | 0 <= i < n :: i in order)
    && Linked(bs, Circle(n, order))
  }

  function Without(order: seq<nat>, k: nat): seq<nat>
    requires k < |order|
  {
    order[..k] + order[k + 1..]
  }

  function Unlink(bs: seq<Buf>, b: nat): seq<Buf>
    requires b < |bs| && bs[b].next < |bs| && bs[b].prev < |bs|
  {
    var cs := bs[bs[b].next := bs[bs[b].next].(prev := bs[b].prev)];
    cs[cs[b].prev := cs[cs[b].prev].(next := cs[b].next)]
  }

  function PushFront(bs: seq<Buf>, head: nat, b: nat): seq<Buf>
    requires b < |bs| && head < |bs| && b != head && bs[head].next < |bs|
  {
    var cs := bs[b := bs[b].(next := bs[head].next, prev := head)];
    var ds := cs[cs[head].next := cs[cs[head].next].(prev := b)];
    ds[head := ds[head].(next := b)]
  }

  lemma UnlinkLinked(bs: seq<Buf>, n: nat, order: seq<nat>, k: nat)
    requires ListOk(bs, n, order) && k < n
    ensures bs[order[k]].next < |bs| && bs[order[k]].prev < |bs|
    ensures Linked(Unlink(bs, order[k]), Circle(n, Without(order, k)))
    ensures forall i | 0 <= i < |bs| :: Unlink(bs, order[k])[i].(prev := 0, next := 0) == bs[i].(prev := 0, next := 0)
  {
    var p := Circle(n, order);
    assert p[k] == bs[order[k]].prev && p[k + 1] == order[k] && p[k + 2] == bs[order[k]].next by {
      assert bs[p[k]].next == p[k + 1] && bs[p[k + 1]].prev == p[k] && bs[p[k + 1]].next == p[k + 2];
    }
    var q := Circle(n, Without(order, k));
    var cs := Unlink(bs, order[k]);
    forall j | 0 <= j < |q| - 1 ensures cs[q[j]].next == q[j + 1] && cs[q[j + 1]].prev == q[j] {
      if j < k {
        assert q[j] == p[j] && q[j + 1] == p[j + 1];
        assert bs[p[j]].next == p[j + 1] && bs[p[j + 1]].prev == p[j];
      } else if j > k {
        assert q[j] == p[j + 1] && q[j + 1] == p[j + 2];
        assert bs[p[j + 1]].next == p[j + 2] && bs[p[j + 2]].prev == p[j + 1];
      } else {
        assert q[j] == p[j] && q[j + 1] == p[j + 2];
      }
    }
  }

  lemma PushFrontLinked(bs: seq<Buf>, head: nat, rest: seq<nat>, b: nat)
    requires head < |bs| && b < |bs| && b != head
    requires (forall k | 0 <= k < |rest| :: rest[k] < |bs| && rest[k] != b && rest[k] != head)
    requires Distinct(rest) && Linked(bs, Circle(head, rest))
    ensures bs[head].next < |bs|
    ensures Linked(PushFront(bs, head, b), Circle(head, [b] + rest))
    ensures forall i | 0 <= i < |bs| :: PushFront(bs, head, b)[i].(prev := 0, next := 0) == bs[i].(prev := 0, next := 0)
  {
    var p := Circle(head, rest);
    var q := Circle(head, [b] + rest);
    assert bs[p[0]].next == p[1];
    var cs := PushFront(bs, head, b);
    forall j | 0 <= j < |q| - 1 ensures cs[q[j]].next == q[j + 1] && cs[q[j + 1]].prev == q[j] {
      if j >= 2 {
        assert q[j] == p[j - 1] && q[j + 1] == p[j];
        assert bs[p[j - 1]].next == p[j] && bs[p[j]].prev == p[j - 1];
      }
    }
  }

  // ----- keys, contents, and what a block reads as -----

  predicate Keyed(bs: seq<Buf>, i: nat, dev: nat, blockno: nat)
    requires i < |bs|
  {
    bs[i].dev == dev && bs[i].blockno == blockno
  }

  /** A key of a real device is in at most one of the n buffers. */
  predicate KeysOk(bs: seq<Buf>, n: nat)
    requires n <= |bs|
  {
    forall i, j | 0 <= i < j < n && bs[i].dev != 0 :: !(bs[i].dev == bs[j].dev && bs[i].blockno == bs[j].blockno)
  }

  /** Valid data is of a block of the disk; unheld clean data is what the disk holds. */
  predicate DataOk(disk: Disk, bs: seq<Buf>, n: nat)
    requires n <= |bs|
  {
    forall i | 0 <= i < n && bs[i].valid ::
      && bs[i].dev == ROOTDEV && bs[i].blockno < |disk|
      && (bs[i].refcnt == 0 && !bs[i].dirty ==> bs[i].data == disk[bs[i].blockno])
  }

  predicate DirtyOk(bs: seq<Buf>, n: nat)
    requires n <= |bs|
  {
    forall i | 0 <= i < n && bs[i].dirty :: bs[i].valid
  }

  predicate CacheOk(disk: Disk, bs: seq<Buf>, n: nat) {
    n <= |bs| && KeysOk(bs, n) && DataOk(disk, bs, n) && DirtyOk(bs, n)
  }

  /** The slot that holds block b of the disk, if one holds it with valid data. */
  function Holder(bs: seq<Buf>, n: nat, b: nat): (r: Option<nat>)
    requires n <= |bs|
    ensures r.Some? ==> r.value < n && Keyed(bs, r.value, ROOTDEV, b) && bs[r.value].valid
    ensures r.None? ==> forall i | 0 <= i < n && Keyed(bs, i, ROOTDEV, b) :: !bs[i].valid
  {
    if n == 0 then None
    else if Keyed(bs, n - 1, ROOTDEV, b) && bs[n - 1].valid then Some(n - 1)
    else Holder(bs, n - 1, b)
  }

  /** The current contents of block b: cached data if valid, else the disk. */
  function Logical(disk: Disk, bs: seq<Buf>, n: nat, b: nat): Block
    requires n <= |bs| && b < |disk|
  {
    match Holder(bs, n, b)
    case None => disk[b]
    case Some(i) => bs[i].data
  }

  lemma LogicalAt(disk: Disk, bs: seq<Buf>, n: nat, i: nat)
    requires CacheOk(disk, bs, n) && i < n && bs[i].valid
    ensures bs[i].blockno < |disk| && Logical(disk, bs, n, bs[i].blockno) == bs[i].data
  {
    assert Keyed(bs, i, ROOTDEV, bs[i].blockno);
  }

  predicate LogicalSame(disk: Disk, bs: seq<Buf>, disk': Disk, bs': seq<Buf>, n: nat)
    requires n <= |bs| && n <= |bs'|
  {
    |disk| == |disk'| && forall b | 0 <= b < |disk| :: Logical(disk', bs', n, b) == Logical(disk, bs, n, b)
  }

  lemma {:induction false} LogicalFrame(disk: Disk, bs: seq<Buf>, cs: seq<Buf>, n: nat, b: nat)
    requires n <= |bs| && n <= |cs| && b < |disk|
    requires forall i | 0 <= i < n ::
      cs[i].(refcnt := 0, dirty := false, prev := 0, next := 0)
        == bs[i].(refcnt := 0, dirty := false, prev := 0, next := 0)
    ensures Logical(disk, cs, n, b) == Logical(disk, bs, n, b)
  {
    if n > 0 {
      LogicalFrame(disk, bs, cs, n - 1, b);
    }
  }

  /** What b reads as is settled by any valid slot keyed to it, or by there being none. */
  lemma LogicalIs(disk: Disk, bs: seq<Buf>, n: nat, b: nat, data: Block)
    requires n <= |bs| && KeysOk(bs, n) && b < |disk|
    requires (exists i :: 0 <= i < n && Keyed(bs, i, ROOTDEV, b) && bs[i].valid && bs[i].data == data)
      || (data == disk[b] && forall i | 0 <= i < n && Keyed(bs, i, ROOTDEV, b) :: !bs[i].valid)
    ensures Logical(disk, bs, n, b) == data
  {
  }

  /** Replacing one buffer leaves alone what every other block reads as. */
  lemma LogicalElsewhere(disk: Disk, bs: seq<Buf>, n: nat, i: nat, e: Buf, b: nat)
    requires CacheOk(disk, bs, n) && i < n && b < |disk| && KeysOk(bs[i := e], n)
    requires !(bs[i].valid && Keyed(bs, i, ROOTDEV, b)) && !(e.valid && e.dev == ROOTDEV && e.blockno == b)
    ensures Logical(disk, bs[i := e], n, b) == Logical(disk, bs, n, b)
  {
    var cs := bs[i := e];
    match Holder(bs, n, b)
    case Some(j) => assert Keyed(cs, j, ROOTDEV, b); LogicalIs(disk, cs, n, b, bs[j].data);
    case None =>
      forall j | 0 <= j < n && Keyed(cs, j, ROOTDEV, b) ensures !cs[j].valid {
        if j != i { assert Keyed(bs, j, ROOTDEV, b); }
      }
      LogicalIs(disk, cs, n, b, disk[b]);
  }

  /** Cache transparency of recycling: giving a clean unheld buffer a new key changes no block. */
  lemma RecycleIsTransparent(disk: Disk, bs: seq<Buf>, n: nat, i: nat, dev: nat, blockno: nat)
    requires CacheOk(disk, bs, n) && i < n && bs[i].refcnt == 0 && !bs[i].dirty
    requires forall j | 0 <= j < n :: !Keyed(bs, j, dev, blockno)
    ensures var cs := bs[i := Recycled(bs[i], dev, blockno)];
      CacheOk(disk, cs, n) && LogicalSame(disk, bs, disk, cs, n)
  {
    var e := Recycled(bs[i], dev, blockno);
    forall j | 0 <= j < n ensures !(bs[j].dev == dev && bs[j].blockno == blockno) {
      assert !Keyed(bs, j, dev, blockno);
    }
    forall b | 0 <= b < |disk| ensures Logical(disk, bs[i := e], n, b) == Logical(disk, bs, n, b) {
      if bs[i].valid && Keyed(bs, i, ROOTDEV, b) {
        LogicalAt(disk, bs, n, i);
        var cs := bs[i := e];
        assert forall j | 0 <= j < n && Keyed(cs, j, ROOTDEV, b) :: !cs[j].valid;
        LogicalIs(disk, cs, n, b, disk[b]);
      } else {
        LogicalElsewhere(disk, bs, n, i, e, b);
      }
    }
  }

  /** What bget's miss makes of a buffer. */
  function Recycled(e: Buf, dev: nat, blockno: nat): Buf {
    e.(dev := dev, blockno := blockno, valid := false, dirty := false, refcnt := 1)
  }

  /** Reading a held, not yet valid buffer from the disk changes what no block reads as. */
  lemma FillIsTransparent(disk: Disk, bs: seq<Buf>, n: nat, i: nat)
    requires CacheOk(disk, bs, n) && i < n && !bs[i].valid && bs[i].dev == ROOTDEV && bs[i].blockno < |disk|
    ensures var cs := bs[i := bs[i].(data := disk[bs[i].blockno], valid := true)];
      CacheOk(disk, cs, n) && LogicalSame(disk, bs, disk, cs, n)
  {
    var e := bs[i].(data := disk[bs[i].blockno], valid := true);
    var cs := bs[i := e];
    forall b | 0 <= b < |disk| ensures Logical(disk, cs, n, b) == Logical(disk, bs, n, b) {
      if b == e.blockno {
        assert Keyed(cs, i, ROOTDEV, b);
        LogicalIs(disk, cs, n, b, disk[b]);
        forall j | 0 <= j < n && Keyed(bs, j, ROOTDEV, b) ensures !bs[j].valid {
        }
        LogicalIs(disk, bs, n, b, disk[b]);
      } else {
        LogicalElsewhere(disk, bs, n, i, e, b);
      }
    }
  }

  /** Changing a held buffer's data, and writing it out, changes what its own block reads as and no other. */
  lemma DataIsLocal(disk: Disk, bs: seq<Buf>, n: nat, i: nat, data: Block)
    requires CacheOk(disk, bs, n) && i < n && bs[i].valid && bs[i].refcnt > 0
    ensures var cs := bs[i := bs[i].(data := data)];
      CacheOk(disk, cs, n) && forall b | 0 <= b < |disk| ::
        Logical(disk, cs, n, b) == if b == bs[i].blockno then data else Logical(disk, bs, n, b)
  {
    var e := bs[i].(data := data);
    var cs := bs[i := e];
    forall b | 0 <= b < |disk|
      ensures Logical(disk, cs, n, b) == if b == bs[i].blockno then data else Logical(disk, bs, n, b)
    {
      if b == e.blockno {
        assert Keyed(cs, i, ROOTDEV, b);
        LogicalIs(disk, cs, n, b, data);
      } else {
        LogicalElsewhere(disk, bs, n, i, e, b);
      }
    }
  }

  lemma WriteIsTransparent(disk: Disk, bs: seq<Buf>, n: nat, i: nat)
    requires CacheOk(disk, bs, n) && i < n && bs[i].valid && bs[i].refcnt > 0
    ensures bs[i].blockno < |disk|
    ensures var cs := bs[i := bs[i].(dirty := false)];
      var d := disk[bs[i].blockno := bs[i].data];
      CacheOk(d, cs, n) && LogicalSame(disk, bs, d, cs, n)
  {
    var cs := bs[i := bs[i].(dirty := false)];
    var d := disk[bs[i].blockno := bs[i].data];
    forall b | 0 <= b < |disk| ensures Logical(d, cs, n, b) == Logical(disk, bs, n, b) {
      if b == bs[i].blockno {
        LogicalAt(disk, bs, n, i);
        assert Keyed(cs, i, ROOTDEV, b);
        LogicalIs(d, cs, n, b, bs[i].data);
      } else {
        LogicalFrame(disk, bs, cs, n, b);
      }
    }
  }

  lemma BootOk(disk: Disk, bs: seq<Buf>, n: nat)
    requires n <= |bs| && forall i | 0 <= i < n :: !bs[i].valid && !bs[i].dirty && bs[i].dev == 0
    ensures CacheOk(disk, bs, n) && forall b | 0 <= b < |disk| :: Logical(disk, bs, n, b) == disk[b]
  {
  }

  lemma BootListOk(bs: seq<Buf>, n: nat, order: seq<nat>)
    requires |bs| == n + 1 && |order| == n && Distinct(order) && (forall k | 0 <= k < n :: order[k] == n - 1 - k)
    requires Linked(bs, Circle(n, order))
    ensures ListOk(bs, n, order)
  {
    forall j | 0 <= j < n ensures j in order {
      assert order[n - 1 - j] == j;
    }
  }

  lemma SameLinks(bs: seq<Buf>, cs: seq<Buf>, n: nat, order: seq<nat>)
    requires ListOk(bs, n, order) && |cs| == |bs|
    requires forall i | 0 <= i < |bs| :: cs[i].prev == bs[i].prev && cs[i].next == bs[i].next
    ensures ListOk(cs, n, order)
  {
  }

  lemma HeldOnceMore(disk: Disk, bs: seq<Buf>, n: nat, i: nat)
    requires CacheOk(disk, bs, n) && i < n
    ensures var cs := bs[i := bs[i].(refcnt := bs[i].refcnt + 1)];
      CacheOk(disk, cs, n) && LogicalSame(disk, bs, disk, cs, n)
  {
    var cs := bs[i := bs[i].(refcnt := bs[i].refcnt + 1)];
    forall c | 0 <= c < |disk| ensures Logical(disk, cs, n, c) == Logical(disk, bs, n, c) {
      LogicalFrame(disk, bs, cs, n, c);
    }
  }

  function Unlinked(e: Buf): Buf {
    e.(prev := 0, next := 0)
  }

  /** bread takes one more reference to one slot, which keeps its key if it was held or dirty. */
  predicate BreadFrame(bs: seq<Buf>, cs: seq<Buf>, b: nat) {
    && |bs| == |cs| && b < |bs|
    && (forall i | 0 <= i < |bs| && i != b :: cs[i] == bs[i])
    && cs[b].dirty == bs[b].dirty && cs[b].refcnt == bs[b].refcnt + 1
    && (!Free(bs[b]) ==> cs[b].dev == bs[b].dev && cs[b].blockno == bs[b].blockno)
  }

  /** brelse drops one reference to b; apart from the links nothing else changes. */
  predicate ReleaseFrame(bs: seq<Buf>, cs: seq<Buf>, n: nat, b: nat)
    requires b < n
  {
    && n <= |bs| && n <= |cs| && bs[b].refcnt > 0
    && forall i | 0 <= i < n ::
         Unlinked(cs[i]) == if i == b then Unlinked(bs[i]).(refcnt := bs[i].refcnt - 1) else Unlinked(bs[i])
  }

  lemma ReleaseOk(disk: Disk, bs: seq<Buf>, cs: seq<Buf>, n: nat, b: nat)
    requires CacheOk(disk, bs, n) && b < n && ReleaseFrame(bs, cs, n, b)
    requires bs[b].refcnt == 1 && bs[b].valid && !bs[b].dirty ==> bs[b].data == disk[bs[b].blockno]
    ensures CacheOk(disk, cs, n) && LogicalSame(disk, bs, disk, cs, n)
  {
    forall i | 0 <= i < n
      ensures cs[i].(refcnt := 0, prev := 0, next := 0) == bs[i].(refcnt := 0, prev := 0, next := 0)
    {
      assert Unlinked(cs[i]) == if i == b then Unlinked(bs[i]).(refcnt := bs[i].refcnt - 1) else Unlinked(bs[i]);
    }
    forall c | 0 <= c < |disk| ensures Logical(disk, cs, n, c) == Logical(disk, bs, n, c) {
      LogicalFrame(disk, bs, cs, n, c);
    }
  }

  /** The list runs from the most to the least recently released buffer. */
  predicate StampsOk(order: seq<nat>, stamp: seq<nat>, clock: nat) {
    && |stamp| == |order| && (forall i | 0 <= i < |stamp| :: stamp[i] < clock)
    && (forall k | 0 <= k < |order| :: order[k] < |stamp|)
    && (forall k, l | 0 <= k < l < |order| :: stamp[order[k]] > stamp[order[l]])
  }

  lemma StampFront(order: seq<nat>, stamp: seq<nat>, clock: nat, k: nat)
    requires StampsOk(order, stamp, clock) && k < |order|
    ensures StampsOk([order[k]] + Without(order, k), stamp[order[k] := clock], clock + 1)
  {
    var o := [order[k]] + Without(order, k);
    forall i | 1 <= i < |o| ensures o[i] == if i <= k then order[i - 1] else order[i] {
    }
  }

  lemma MoveToFront(order: seq<nat>, n: nat, k: nat)
    requires |order| == n && Distinct(order) && (forall i | 0 <= i < n :: i in order) && k < n
    ensures var o := [order[k]] + Without(order, k);
      |o| == n && Distinct(o) && (forall i | 0 <= i < n :: i in o) && (forall i | 0 <= i < n :: o[i] in order)
  {
    var o := [order[k]] + Without(order, k);
    forall i | 0 <= i < n ensures i in o {
      assert i in order;
      var j :| 0 <= j < n && order[j] == i;
      assert o[if j == k then 0 else if j < k then j + 1 else j] == i;
    }
  }

  /** A buffer bget may recycle. */
  predicate Free(e: Buf) {
    e.refcnt == 0 && !e.dirty
  }

  /** bget panics: the key is in no buffer and no buffer can be recycled. */
  predicate NoBuffer(bs: seq<Buf>, n: nat, dev: nat, blockno: nat)
    requires n <= |bs|
  {
    forall i | 0 <= i < n :: !Keyed(bs, i, dev, blockno) && !Free(bs[i])
  }

  class BCache {
    const nbuf: nat
    const buf: array<Buf>
    var disk: Disk

    /** The list from head.next on, when each buffer was last released, and every
        disk image since boot, one per completed block write. */
    ghost var order: seq<nat>
    ghost var stamp: seq<nat>
    ghost var clock: nat
    ghost var history: seq<Disk>

    ghost predicate Valid()
      reads this, buf
    {
      && ListOk(buf[..], nbuf, order)
      && CacheOk(disk, buf[..], nbuf)
      && StampsOk(order, stamp, clock)
      && |history| > 0 && history[|history| - 1] == disk
    }

    ghost function Reads(b: nat): Block
      requires Valid() && b < |disk|
      reads this, buf
    {
      Logical(disk, buf[..], nbuf, b)
    }

    /** binit: each buffer in turn is pushed in front. */
    constructor (nbuf: nat, disk: Disk)
      ensures Valid() && fresh(buf) && this.nbuf == nbuf && this.disk == disk && history == [disk]
      ensures forall b | 0 <= b < |disk| :: Reads(b) == disk[b]
      ensures forall i | 0 <= i < nbuf :: Free(buf[i])
    {
      this.nbuf := nbuf;
      this.disk := disk;
      buf := new Buf[nbuf + 1](_ => Buf(0, 0, false, false, 0, nbuf, nbuf, ZeroBlock()));
      new;
      ghost var o: seq<nat> := [];
      var i := 0;
      while i < nbuf
        invariant 0 <= i <= nbuf && this.disk == disk
        invariant |o| == i && Distinct(o) && (forall k | 0 <= k < i :: o[k] == i - 1 - k)
        invariant Linked(buf[..], Circle(nbuf, o))
        invariant forall j | 0 <= j <= nbuf ::
          buf[j].(prev := 0, next := 0) == Buf(0, 0, false, false, 0, 0, 0, ZeroBlock())
      {
        ghost var before := buf[..];
        PushFrontLinked(before, nbuf, o, i);
        buf[i] := buf[i].(next := buf[nbuf].next, prev := nbuf);
        var first := buf[nbuf].next;
        buf[first] := buf[first].(prev := i);
        buf[nbuf] := buf[nbuf].(next := i);
        assert buf[..] == PushFront(before, nbuf, i);
        o := [i] + o;
        i := i + 1;
      }
      order := o;
      stamp := seq(nbuf, j => j);
      clock := nbuf;
      history := [disk];
      BootListOk(buf[..], nbuf, o);
      BootOk(disk, buf[..], nbuf);
      assert StampsOk(order, stamp, clock);
      assert CacheOk(this.disk, buf[..], nbuf);
    }

    /** bget's first loop: the slot keyed (dev, blockno), or the head. */
    method FindCached(dev: nat, blockno: nat) returns (b: nat)
      requires Valid()
      ensures b <= nbuf
      ensures b < nbuf ==> Keyed(buf[..], b, dev, blockno)
      ensures b == nbuf ==> forall i | 0 <= i < nbuf :: !Keyed(buf[..], i, dev, blockno)
    {
      ghost var bs := buf[..];
      ghost var path := Circle(nbuf, order);
      assert bs[path[0]].next == path[1];
      ghost var k := 0;
      b := buf[nbuf].next;
      while b != nbuf
        invariant 0 <= k <= nbuf && b == path[k + 1]
        invariant forall j | 0 <= j < k :: !Keyed(bs, order[j], dev, blockno)
        decreases nbuf - k
      {
        if buf[b].dev == dev && buf[b].blockno == blockno {
          return;
        }
        assert bs[path[k + 1]].next == path[k + 2];
        b := buf[b].next;
        k := k + 1;
      }
      forall i | 0 <= i < nbuf ensures !Keyed(bs, i, dev, blockno) {
        assert i in order;
        var j :| 0 <= j < nbuf && order[j] == i;
      }
    }

    /** bget's second loop: the least recently released free slot, or the head. */
    method FindFree() returns (b: nat)
      requires Valid()
      ensures b <= nbuf
      ensures b < nbuf ==> Free(buf[b]) && forall i | 0 <= i < nbuf && i != b && Free(buf[i]) :: stamp[b] < stamp[i]
      ensures b == nbuf ==> forall i | 0 <= i < nbuf :: !Free(buf[i])
    {
      ghost var bs := buf[..];
      ghost var path := Circle(nbuf, order);
      assert bs[path[nbuf]].next == path[nbuf + 1] && bs[path[nbuf + 1]].prev == path[nbuf];
      ghost var k := nbuf;
      b := buf[nbuf].prev;
      while b != nbuf
        invariant 0 <= k <= nbuf && b == path[k]
        invariant forall j | k <= j < nbuf :: !Free(bs[order[j]])
        decreases k
      {
        if buf[b].refcnt == 0 && !buf[b].dirty {
          forall i | 0 <= i < nbuf && i != b && Free(bs[i]) ensures stamp[b] < stamp[i] {
            assert i in order && order[k - 1] == b;
            var j :| 0 <= j < nbuf && order[j] == i;
          }
          return;
        }
        assert bs[path[k - 1]].next == path[k] && bs[path[k]].prev == path[k - 1];
        b := buf[b].prev;
        k := k - 1;
      }
      forall i | 0 <= i < nbuf ensures !Free(bs[i]) {
        assert i in order;
        var j :| 0 <= j < nbuf && order[j] == i;
      }
    }

    /** A hit takes one more reference; a miss recycles the least recently released
        free buffer; None is the panic for want of buffers. Either way no block
        reads differently. */
    method Bget(dev: nat, blockno: nat) returns (r: Option<nat>)
      requires Valid() && dev != 0
      modifies buf
      ensures Valid()
      ensures r.None? ==> buf[..] == old(buf[..])
      ensures r.None? <==> NoBuffer(old(buf[..]), nbuf, dev, blockno)
      ensures r.Some? ==> r.value < nbuf && Keyed(buf[..], r.value, dev, blockno)
      ensures r.Some? && Keyed(old(buf[..]), r.value, dev, blockno) ==>
        buf[..] == old(buf[..])[r.value := old(buf[r.value]).(refcnt := old(buf[r.value].refcnt) + 1)]
      ensures r.Some? && !Keyed(old(buf[..]), r.value, dev, blockno) ==>
        && Free(old(buf[r.value]))
        && (forall i | 0 <= i < nbuf && i != r.value && old(Free(buf[i])) :: stamp[r.value] < stamp[i])
        && (forall i | 0 <= i < nbuf :: !Keyed(old(buf[..]), i, dev, blockno))
        && buf[..] == old(buf[..])[r.value := Recycled(old(buf[r.value]), dev, blockno)]
      ensures forall b | 0 <= b < |disk| :: Reads(b) == old(Reads(b))
    {
      ghost var bs := buf[..];
      var b := FindCached(dev, blockno);
      if b != nbuf {
        buf[b] := buf[b].(refcnt := buf[b].refcnt + 1);
        HeldOnceMore(disk, bs, nbuf, b);
      } else {
        b := FindFree();
        if b == nbuf {
          assert NoBuffer(bs, nbuf, dev, blockno);
          return None;
        }
        assert Free(bs[b]);
        RecycleIsTransparent(disk, bs, nbuf, b, dev, blockno);
        buf[b] := Recycled(buf[b], dev, blockno);
      }
      assert buf[..] == bs[b := buf[b]];
      SameLinks(bs, buf[..], nbuf, order);
      return Some(b);
    }

    /** bread: None, a panic, exactly when bget panics or the block is not one of disk 1. */
    method Bread(dev: nat, blockno: nat) returns (r: Option<nat>)
      requires Valid() && dev != 0
      modifies buf
      ensures r.None? <==> dev != ROOTDEV || blockno >= |disk| || NoBuffer(old(buf[..]), nbuf, dev, blockno)
      ensures r.Some? ==> Valid()
      ensures r.Some? ==> r.value < nbuf && Keyed(buf[..], r.value, dev, blockno)
      ensures r.Some? ==> buf[r.value].valid && buf[r.value].refcnt > 0 && buf[r.value].data == old(Reads(blockno))
      ensures r.Some? ==> forall b | 0 <= b < |disk| :: Reads(b) == old(Reads(b))
      ensures r.Some? ==> BreadFrame(old(buf[..]), buf[..], r.value)
    {
      ghost var before := buf[..];
      r := Bget(dev, blockno);
      if r == None {
        return None;
      }
      var b := r.value;
      ghost var bs := buf[..];
      if !buf[b].valid {
        if dev != ROOTDEV || blockno >= |disk| {
          return None;
        }
        FillIsTransparent(disk, bs, nbuf, b);
        buf[b] := buf[b].(data := disk[blockno], valid := true);
        assert buf[..] == bs[b := buf[b]];
        SameLinks(bs, buf[..], nbuf, order);
      }
      LogicalAt(disk, buf[..], nbuf, b);
      assert old(Reads(blockno)) == Reads(blockno);
    }

    /** The holder changes the contents of its buffer. */
    method SetData(b: nat, data: Block)
      requires Valid() && b < nbuf && buf[b].valid && buf[b].refcnt > 0
      modifies buf
      ensures Valid()
      ensures buf[..] == old(buf[..])[b := old(buf[b]).(data := data)]
      ensures forall c | 0 <= c < |disk| :: Reads(c) == if c == buf[b].blockno then data else old(Reads(c))
    {
      ghost var bs := buf[..];
      DataIsLocal(disk, bs, nbuf, b, data);
      buf[b] := buf[b].(data := data);
      assert buf[..] == bs[b := buf[b]];
      SameLinks(bs, buf[..], nbuf, order);
    }

    /** log_write's pin: flags |= B_DIRTY. */
    method SetDirty(b: nat)
      requires Valid() && b < nbuf && buf[b].valid
      modifies buf
      ensures Valid()
      ensures buf[..] == old(buf[..])[b := old(buf[b]).(dirty := true)]
      ensures forall c | 0 <= c < |disk| :: Reads(c) == old(Reads(c))
    {
      ghost var bs := buf[..];
      buf[b] := buf[b].(dirty := true);
      assert buf[..] == bs[b := buf[b]];
      SameLinks(bs, buf[..], nbuf, order);
      forall c | 0 <= c < |disk| ensures Reads(c) == Logical(disk, bs, nbuf, c) {
        LogicalFrame(disk, bs, buf[..], nbuf, c);
      }
    }

    /** bwrite: one synchronous transfer of a held buffer, which is clean afterwards. */
    method Bwrite(b: nat)
      requires Valid() && b < nbuf && buf[b].valid && buf[b].refcnt > 0
      modifies this`disk, this`history, buf
      ensures Valid()
      ensures buf[b].blockno < |old(disk)| && disk == old(disk)[buf[b].blockno := buf[b].data]
      ensures history == old(history) + [disk]
      ensures buf[..] == old(buf[..])[b := old(buf[b]).(dirty := false)]
      ensures forall c | 0 <= c < |disk| :: Reads(c) == old(Reads(c))
    {
      ghost var bs := buf[..];
      WriteIsTransparent(disk, bs, nbuf, b);
      buf[b] := buf[b].(dirty := true);
      disk := disk[buf[b].blockno := buf[b].data];
      buf[b] := buf[b].(dirty := false, valid := true);
      history := history + [disk];
      assert buf[..] == bs[b := buf[b]];
      SameLinks(bs, buf[..], nbuf, order);
    }

    /** brelse's splice: the buffer at place k leaves the list and rejoins it behind the head. */
    method MoveFirst(b: nat, ghost k: nat)
      requires ListOk(buf[..], nbuf, order) && k < nbuf && order[k] == b
      modifies buf
      ensures Linked(buf[..], Circle(nbuf, [b] + Without(order, k)))
      ensures forall i | 0 <= i <= nbuf :: Unlinked(buf[i]) == Unlinked(old(buf[i]))
    {
      ghost var cs := buf[..];
      UnlinkLinked(cs, nbuf, order, k);
      var nx := buf[b].next;
      buf[nx] := buf[nx].(prev := buf[b].prev);
      var pv := buf[b].prev;
      buf[pv] := buf[pv].(next := buf[b].next);
      ghost var ds := buf[..];
      assert ds == Unlink(cs, b);
      PushFrontLinked(ds, nbuf, Without(order, k), b);
      buf[b] := buf[b].(next := buf[nbuf].next, prev := nbuf);
      var first := buf[nbuf].next;
      buf[first] := buf[first].(prev := b);
      buf[nbuf] := buf[nbuf].(next := b);
      assert buf[..] == PushFront(ds, nbuf, b);
      forall i | 0 <= i <= nbuf ensures Unlinked(buf[i]) == Unlinked(cs[i]) {
        assert Unlinked(ds[i]) == Unlinked(cs[i]) && Unlinked(buf[i]) == Unlinked(ds[i]);
      }
    }

    /** The last release: the buffer becomes the most recently released one. */
    method Rejoin(b: nat)
      requires ListOk(buf[..], nbuf, order) && StampsOk(order, stamp, clock) && b < nbuf
      modifies this`order, this`stamp, this`clock, buf
      ensures ListOk(buf[..], nbuf, order) && StampsOk(order, stamp, clock)
      ensures order[0] == b && forall i | 0 <= i < nbuf && i != b :: stamp[i] < stamp[b]
      ensures forall i | 0 <= i <= nbuf :: Unlinked(buf[i]) == Unlinked(old(buf[i]))
    {
      assert b in order;
      ghost var k: nat :| k < nbuf && order[k] == b;
      MoveFirst(b, k);
      MoveToFront(order, nbuf, k);
      StampFront(order, stamp, clock, k);
      order := [b] + Without(order, k);
      stamp := stamp[b := clock];
      clock := clock + 1;
    }

    /** brelse: the last holder moves the buffer to the front of the list. What it
        leaves clean must be what the disk holds. */
    method Brelse(b: nat)
      requires Valid() && b < nbuf && buf[b].refcnt > 0
      requires buf[b].refcnt == 1 && buf[b].valid && !buf[b].dirty ==> buf[b].data == disk[buf[b].blockno]
      modifies this`order, this`stamp, this`clock, buf
      ensures Valid()
      ensures ReleaseFrame(old(buf[..]), buf[..], nbuf, b)
      ensures forall c | 0 <= c < |disk| :: Reads(c) == old(Reads(c))
      ensures buf[b].refcnt == 0 ==> order[0] == b && forall i | 0 <= i < nbuf && i != b :: stamp[i] < stamp[b]
      ensures buf[b].refcnt > 0 ==> order == old(order) && stamp == old(stamp)
    {
      ghost var bs := buf[..];
      buf[b] := buf[b].(refcnt := buf[b].refcnt - 1);
      ghost var cs := buf[..];
      assert cs == bs[b := cs[b]];
      SameLinks(bs, cs, nbuf, order);
      if buf[b].refcnt == 0 {
        Rejoin(b);
      }
      Released(bs, cs, buf[..], nbuf, b);
      ReleaseOk(disk, bs, buf[..], nbuf, b);
    }
  }

  lemma Released(bs: seq<Buf>, cs: seq<Buf>, ds: seq<Buf>, n: nat, b: nat)
    requires n < |bs| == |ds| && b < n && bs[b].refcnt > 0
    requires cs == bs[b := bs[b].(refcnt := bs[b].refcnt - 1)]
    requires forall i | 0 <= i <= n :: Unlinked(ds[i]) == Unlinked(cs[i])
    ensures ReleaseFrame(bs, ds, n, b)
  {
  }
}
